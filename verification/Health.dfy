/** The controller's health events: stored under the sensor's name, they form one more session. */
module Health {
  import opened Text
  import opened Model
  import opened EventStore
  import opened EventLaws
  import opened Transport
  import opened Pipeline
  import Spool
  import Session

  /** Every sensor's row stays, and its sequence number does not move back. */
  ghost predicate Later(a: Tables, b: Tables) {
    forall id :: id in a.sensors ==> id in b.sensors && b.sensors[id].lastSequence >= a.sensors[id].lastSequence
  }

  lemma LaterInsert(env: Env, db: Db, e: Event, ids: seq<Str>, fault: Fault)
    requires Indexed(db.tables) && |ids| == |e.evidence|
    ensures var (after, r) := InsertStep(env, db, e, ids, fault);
            && Indexed(after.tables) && Later(db.tables, after.tables)
            && (r == Inserted ==>
                  e.sensor in after.tables.sensors && after.tables.sensors[e.sensor].lastSequence >= e.sequence)
  {
    InsertKeepsIndexed(env, db, e, ids, fault);
    InsertEffect(env, db, e, ids, fault);
    hide InsertStep;
  }

  lemma LaterTouch(t: Tables, id: string, now: int)
    requires Indexed(t)
    ensures Indexed(Touch(t, id, now)) && Later(t, Touch(t, id, now))
  {
    TouchKeepsIndexed(t, id, now);
    hide Touch, Indexed;
  }

  lemma LaterHandle(env: Env, decode: Str -> Option<Event>, db: Db, sensor: string, envelope: Envelope, m: Moment)
    requires Indexed(db.tables)
    ensures var after := Handle(env, decode, db, sensor, envelope, m).0;
            Indexed(after.tables) && Later(db.tables, after.tables)
  {
    hide Indexed, InsertStep, Touch, Normalize;
    LaterTouch(db.tables, sensor, m.now);
    var decoded := decode(envelope.payload);
    if decoded.Some? {
      var normal := Normalize(decoded.value, m.now, m.newId, env.isAddr);
      if normal.Some? { LaterInsert(env, db, normal.value, Supplied(m, db.files, |normal.value.evidence|), m.fault); }
    }
  }

  lemma LaterStep(c: Config, s: State, step: Step)
    requires Indexed(s.db.tables)
    ensures Indexed(Next(c, s, step).db.tables) && Later(s.db.tables, Next(c, s, step).db.tables)
  {
    hide Indexed, Handle, InsertStep, Touch, FreshMoment, FreshPaths;
    match step {
      case Deliver(m) => if s.link.Online? && s.link.wire.Sent? { LaterEnvelope(c, s, s.link.wire.r, m); }
      case DeliverOrphan(r, m) => LaterEnvelope(c, s, r, m);
      case Heartbeat(id, m) =>
          LaterHandle(c.env, c.decode, s.db, c.sensor, Envelope(VERSION, c.sensor, id, "", true), m);
      case StreamOpened(now) => LaterTouch(s.db.tables, c.sensor, now);
      case OtherWriter(e, ids, fault) =>
        if MayWrite(c, s.db, e, ids, fault) {
          FreshCount(c.env, s.db.files, e, ids);
          LaterInsert(c.env, s.db, e, ids, fault);
        }
      case _ =>
    }
  }

  lemma FreshCount(env: Env, files: Files, e: Event, ids: seq<Str>)
    requires FreshPaths(env, files, e, ids)
    ensures |ids| == |e.evidence|
  {
  }

  lemma LaterEnvelope(c: Config, s: State, r: Spool.Record, m: Moment)
    requires Indexed(s.db.tables)
    ensures Indexed(Handled(c, s, r, m).0.db.tables) && Later(s.db.tables, Handled(c, s, r, m).0.db.tables)
  {
    hide Indexed, Handle, Later;
    LaterHandle(c.env, c.decode, s.db, c.sensor, AsEnvelope(c, r), m);
  }

  lemma {:induction false} LaterRun(c: Config, s: State, steps: seq<Step>)
    requires Indexed(s.db.tables)
    ensures Indexed(Run(c, s, steps).db.tables) && Later(s.db.tables, Run(c, s, steps).db.tables)
    decreases |steps|
  {
    hide Indexed, Next;
    if steps != [] {
      LaterStep(c, s, steps[0]);
      LaterRun(c, Next(c, s, steps[0]), steps[1..]);
    }
  }

  // ------------------------------------------------------------ health checks

  function HealthSession(sensor: string): string {
    "sensor-health-" + sensor
  }

  /** What the health check stores for a sensor, numbered after the last sequence number of the sensor's row. */
  predicate IsHealthEvent(t: Tables, sensor: string, e: Event) {
    && e.sensor == sensor && e.session == HealthSession(sensor)
    && sensor in t.sensors && e.sequence == t.sensors[sensor].lastSequence + 1
  }

  /** One attempt to store a health event, and whatever happens until the next check of this sensor. */
  datatype Check = Check(e: Event, ids: seq<Str>, fault: Fault, meanwhile: seq<Step>)

  ghost function AfterCheck(c: Config, s: State, check: Check): State {
    Run(c, Next(c, s, OtherWriter(check.e, check.ids, check.fault)), check.meanwhile)
  }

  ghost predicate Checks(c: Config, s: State, sensor: string, checks: seq<Check>)
    decreases |checks|
  {
    checks != [] ==>
      && IsHealthEvent(s.db.tables, sensor, checks[0].e)
      && MayWrite(c, s.db, checks[0].e, checks[0].ids, checks[0].fault)
      && Checks(c, AfterCheck(c, s, checks[0]), sensor, checks[1..])
  }

  /** The health events that were stored. */
  ghost function Stored(c: Config, s: State, checks: seq<Check>): seq<Event>
    requires forall k :: 0 <= k < |checks| ==> |checks[k].ids| == |checks[k].e.evidence|
    decreases |checks|
  {
    if checks == [] then []
    else
      var rest := Stored(c, AfterCheck(c, s, checks[0]), checks[1..]);
      if InsertStep(c.env, s.db, checks[0].e, checks[0].ids, checks[0].fault).1 == Inserted then [checks[0].e] + rest
        else rest
  }

  /** No stored event of the sensor, of whatever session, has the number of its next health event. */
  lemma HealthEventIsNew(t: Tables, sensor: string, e: Event)
    requires Indexed(t) && IsHealthEvent(t, sensor, e)
    ensures forall id :: id in t.events ==> Key(t.events[id]) != Key(e)
  {
  }

  /** Over every run between the checks, stored health events have increasing numbers: they form a session. */
  lemma {:induction false} HealthEventsAreASession(c: Config, s: State, sensor: string, checks: seq<Check>)
    requires Indexed(s.db.tables) && Checks(c, s, sensor, checks)
    requires forall k :: 0 <= k < |checks| ==> |checks[k].ids| == |checks[k].e.evidence|
    ensures Session.IsLog(Stored(c, s, checks), sensor, "sensor-health-" + sensor)
    ensures checks != [] ==> sensor in s.db.tables.sensors
    ensures forall e :: e in Stored(c, s, checks) ==>
              sensor in s.db.tables.sensors && e.sequence > s.db.tables.sensors[sensor].lastSequence
    decreases |checks|
  {
    hide Indexed, InsertStep, Next, Run, MayWrite;
    if checks != [] {
      var check := checks[0];
      var after := AfterCheck(c, s, check);
      CheckMovesOn(c, s, sensor, check);
      HealthEventsAreASession(c, after, sensor, checks[1..]);
    }
  }

  /** After a check the sensor's number is no smaller than before, and no smaller than that of a stored event. */
  lemma CheckMovesOn(c: Config, s: State, sensor: string, check: Check)
    requires Indexed(s.db.tables) && IsHealthEvent(s.db.tables, sensor, check.e)
    requires MayWrite(c, s.db, check.e, check.ids, check.fault)
    ensures var after := AfterCheck(c, s, check).db.tables;
            var stored := InsertStep(c.env, s.db, check.e, check.ids, check.fault).1 == Inserted;
            && Indexed(after) && sensor in after.sensors
            && after.sensors[sensor].lastSequence >= s.db.tables.sensors[sensor].lastSequence + if stored then 1 else 0
  {
    hide Indexed, InsertStep, Run, FreshPaths;
    FreshCount(c.env, s.db.files, check.e, check.ids);
    LaterInsert(c.env, s.db, check.e, check.ids, check.fault);
    LaterRun(c, Next(c, s, OtherWriter(check.e, check.ids, check.fault)), check.meanwhile);
  }
}
