/** The controller's side of the ingestion stream: one envelope in, one acknowledgement out. */
module Transport {
  import opened Text
  import opened Model
  import opened EventStore
  import opened EventLaws

  const VERSION := 1

  datatype Envelope = Envelope(version: nat, sensor: string, messageId: Str, payload: Str, heartbeat: bool)

  datatype Refusal =
    | BadVersion | WrongSensor | HeartbeatWithPayload | TouchFailed | BadPayload | WrongEventSensor | InsertFailed

  datatype Ack = Ack(messageId: Str, refusal: Option<Refusal>) {
    predicate Accepted() { refusal == None }
  }

  /**
   What the clock, the ID generator and the machine do while one envelope is handled.
   The generator may choose its IDs in view of the evidence files that exist.
   */
  datatype Moment = Moment(now: int, newId: Str, supply: (Files, nat) -> Str, fault: Fault, touchFails: bool)

  function Supplied(m: Moment, files: Files, n: nat): (ids: seq<Str>)
    ensures |ids| == n
  {
    if n == 0 then [] else Supplied(m, files, n - 1) + [m.supply(files, n - 1)]
  }

  /** TouchSensor's upsert. */
  function Touch(t: Tables, id: string, now: int): Tables {
    var row := if id in t.sensors then t.sensors[id].(lastSeen := Some(now), healthy := true)
               else SensorRow(Some(now), "", 0, true);
    t.(sensors := t.sensors[id := row])
  }

  /** The controller opens a stream by touching the sensor's row. */
  function Opened(db: Db, sensor: string, now: int): Db {
    db.(tables := Touch(db.tables, sensor, now))
  }

  lemma TouchKeepsIndexed(t: Tables, id: string, now: int)
    requires Indexed(t)
    ensures var after := Touch(t, id, now);
            && Indexed(after) && after.events == t.events && after.evidence == t.evidence
            && after.sensors[id].lastSeen == Some(now) && after.sensors[id].healthy
            && forall s :: s in t.sensors ==>
              s in after.sensors && after.sensors[s].lastSequence == t.sensors[s].lastSequence
  {
  }

  /** From a to b the sensor was seen, well, at `now`, and nothing else happened. */
  ghost predicate Seen(a: Db, b: Db, sensor: string, now: int) {
    && b.files == a.files && b.tables.events == a.tables.events
    && b.tables.evidence == a.tables.evidence && b.tables.search == a.tables.search
    && b.tables.sensors.Keys == a.tables.sensors.Keys + {sensor}
    && b.tables.sensors[sensor].lastSeen == Some(now) && b.tables.sensors[sensor].healthy
    && (if sensor in a.tables.sensors
        then b.tables.sensors[sensor].lastSession == a.tables.sensors[sensor].lastSession
             && b.tables.sensors[sensor].lastSequence == a.tables.sensors[sensor].lastSequence
        else b.tables.sensors[sensor].lastSession == "" && b.tables.sensors[sensor].lastSequence == 0)
    && forall s :: s in a.tables.sensors && s != sensor ==> b.tables.sensors[s] == a.tables.sensors[s]
  }

  lemma TouchIsSeen(db: Db, sensor: string, now: int)
    ensures Seen(db, db.(tables := Touch(db.tables, sensor, now)), sensor, now)
  {
  }

  predicate Touchable(id: string) {
    id != "" && id != "controller"
  }

  /** No reply when the process dies; otherwise the acknowledgement and what is published. */
  datatype Reply = Silence | Reply(ack: Ack, published: Option<Event>)

  function Refuse(env: Envelope, why: Refusal): Reply {
    Reply(Ack(env.messageId, Some(why)), None)
  }

  function Handle(s: Env, decode: Str -> Option<Event>, db: Db, sensor: string, env: Envelope, m: Moment): (Db, Reply) {
    if env.version != VERSION then (db, Refuse(env, BadVersion))
    else if env.sensor != sensor then (db, Refuse(env, WrongSensor))
    else if env.heartbeat then
      if env.payload != "" then (db, Refuse(env, HeartbeatWithPayload))
      else if !Touchable(sensor) || m.touchFails then (db, Refuse(env, TouchFailed))
      else (db.(tables := Touch(db.tables, sensor, m.now)), Reply(Ack(env.messageId, None), None))
    else
      match decode(env.payload)
      case None => (db, Refuse(env, BadPayload))
      case Some(event) =>
        if event.sensor != sensor then (db, Refuse(env, WrongEventSensor)) else
        match Normalize(event, m.now, m.newId, s.isAddr)
        case None => (db, Refuse(env, InsertFailed))
        case Some(e) =>
          var (after, r) := InsertStep(s, db, e, Supplied(m, db.files, |e.evidence|), m.fault);
          (after, if r == Died then Silence
                  else if r == Failed then Refuse(env, InsertFailed)
                  else Reply(Ack(env.messageId, None), Some(event.(evidence := []))))
  }

  /** A heartbeat is answered and publishes nothing; accepted, it marks the sensor seen, refused, it changes nothing. */
  lemma HeartbeatIsSeen(s: Env, decode: Str -> Option<Event>, db: Db, sensor: string, env: Envelope, m: Moment)
    requires env.heartbeat
    ensures var (after, reply) := Handle(s, decode, db, sensor, env, m);
            && reply.Reply? && reply.ack.messageId == env.messageId && reply.published == None
            && (reply.ack.Accepted() <==>
                  && env.version == 1 && env.sensor == sensor && env.payload == ""
                  && sensor != "" && sensor != "controller" && !m.touchFails)
            && (if reply.ack.Accepted() then Seen(db, after, sensor, m.now) else after == db)
  {
    TouchIsSeen(db, sensor, m.now);
    hide Touch, Seen;
  }

  /** An event is accepted exactly when the envelope and the event are right and the insert stored or knew it. */
  lemma EventAcceptedIff(s: Env, decode: Str -> Option<Event>, db: Db, sensor: string, env: Envelope, m: Moment)
    requires !env.heartbeat
    ensures var (after, reply) := Handle(s, decode, db, sensor, env, m);
            var right := env.version == 1 && env.sensor == sensor && decode(env.payload).Some?
                         && decode(env.payload).value.sensor == sensor
                         && Acceptable(decode(env.payload).value, s.isAddr);
            if !right then after == db && reply.Reply? && !reply.ack.Accepted()
            else
              var e := Normalize(decode(env.payload).value, m.now, m.newId, s.isAddr);
              && e.Some?
              && var (db1, r) := InsertStep(s, db, e.value, Supplied(m, db.files, |e.value.evidence|), m.fault);
                 && after == db1 && (reply == Silence <==> r == Died)
                 && (reply.Reply? ==> (reply.ack.Accepted() <==> r == Inserted || r == Duplicate))
  {
    if decode(env.payload).Some? { NormalizeFills(decode(env.payload).value, m.now, m.newId, s.isAddr); }
    hide Normalize, Acceptable;
    forall e: Event { InsertNotInvalid(s, db, e, Supplied(m, db.files, |e.evidence|), m.fault); }
    hide InsertStep;
  }

  lemma InsertNotInvalid(env: Env, db: Db, e: Event, ids: seq<Str>, fault: Fault)
    requires |ids| == |e.evidence|
    ensures InsertStep(env, db, e, ids, fault).1 != Invalid
  {
    InsertEffect(env, db, e, ids, fault);
  }

  /** A refusal names a check that failed. */
  lemma RefusalIsTrue(s: Env, decode: Str -> Option<Event>, db: Db, sensor: string, env: Envelope, m: Moment)
    ensures var reply := Handle(s, decode, db, sensor, env, m).1;
            reply.Reply? && !reply.ack.Accepted() ==>
              match reply.ack.refusal.value
              case BadVersion => env.version != 1
              case WrongSensor => env.sensor != sensor
              case HeartbeatWithPayload => env.heartbeat && env.payload != ""
              case TouchFailed => env.heartbeat && (sensor == "" || sensor == "controller" || m.touchFails)
              case BadPayload => !env.heartbeat && decode(env.payload) == None
              case WrongEventSensor =>
                !env.heartbeat && decode(env.payload).Some? && decode(env.payload).value.sensor != sensor
              case InsertFailed => !env.heartbeat
  {
    hide InsertStep, Normalize, Touch;
  }

  /** The evidence IDs drawn while handling are new. */
  ghost predicate FreshMoment(s: Env, decode: Str -> Option<Event>, db: Db, env: Envelope, m: Moment) {
    var event := decode(env.payload);
    event.Some? ==> FreshPaths(s, db.files, event.value, Supplied(m, db.files, |event.value.evidence|))
  }

  /** An event envelope is accepted exactly when its event is, or already was, in the table. */
  lemma AcceptedMeansTaken(s: Env, decode: Str -> Option<Event>, db: Db, sensor: string, env: Envelope, m: Moment)
    requires !env.heartbeat
    ensures var (after, reply) := Handle(s, decode, db, sensor, env, m);
            reply.Reply? ==>
              && reply.ack.messageId == env.messageId
              && (reply.ack.Accepted() ==>
                    && decode(env.payload).Some? && decode(env.payload).value.sensor == sensor == env.sensor
                      && env.version == VERSION
                    && var e := Normalize(decode(env.payload).value, m.now, m.newId, s.isAddr);
                    && e.Some? && Taken(after.tables.events, e.value)
                    && reply.published == Some(decode(env.payload).value.(evidence := [])))
              && (!reply.ack.Accepted() ==> after.tables == db.tables && reply.published == None)
  {
  }

  // --------------------------------------------------------------- object

  datatype Turn = Turn(env: Envelope, m: Moment, sendFails: bool)

  datatype Log = Log(acks: seq<Ack>, published: seq<Event>)

  ghost predicate FreshTurns(s: Env, decode: Str -> Option<Event>, db: Db, sensor: string, turns: seq<Turn>)
    decreases |turns|
  {
    turns != [] ==>
      && FreshMoment(s, decode, db, turns[0].env, turns[0].m)
      && FreshTurns(s, decode, Handle(s, decode, db, sensor, turns[0].env, turns[0].m).0, sensor, turns[1..])
  }

  /** A stream is a fold of Handle that stops at a failed send or a death. */
  function Serve(s: Env, decode: Str -> Option<Event>, db: Db, sensor: string, turns: seq<Turn>): (Db, Log)
    decreases |turns|
  {
    if turns == [] then (db, Log([], []))
    else
      var (after, reply) := Handle(s, decode, db, sensor, turns[0].env, turns[0].m);
      if reply == Silence then (after, Log([], []))
      else
        var published := if reply.published.Some? then [reply.published.value] else [];
        if turns[0].sendFails then (after, Log([], published))
        else
          var (last, log) := Serve(s, decode, after, sensor, turns[1..]);
          (last, Log([reply.ack] + log.acks, published + log.published))
  }

  /** The event of the envelope, as normalised, has its ID or its key in the table. */
  ghost predicate Took(s: Env, decode: Str -> Option<Event>, db: Db, turn: Turn) {
    && decode(turn.env.payload).Some?
    && var e := Normalize(decode(turn.env.payload).value, turn.m.now, turn.m.newId, s.isAddr);
       e.Some? && (e.value.id in db.tables.events
                   || exists id :: id in db.tables.events && Key(db.tables.events[id]) == Key(e.value))
  }

  /** Every event of the table stays as it is. */
  ghost predicate KeepsEvents(a: Db, b: Db) {
    forall id :: id in a.tables.events ==> id in b.tables.events && b.tables.events[id] == a.tables.events[id]
  }

  lemma InsertKeepsEvents(env: Env, db: Db, e: Event, ids: seq<Str>, fault: Fault)
    requires |ids| == |e.evidence|
    ensures KeepsEvents(db, InsertStep(env, db, e, ids, fault).0)
  {
    InsertEffect(env, db, e, ids, fault);
    hide InsertStep;
  }

  lemma HandleKeepsEvents(s: Env, decode: Str -> Option<Event>, db: Db, sensor: string, env: Envelope, m: Moment)
    ensures KeepsEvents(db, Handle(s, decode, db, sensor, env, m).0)
  {
    KeepsAll(db);
    assert KeepsEvents(db, db.(tables := Touch(db.tables, sensor, m.now)));
    hide InsertStep, Normalize, KeepsEvents, Touch;
    if decode(env.payload).Some? {
      var n := Normalize(decode(env.payload).value, m.now, m.newId, s.isAddr);
      if n.Some? { InsertKeepsEvents(s, db, n.value, Supplied(m, db.files, |n.value.evidence|), m.fault); }
    }
  }

  lemma TookStays(s: Env, decode: Str -> Option<Event>, a: Db, b: Db, turn: Turn)
    requires KeepsEvents(a, b) && Took(s, decode, a, turn)
    ensures Took(s, decode, b, turn)
  {
    hide Normalize;
    var e := Normalize(decode(turn.env.payload).value, turn.m.now, turn.m.newId, s.isAddr).value;
    if e.id !in a.tables.events {
      var id :| id in a.tables.events && Key(a.tables.events[id]) == Key(e);
      assert id in b.tables.events && Key(b.tables.events[id]) == Key(e);
    }
  }

  lemma HandleTook(s: Env, decode: Str -> Option<Event>, db: Db, sensor: string, turn: Turn)
    ensures var (after, reply) := Handle(s, decode, db, sensor, turn.env, turn.m);
            && (reply.Reply? ==> reply.ack.messageId == turn.env.messageId)
            && (reply == Silence ==> turn.m.fault.AtEvidence?)
            && (reply.Reply? && reply.ack.Accepted() && !turn.env.heartbeat ==> Took(s, decode, after, turn))
  {
    if !turn.env.heartbeat { AcceptedMeansTaken(s, decode, db, sensor, turn.env, turn.m); }
    hide Normalize, Touch, FilesUpTo, RowsFor, WithEvent, PathFor;
  }

  /**
   Over a whole stream: replies come in the order of the envelopes and under their IDs, they stop only with the
   last envelope, a failed send or a death, and at the end every accepted event is in the table, which has lost none.
   */
  lemma {:induction false} StreamAnswers(s: Env, decode: Str -> Option<Event>, db: Db, sensor: string,
      turns: seq<Turn>)
    ensures var (last, log) := Serve(s, decode, db, sensor, turns);
            && |log.acks| <= |turns| && KeepsEvents(db, last)
            && (|log.acks| < |turns| ==> turns[|log.acks|].sendFails || turns[|log.acks|].m.fault.AtEvidence?)
            && forall k :: 0 <= k < |log.acks| ==>
                 && log.acks[k].messageId == turns[k].env.messageId && !turns[k].sendFails
                 && (log.acks[k].Accepted() && !turns[k].env.heartbeat ==> Took(s, decode, last, turns[k]))
    decreases |turns|
  {
    hide Handle, Took, KeepsEvents;
    KeepsAll(db);
    if turns != [] {
      var (after, reply) := Handle(s, decode, db, sensor, turns[0].env, turns[0].m);
      HandleKeepsEvents(s, decode, db, sensor, turns[0].env, turns[0].m);
      HandleTook(s, decode, db, sensor, turns[0]);
      StreamAnswers(s, decode, after, sensor, turns[1..]);
      var last := Serve(s, decode, after, sensor, turns[1..]).0;
      KeepsMore(db, after, last);
      if Took(s, decode, after, turns[0]) { TookStays(s, decode, after, last, turns[0]); }
    }
  }

  lemma KeepsAll(db: Db)
    ensures KeepsEvents(db, db)
  {
  }

  lemma KeepsMore(a: Db, b: Db, c: Db)
    requires KeepsEvents(a, b) && KeepsEvents(b, c)
    ensures KeepsEvents(a, c)
  {
  }

  function After(log: Log, rest: (Db, Log)): (Db, Log) {
    (rest.0, Log(log.acks + rest.1.acks, log.published + rest.1.published))
  }

  lemma AfterNothing(log: Log, db: Db)
    ensures After(log, (db, Log([], []))) == (db, log)
    ensures forall p :: After(log, (db, Log([], [p]))) == (db, log.(published := log.published + [p]))
    ensures forall rest: Log :: After(Log([], []), (db, rest)) == (db, rest)
  {
    assert log.acks + [] == log.acks && log.published + [] == log.published;
    forall rest: Log
      ensures After(Log([], []), (db, rest)) == (db, rest)
    {
      assert [] + rest.acks == rest.acks && [] + rest.published == rest.published;
    }
  }

  lemma ServeUnroll(s: Env, decode: Str -> Option<Event>, db: Db, sensor: string, turns: seq<Turn>, i: nat, log: Log)
    requires i <= |turns|
    ensures i == |turns| ==> After(log, Serve(s, decode, db, sensor, turns[i..])) == (db, log)
    ensures i < |turns| ==>
              && turns[i..][0] == turns[i] && turns[i..][1..] == turns[i + 1..]
              && var (after, reply) := Handle(s, decode, db, sensor, turns[i].env, turns[i].m);
                 var shown := if reply.Reply? && reply.published.Some?
                     then log.(published := log.published + [reply.published.value]) else log;
                 After(log, Serve(s, decode, db, sensor, turns[i..]))
                 == if reply == Silence || turns[i].sendFails then (after, shown)
                    else After(shown.(acks := log.acks + [reply.ack]), Serve(s, decode, after, sensor, turns[i + 1..]))
  {
    hide Handle;
    if i == |turns| {
      AfterNothing(log, db);
    } else {
      assert turns[i..][0] == turns[i] && turns[i..][1..] == turns[i + 1..];
      var (after, reply) := Handle(s, decode, db, sensor, turns[i].env, turns[i].m);
      var (last, rest) := Serve(s, decode, after, sensor, turns[i + 1..]);
      AfterNothing(log, after);
      if reply.Reply? {
        var published := if reply.published.Some? then [reply.published.value] else [];
        assert log.published + (published + rest.published) == (log.published + published) + rest.published;
        assert log.acks + ([reply.ack] + rest.acks) == (log.acks + [reply.ack]) + rest.acks;
      }
    }
  }

  class Server {
    const store: Store
    const decode: Str -> Option<Event>

    constructor (store: Store, decode: Str -> Option<Event>)
      ensures this.store == store && this.decode == decode
    {
      this.store, this.decode := store, decode;
    }

    method HandleOne(sensor: string, env: Envelope, m: Moment) returns (reply: Reply)
      requires FreshMoment(store.env, decode, store.State(), env, m)
      modifies store
      ensures (store.State(), reply) == Handle(store.env, decode, old(store.State()), sensor, env, m)
      ensures env.heartbeat && reply.Reply? && reply.ack.Accepted() ==>
                Seen(old(store.State()), store.State(), sensor, m.now)
      ensures env.heartbeat ==> reply.Reply?
      ensures env.heartbeat && !reply.ack.Accepted() ==> store.State() == old(store.State())
    {
      if env.heartbeat { HeartbeatIsSeen(store.env, decode, store.State(), sensor, env, m); }
      hide FreshPaths, Taken, Normalize, PathFor, WithEvent, FilesUpTo, RowsFor;
      var refusal: Option<Refusal> := None;
      if env.version != VERSION {
        refusal := Some(BadVersion);
      } else if env.sensor != sensor {
        refusal := Some(WrongSensor);
      } else if env.heartbeat {
        if env.payload != "" {
          refusal := Some(HeartbeatWithPayload);
        } else if !Touchable(sensor) || m.touchFails {
          refusal := Some(TouchFailed);
        } else {
          store.tables := Touch(store.tables, sensor, m.now);
        }
      } else {
        var event := decode(env.payload);
        if event == None {
          refusal := Some(BadPayload);
        } else if event.value.sensor != sensor {
          refusal := Some(WrongEventSensor);
        } else {
          EvidenceKept(event.value, m.now, m.newId, store.env.isAddr);
          var r := store.Insert(event.value, m.now, m.newId, Supplied(m, store.files, |event.value.evidence|), m.fault);
          if r == Died { return Silence; }
          if r == Failed || r == Invalid {
            refusal := Some(InsertFailed);
          } else {
            return Reply(Ack(env.messageId, None), Some(event.value.(evidence := [])));
          }
        }
      }
      return Reply(Ack(env.messageId, refusal), None);
    }

    /** TouchSensor, when a stream opens. */
    method Open(sensor: string, now: int, fails: bool) returns (ok: bool)
      modifies store
      ensures ok <==> Touchable(sensor) && !fails
      ensures store.State() == if ok then Opened(old(store.State()), sensor, now) else old(store.State())
      ensures ok ==> Seen(old(store.State()), store.State(), sensor, now)
    {
      TouchIsSeen(store.State(), sensor, now);
      ok := Touchable(sensor) && !fails;
      if ok { store.tables := Touch(store.tables, sensor, now); }
    }

    /** `now` and `fails` are the clock and the outcome of touching the sensor first. */
    method Stream(sensor: string, now: int, fails: bool, turns: seq<Turn>) returns (log: Log)
      requires Touchable(sensor) && !fails ==>
                 FreshTurns(store.env, decode, Opened(store.State(), sensor, now), sensor, turns)
      modifies store
      ensures (store.State(), log)
           == if Touchable(sensor) && !fails
               then Serve(store.env, decode, Opened(old(store.State()), sensor, now), sensor, turns)
              else (old(store.State()), Log([], []))
    {
      hide FreshMoment, Handle, Serve, Touchable, Opened;
      log := Log([], []);
      var ok := Open(sensor, now, fails);
      if !ok { return; }
      ghost var whole := Serve(store.env, decode, store.State(), sensor, turns);
      AfterNothing(log, whole.0);
      assert turns[0..] == turns && After(log, whole) == whole;
      for i := 0 to |turns|
        invariant FreshTurns(store.env, decode, store.State(), sensor, turns[i..])
        invariant whole == After(log, Serve(store.env, decode, store.State(), sensor, turns[i..]))
      {
        ServeUnroll(store.env, decode, store.State(), sensor, turns, i, log);
        var reply := HandleOne(sensor, turns[i].env, turns[i].m);
        if reply == Silence { return; }
        if reply.published.Some? { log := log.(published := log.published + [reply.published.value]); }
        if turns[i].sendFails { return; }
        log := log.(acks := log.acks + [reply.ack]);
      }
      ServeUnroll(store.env, decode, store.State(), sensor, turns, |turns|, log);
    }
  }

  lemma EvidenceKept(e: Event, now: int, newId: Str, isAddr: string -> bool)
    ensures var n := Normalize(e, now, newId, isAddr);
            n.Some? ==> n.value.evidence == e.evidence && n.value.sensor == e.sensor
  {
  }
}
