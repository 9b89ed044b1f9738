/**
 The store-and-forward pipeline as a step system: a sensor's queue and its replay
 loop, an unreliable stream that may leave an envelope to be handled at any later
 time, and the controller's table shared with other writers.
 */
module Pipeline {
  import opened Text
  import opened Model
  import opened Spool
  import opened SpoolLaws
  import opened EventStore
  import opened EventLaws
  import opened Transport
  import Session

  /**
   `emitted` gives the one event that this sensor emits under each of its IDs. `catalogue` gives the
   one event that each ID stands for in the table, whoever writes it; for an emitted event that is
   what the controller decodes, which need not be the same in every byte.
   */
  datatype Config = Config(
    env: Env,
    sensor: string,
    emitted: map<Str, Event>,
    catalogue: map<Str, Event>,
    encode: Event -> Str,
    decode: Str -> Option<Event>)

  ghost predicate ValidConfig(c: Config) {
    && (forall id :: id in c.catalogue ==> c.catalogue[id].id == id && Normal(c.catalogue[id], c.env.isAddr))
    && (forall id :: id in c.emitted ==>
          && id in c.catalogue && c.emitted[id].id == id && c.catalogue[id].sensor == c.sensor
          && c.decode(c.encode(c.emitted[id])) == Some(c.catalogue[id]))
  }

  /** One (sensor, session, sequence) key per event ID. */
  ghost predicate UniqueKeys(c: Config) {
    forall i, j :: i in c.catalogue && j in c.catalogue && Key(c.catalogue[i]) == Key(c.catalogue[j]) ==> i == j
  }

  /**
   Every event in the catalogue was emitted by some session, under its ID and with its key. The health
   events that the controller stores for a sensor are such a session: see Health.HealthEventsAreASession.
   */
  ghost predicate FromSessions(c: Config, logs: seq<seq<Event>>, sensors: seq<string>, sessions: seq<string>) {
    && |logs| == |sensors| == |sessions|
    && (forall k :: 0 <= k < |logs| ==> Session.IsLog(logs[k], sensors[k], sessions[k]))
    && (forall k, l :: 0 <= k < l < |logs| ==> sessions[k] != sessions[l])
    && forall id :: id in c.catalogue ==> exists a: nat, i: nat :: EmittedAt(logs, a, i, id, c.catalogue[id])
  }

  ghost predicate EmittedAt(logs: seq<seq<Event>>, a: nat, i: nat, id: Str, e: Event) {
    a < |logs| && i < |logs[a]| && logs[a][i].id == id && Key(logs[a][i]) == Key(e)
  }

  /** Sessions with distinct IDs are all it takes for the hypothesis of unique keys. */
  lemma SessionsGiveUniqueKeys(c: Config, logs: seq<seq<Event>>, sensors: seq<string>, sessions: seq<string>)
    requires FromSessions(c, logs, sensors, sessions)
    ensures UniqueKeys(c)
  {
    forall i, j | i in c.catalogue && j in c.catalogue && Key(c.catalogue[i]) == Key(c.catalogue[j])
      ensures i == j
    {
      var a: nat, k: nat :| EmittedAt(logs, a, k, i, c.catalogue[i]);
      var b: nat, l: nat :| EmittedAt(logs, b, l, j, c.catalogue[j]);
      Session.KeysUnique(logs, sensors, sessions, a, k, b, l);
    }
  }

  predicate Own(c: Config, id: Str) {
    id in c.emitted && id in c.catalogue
  }

  /** A record that carries one of this sensor's events. */
  predicate Genuine(c: Config, r: Record) {
    Own(c, r.id) && r.data == c.encode(c.emitted[r.id])
  }

  predicate Emits(c: Config, e: Event) {
    Own(c, e.id) && c.emitted[e.id] == e
  }

  // ---------------------------------------------------------------- state

  datatype Wire = Quiet | Sent(r: Record) | Answered(ack: Ack)

  /** `Down`: no sensor process. `Offline`: running, without a stream. */
  datatype Link = Down | Offline | Online(batch: seq<Record>, wire: Wire)

  /**
   `orphans` are envelopes whose stream broke before their reply, so that an old
   handler may still process them. The rest are logs: records durably queued, the
   number acknowledged, and this sensor's events in the order first committed.
   */
  datatype State = State(
    disk: Disk,
    link: Link,
    orphans: set<Record>,
    db: Db,
    puts: seq<Item>,
    acked: nat,
    commits: seq<Str>)

  function Initial(max: int): State {
    State(Disk(map[], 0, max), Offline, {}, Db(Tables(map[], {}, [], map[]), map[]), [], 0, [])
  }

  datatype Step =
    | Put(e: Event, stamp: Nanos, fault: PutFault)
    | PutThenDie(e: Event, stamp: Nanos, renamed: bool)
    | Die
    | Restart
    | Connect
    | StreamOpened(now: int)
    | Break
    | List
    | Send
    | Deliver(m: Moment)
    | DeliverOrphan(r: Record, m: Moment)
    | LoseOrphan(r: Record)
    | Heartbeat(id: Str, m: Moment)
    | Receive
    | OtherWriter(e: Event, ids: seq<Str>, stop: Fault)

  // ---------------------------------------------------------------- steps

  function InFlight(link: Link): set<Record> {
    if link.Online? && link.wire.Sent? then {link.wire.r} else {}
  }

  function Drop(s: State, link: Link): State {
    s.(link := link, orphans := s.orphans + InFlight(s.link))
  }

  function AsEnvelope(c: Config, r: Record): Envelope {
    Envelope(VERSION, c.sensor, r.id, r.data, false)
  }

  /** The controller handles r; a first commit is logged. */
  function Handled(c: Config, s: State, r: Record, m: Moment): (State, Reply) {
    var (db, reply) := Handle(c.env, c.decode, s.db, c.sensor, AsEnvelope(c, r), m);
    var first := r.id !in s.db.tables.events && r.id in db.tables.events;
    (s.(db := db, commits := if first then s.commits + [r.id] else s.commits), reply)
  }

  /** Another writer stores an event that is not this sensor's own; one that fails to may have tried any. */
  ghost predicate MayWrite(c: Config, db: Db, e: Event, ids: seq<Str>, fault: Fault) {
    && FreshPaths(c.env, db.files, e, ids)
    && (InsertStep(c.env, db, e, ids, fault).1 == Inserted ==>
          e.id in c.catalogue && c.catalogue[e.id] == e && !Own(c, e.id))
  }

  /** A step that is not enabled changes nothing. */
  ghost function Next(c: Config, s: State, step: Step): State {
    match step
    case Put(e, stamp, fault) =>
      if s.link == Down || !Emits(c, e) then s
      else
        var (disk, r) := PutStep(s.disk, e.id, c.encode(e), stamp, fault);
        s.(disk := disk, puts := if r == Stored then s.puts + [Item(stamp, e.id, c.encode(e))] else s.puts)
    case PutThenDie(e, stamp, renamed) =>
      if s.link == Down || !Emits(c, e) then s
      else
        var (disk, r) := PutStep(s.disk, e.id, c.encode(e), stamp, if renamed then PutFault.NoFault else RenameFails);
        Drop(s, Down).(disk := disk.(used := 0),
            puts := if r == Stored then s.puts + [Item(stamp, e.id, c.encode(e))] else s.puts)
    case Die => if s.link == Down then s else Drop(s, Down).(disk := s.disk.(used := 0))
    case Restart => if s.link == Down then s.(link := Offline, disk := Reopened(s.disk.dir, s.disk.max)) else s
    case Connect => if s.link == Offline then s.(link := Online([], Quiet)) else s
    case StreamOpened(now) => if Touchable(c.sensor) then s.(db := Opened(s.db, c.sensor, now)) else s
    case Break => if s.link.Online? then Drop(s, Offline) else s
    case List =>
      if s.link.Online? && s.link.batch == [] && s.link.wire == Quiet then
        match ListSpec(s.disk.dir)
        case Listed(records) => s.(link := Online(records, Quiet))
        case _ => s.(link := Offline)
      else s
    case Send =>
      if s.link.Online? && s.link.batch != [] && s.link.wire == Quiet
        then s.(link := s.link.(wire := Sent(s.link.batch[0]))) else s
    case Deliver(m) =>
      if s.link.Online? && s.link.wire.Sent? && FreshMoment(c.env, c.decode, s.db, AsEnvelope(c, s.link.wire.r), m) then
        var (after, reply) := Handled(c, s, s.link.wire.r, m);
        if reply == Silence then after.(link := Offline) else after.(link := s.link.(wire := Answered(reply.ack)))
      else s
    case DeliverOrphan(r, m) =>
      if r in s.orphans && FreshMoment(c.env, c.decode, s.db, AsEnvelope(c, r), m)
      then Handled(c, s, r, m).0.(orphans := s.orphans - {r}) else s
    case LoseOrphan(r) => s.(orphans := s.orphans - {r})
    case Receive =>
      if s.link.Online? && s.link.wire.Answered? && s.link.batch != [] then
        var ack, r := s.link.wire.ack, s.link.batch[0];
        if ack.messageId != r.id || !ack.Accepted() then s.(link := Offline)
        else s.(disk := AckStep(s.disk, r.id), link := Online(s.link.batch[1..], Quiet), acked := s.acked + 1)
      else s
    case Heartbeat(id, m) =>
      if s.link.Online? && s.link.batch == [] && s.link.wire == Quiet
      then s.(db := Handle(c.env, c.decode, s.db, c.sensor, Envelope(VERSION, c.sensor, id, "", true), m).0) else s
    case OtherWriter(e, ids, fault) =>
      if MayWrite(c, s.db, e, ids, fault) then s.(db := InsertStep(c.env, s.db, e, ids, fault).0) else s
  }

  ghost function Run(c: Config, s: State, steps: seq<Step>): State
    decreases |steps|
  {
    if steps == [] then s else Run(c, Next(c, s, steps[0]), steps[1..])
  }

  // ------------------------------------------------------------ no loss

  /** The table holds the event, or another event with its key. */
  ghost predicate Covered(db: Db, e: Event) {
    Taken(db.tables.events, e)
  }

  ghost predicate TableOk(c: Config, db: Db) {
    && Backed(db) && KeysUnique(db.tables.events)
    && forall id :: id in db.tables.events ==>
         && id in c.catalogue && db.tables.events[id] == c.catalogue[id].(evidence := [])
         && EvidenceComplete(c.env, db.tables, c.catalogue[id]) && EvidenceHeld(c.env, db, c.catalogue[id])
  }

  ghost predicate QueueOk(c: Config, s: State) {
    && Sound(s.disk.dir)
    && (forall i: Str, x: Str :: Queued(s.disk.dir, i, x) ==> Genuine(c, Record(i, x)))
  }

  ghost predicate LinkOk(c: Config, s: State) {
    && (forall r :: r in s.orphans ==> Genuine(c, r))
    && (s.link.Online? ==>
          && (forall r :: r in s.link.batch ==> Genuine(c, r))
          && (s.link.wire.Sent? ==> s.link.batch != [] && s.link.wire.r == s.link.batch[0])
          && (s.link.wire.Answered? ==> s.link.batch != [] && AnswerOk(c, s.db, s.link.batch[0].id, s.link.wire.ack)))
  }

  ghost predicate AnswerOk(c: Config, db: Db, id: Str, ack: Ack) {
    ack.messageId == id && (ack.Accepted() ==> id in c.catalogue && Covered(db, c.catalogue[id]))
  }

  ghost predicate PutsOk(c: Config, s: State) {
    forall p :: p in s.puts ==>
      && Genuine(c, Record(p.id, p.data))
      && (Queued(s.disk.dir, p.id, p.data) || Covered(s.db, c.catalogue[p.id]))
  }

  ghost predicate CommitsOk(c: Config, s: State) {
    && (forall i, j :: 0 <= i < j < |s.commits| ==> s.commits[i] != s.commits[j])
    && (forall id :: id in s.commits <==> id in s.db.tables.events && Own(c, id))
  }

  ghost predicate Safe(c: Config, s: State) {
    TableOk(c, s.db) && QueueOk(c, s) && LinkOk(c, s) && PutsOk(c, s) && CommitsOk(c, s)
  }

  /** The table only grows, so what is covered stays covered. */
  ghost predicate Grows(a: Db, b: Db) {
    forall id :: id in a.tables.events ==> id in b.tables.events && b.tables.events[id] == a.tables.events[id]
  }

  lemma CoveredGrows(a: Db, b: Db, e: Event)
    requires Grows(a, b) && Covered(a, e)
    ensures Covered(b, e)
  {
    if e.id !in a.tables.events {
      var id :| id in a.tables.events && Key(a.tables.events[id]) == Key(e);
      assert id in b.tables.events && Key(b.tables.events[id]) == Key(e);
    }
  }

  lemma InsertTable(c: Config, db: Db, e: Event, ids: seq<Str>, fault: Fault)
    requires TableOk(c, db) && e.id in c.catalogue && c.catalogue[e.id] == e && FreshPaths(c.env, db.files, e, ids)
    requires ValidConfig(c)
    ensures var (after, r) := InsertStep(c.env, db, e, ids, fault);
            && TableOk(c, after) && Grows(db, after)
            && (r == Inserted || r == Duplicate ==> Covered(after, e))
            && after.tables.events.Keys == db.tables.events.Keys + (if r == Inserted then {e.id} else {})
            && (r == Inserted ==> !Covered(db, e) && e.id !in db.tables.events)
  {
    hide InsertStep, PathFor, EvidenceComplete, EvidenceHeld, Backed, KeysUnique, Taken, Key, Normal, EvidenceOf;
    assert |ids| == |e.evidence|;
    hide FreshPaths;
    InsertKeepsBacked(c.env, db, e, ids, fault);
    InsertEffect(c.env, db, e, ids, fault);
    InsertKeepsKeysUnique(c.env, db, e, ids, fault);
    TakenAfter(db.tables.events, e);
    InsertKeepsEvidence(c, db, e, ids, fault);
  }

  /** Every committed event keeps all its evidence, the new one included. */
  lemma InsertKeepsEvidence(c: Config, db: Db, e: Event, ids: seq<Str>, fault: Fault)
    requires TableOk(c, db) && e.id in c.catalogue && c.catalogue[e.id] == e && FreshPaths(c.env, db.files, e, ids)
    requires ValidConfig(c)
    ensures var after := InsertStep(c.env, db, e, ids, fault).0;
            forall id :: id in after.tables.events ==>
              && id in c.catalogue && EvidenceComplete(c.env, after.tables, c.catalogue[id])
              && EvidenceHeld(c.env, after, c.catalogue[id])
  {
    InsertEffect(c.env, db, e, ids, fault);
    InsertEvidence(c.env, db, e, ids, fault);
    InsertKeepsFiles(c.env, db, e, ids, fault);
    InsertHoldsEvidence(c.env, db, e, ids, fault);
    hide InsertStep, EvidenceComplete, EvidenceHeld, KeepsFiles, Backed, KeysUnique, Taken, Key, Normal, FreshPaths;
    var after := InsertStep(c.env, db, e, ids, fault).0;
    forall id | id in after.tables.events && id != e.id
      ensures id in c.catalogue && EvidenceComplete(c.env, after.tables, c.catalogue[id])
      ensures EvidenceHeld(c.env, after, c.catalogue[id])
    {
      SameEvidence(c.env, db, after, c.catalogue[id]);
    }
  }

  /** An insert that stores nothing. */
  lemma InsertNothing(c: Config, db: Db, e: Event, ids: seq<Str>, fault: Fault)
    requires TableOk(c, db) && FreshPaths(c.env, db.files, e, ids) && InsertStep(c.env, db, e, ids, fault).1 != Inserted
    ensures var after := InsertStep(c.env, db, e, ids, fault).0;
            TableOk(c, after) && Grows(db, after) && after.tables == db.tables
  {
    InsertKeepsBacked(c.env, db, e, ids, fault);
    InsertKeepsFiles(c.env, db, e, ids, fault);
    InsertEvidence(c.env, db, e, ids, fault);
    hide InsertStep, EvidenceComplete, EvidenceHeld, KeepsFiles, Backed, KeysUnique, FreshPaths;
    var after := InsertStep(c.env, db, e, ids, fault).0;
    forall id | id in after.tables.events
      ensures EvidenceHeld(c.env, after, c.catalogue[id])
    {
      SameEvidence(c.env, db, after, c.catalogue[id]);
    }
  }

  lemma TakenAfter(events: map<Str, Event>, e: Event)
    ensures Taken(events[e.id := e.(evidence := [])], e)
    ensures !Taken(events, e) ==> e.id !in events
  {
  }

  lemma SameEvidence(env: Env, a: Db, b: Db, e: Event)
    requires EvidenceComplete(env, a.tables, e) && EvidenceHeld(env, a, e)
    requires EvidenceOf(a.tables.evidence, e.id) == EvidenceOf(b.tables.evidence, e.id) && KeepsFiles(a.files, b.files)
    ensures EvidenceComplete(env, b.tables, e) && EvidenceHeld(env, b, e)
  {
    hide EvidenceOf;
  }

  /** Handling a genuine record is inserting its event. */
  lemma HandleGenuine(c: Config, db: Db, r: Record, m: Moment)
    requires ValidConfig(c) && Genuine(c, r) && TableOk(c, db)
    requires FreshMoment(c.env, c.decode, db, AsEnvelope(c, r), m)
    ensures var e := c.catalogue[r.id];
            var (after, reply) := Handle(c.env, c.decode, db, c.sensor, AsEnvelope(c, r), m);
            && TableOk(c, after) && Grows(db, after)
            && (reply.Reply? ==> reply.ack.messageId == r.id && (reply.ack.Accepted() ==> Covered(after, e)))
            && (after.tables.events.Keys == db.tables.events.Keys
                || (!Covered(db, e) && r.id !in db.tables.events
                    && after.tables.events.Keys == db.tables.events.Keys + {r.id}))
  {
    hide PathFor, InsertStep, Lower, Taken, TableOk, Grows;
    var e := c.catalogue[r.id];
    InsertEffect(c.env, db, e, Supplied(m, db.files, |e.evidence|), m.fault);
    assert c.decode(r.data) == Some(e);
    assert Normalize(e, m.now, m.newId, c.env.isAddr) == Some(e);
    InsertTable(c, db, e, Supplied(m, db.files, |e.evidence|), m.fault);
  }

  lemma HandledSafe(c: Config, s: State, r: Record, m: Moment)
    requires ValidConfig(c) && Safe(c, s) && Genuine(c, r)
    requires FreshMoment(c.env, c.decode, s.db, AsEnvelope(c, r), m)
    ensures var (after, reply) := Handled(c, s, r, m);
            && Safe(c, after) && Grows(s.db, after.db)
            && (reply.Reply? ==>
                  reply.ack.messageId == r.id && (reply.ack.Accepted() ==> Covered(after.db, c.catalogue[r.id])))
            && (after.commits == s.commits
                || (after.commits == s.commits + [r.id] && !Covered(s.db, c.catalogue[r.id])))
  {
    hide Handle, FreshMoment, Queued, Sound, TableOk, Key, Covered, ValidConfig;
    HandleGenuine(c, s.db, r, m);
    var db := Handle(c.env, c.decode, s.db, c.sensor, AsEnvelope(c, r), m).0;
    hide Own;
    GrownSafe(c, s, db, Handled(c, s, r, m).0.commits);
  }

  /** More events in the table, the new one of this sensor's own in the log. */
  lemma GrownSafe(c: Config, s: State, db: Db, commits: seq<Str>)
    requires Safe(c, s) && TableOk(c, db) && Grows(s.db, db)
    requires (forall i, j :: 0 <= i < j < |commits| ==> commits[i] != commits[j])
    requires forall id :: id in commits <==> id in db.tables.events && Own(c, id)
    ensures Safe(c, s.(db := db, commits := commits))
  {
    hide Queued, Sound, TableOk, Taken, Key;
    forall e: Event | Covered(s.db, e)
      ensures Covered(db, e)
    {
      CoveredGrows(s.db, db, e);
    }
  }

  lemma PutSafe(c: Config, s: State, e: Event, stamp: Nanos, fault: PutFault)
    requires Safe(c, s) && Emits(c, e)
    ensures var (disk, r) := PutStep(s.disk, e.id, c.encode(e), stamp, fault);
            Safe(c, s.(disk := disk, puts := if r == Stored then s.puts + [Item(stamp, e.id, c.encode(e))] else s.puts))
  {
    hide PutStep, Queued, Sound, Covered, TableOk, RecName;
    PutContents(s.disk, e.id, c.encode(e), stamp, fault);
  }

  /** Losing the process, the stream or the byte count does not matter to safety. */
  lemma DropSafe(c: Config, s: State, link: Link, used: int)
    requires Safe(c, s) && !link.Online?
    ensures Safe(c, Drop(s, link).(disk := s.disk.(used := used)))
  {
    hide Queued, Sound, Covered, TableOk;
  }

  lemma ReceiveSafe(c: Config, s: State)
    requires Safe(c, s) && s.link.Online? && s.link.wire.Answered?
    ensures Safe(c, Next(c, s, Receive))
  {
    hide AckStep, Queued, Sound, Covered, TableOk, RecName;
    AckContents(s.disk, s.link.batch[0].id);
  }

  lemma ListSafe(c: Config, s: State)
    requires Safe(c, s)
    ensures Safe(c, Next(c, s, List))
  {
    hide ListSpec, Queued, Sound, Covered, TableOk, RecName;
    ListExact(s.disk.dir);
    assert forall r: Record :: Queued(s.disk.dir, r.id, r.data) ==> Genuine(c, Record(r.id, r.data));
  }

  lemma OtherWriterSafe(c: Config, s: State, e: Event, ids: seq<Str>, stop: Fault)
    requires ValidConfig(c) && Safe(c, s)
    requires MayWrite(c, s.db, e, ids, stop)
    ensures Safe(c, s.(db := InsertStep(c.env, s.db, e, ids, stop).0))
  {
    hide InsertStep, Taken, Queued, Sound, TableOk, RecName;
    var (db, r) := InsertStep(c.env, s.db, e, ids, stop);
    if r == Inserted { InsertTable(c, s.db, e, ids, stop); } else { InsertNothing(c, s.db, e, ids, stop); }
    hide Covered, ValidConfig;
    GrownSafe(c, s, db, s.commits);
  }

  lemma DeliverSafe(c: Config, s: State, m: Moment)
    requires ValidConfig(c) && Safe(c, s)
    ensures Safe(c, Next(c, s, Deliver(m)))
  {
    hide Handled, FreshMoment, Safe;
    if s.link.Online? && s.link.wire.Sent? && FreshMoment(c.env, c.decode, s.db, AsEnvelope(c, s.link.wire.r), m) {
      SentHead(c, s);
      HandledSafe(c, s, s.link.wire.r, m);
      HandledLink(c, s, s.link.wire.r, m);
      var (after, reply) := Handled(c, s, s.link.wire.r, m);
      AnsweredSafe(c, after, if reply == Silence then Offline else s.link.(wire := Answered(reply.ack)));
    }
  }

  lemma SentHead(c: Config, s: State)
    requires Safe(c, s) && s.link.Online? && s.link.wire.Sent?
    ensures s.link.batch != [] && s.link.wire.r == s.link.batch[0] && Genuine(c, s.link.wire.r)
  {
    hide Queued, Sound, Covered, TableOk;
  }

  lemma HandledLink(c: Config, s: State, r: Record, m: Moment)
    ensures Handled(c, s, r, m).0.link == s.link
  {
    hide Handle;
  }

  /** The stream ends, or holds a right answer to the head of the batch. */
  lemma AnsweredSafe(c: Config, s: State, link: Link)
    requires Safe(c, s)
    requires link.Online? ==>
               && s.link.Online? && link.batch == s.link.batch && link.batch != []
               && link.wire.Answered? && AnswerOk(c, s.db, link.batch[0].id, link.wire.ack)
    ensures Safe(c, s.(link := link))
  {
    hide Queued, Sound, TableOk, AnswerOk, Covered, Own;
  }

  lemma NextSafe(c: Config, s: State, step: Step)
    requires ValidConfig(c) && Safe(c, s)
    ensures Safe(c, Next(c, s, step))
  {
    hide Safe, PutStep, Handled, InsertStep, ListSpec, FreshMoment, FreshPaths;
    match step {
      case Put(e, stamp, fault) =>
        if s.link != Down && Emits(c, e) { PutSafe(c, s, e, stamp, fault); }
      case PutThenDie(e, stamp, renamed) =>
        if s.link != Down && Emits(c, e) {
          var fault := if renamed then PutFault.NoFault else RenameFails;
          PutSafe(c, s, e, stamp, fault);
          var (disk, r) := PutStep(s.disk, e.id, c.encode(e), stamp, fault);
          DropSafe(c, s.(disk := disk,
              puts := if r == Stored then s.puts + [Item(stamp, e.id, c.encode(e))] else s.puts), Down, 0);
        }
      case Die => DropSafe(c, s, Down, 0);
      case Break => DropSafe(c, s, Offline, s.disk.used);
      case List => ListSafe(c, s);
      case Deliver(m) => DeliverSafe(c, s, m);
      case DeliverOrphan(r, m) =>
        if r in s.orphans && FreshMoment(c.env, c.decode, s.db, AsEnvelope(c, r), m) {
          HandledSafeOrphan(c, s, r, m);
        }
      case Receive => if s.link.Online? && s.link.wire.Answered? { ReceiveSafe(c, s); }
      case OtherWriter(e, ids, stop) =>
        if MayWrite(c, s.db, e, ids, stop) { OtherWriterSafe(c, s, e, ids, stop); }
      case StreamOpened(_) => TouchSafe(c, s, step);
      case Heartbeat(_, _) => TouchSafe(c, s, step);
      case _ => LinkOnlySafe(c, s, step);
    }
  }

  lemma HandledSafeOrphan(c: Config, s: State, r: Record, m: Moment)
    requires ValidConfig(c) && Safe(c, s) && r in s.orphans
    requires FreshMoment(c.env, c.decode, s.db, AsEnvelope(c, r), m)
    ensures Safe(c, Handled(c, s, r, m).0.(orphans := s.orphans - {r}))
  {
    hide Handled, FreshMoment, Queued, Sound, Covered, TableOk;
    HandledSafe(c, s, r, m);
  }

  lemma LinkOnlySafe(c: Config, s: State, step: Step)
    requires Safe(c, s) && (step.Restart? || step.Connect? || step.Send? || step.LoseOrphan?)
    ensures Safe(c, Next(c, s, step))
  {
    hide Queued, Sound, Covered, EvidenceOf, RecName, TableOk, Genuine, Own;
  }

  /** A heartbeat or an opened stream marks the sensor and touches no event. */
  lemma TouchSafe(c: Config, s: State, step: Step)
    requires Safe(c, s) && (step.Heartbeat? || step.StreamOpened?)
    ensures Safe(c, Next(c, s, step))
  {
    hide Safe;
    var db := Next(c, s, step).db;
    assert db.tables.evidence == s.db.tables.evidence && db.tables.events == s.db.tables.events
           && db.files == s.db.files;
    SameEventsSafe(c, s, db);
  }

  lemma SameEventsSafe(c: Config, s: State, db: Db)
    requires Safe(c, s) && db.tables.evidence == s.db.tables.evidence && db.tables.events == s.db.tables.events
             && db.files == s.db.files
    ensures Safe(c, s.(db := db))
  {
    hide Queued, Sound, EvidenceOf, RecName, Key, Genuine, Own;
    forall id | id in s.db.tables.events
      ensures EvidenceComplete(c.env, db.tables, c.catalogue[id]) && EvidenceHeld(c.env, db, c.catalogue[id])
    {
      SameEvidence(c.env, s.db, db, c.catalogue[id]);
    }
  }

  lemma {:induction false} RunSafe(c: Config, s: State, steps: seq<Step>)
    requires ValidConfig(c) && Safe(c, s)
    ensures Safe(c, Run(c, s, steps))
    decreases |steps|
  {
    hide Safe, Next;
    if steps != [] {
      NextSafe(c, s, steps[0]);
      RunSafe(c, Next(c, s, steps[0]), steps[1..]);
    }
  }

  lemma InitialSafe(c: Config, max: int)
    ensures Safe(c, Initial(max))
  {
    hide RecName;
  }

  /**
   The event is in the table as decoded, with exactly one row per evidence item, each with its
   sealed bytes in its file.
   */
  ghost predicate Committed(c: Config, db: Db, id: Str) {
    && id in c.catalogue && id in db.tables.events
    && db.tables.events[id] == c.catalogue[id].(evidence := [])
    && EvidenceComplete(c.env, db.tables, c.catalogue[id])
    && EvidenceHeld(c.env, db, c.catalogue[id])
  }

  /** Over every run: a queued event is still queued or committed, and is committed at most once. */
  lemma NoLoss(c: Config, max: int, steps: seq<Step>)
    requires ValidConfig(c) && UniqueKeys(c)
    ensures var s := Run(c, Initial(max), steps);
            && (forall p :: p in s.puts ==> Queued(s.disk.dir, p.id, p.data) || Committed(c, s.db, p.id))
            && (forall i, j :: 0 <= i < j < |s.commits| ==> s.commits[i] != s.commits[j])
            && (forall id :: id in s.commits ==> Committed(c, s.db, id))
  {
    hide Next, Queued, EvidenceComplete, EvidenceHeld, RecName;
    InitialSafe(c, max);
    RunSafe(c, Initial(max), steps);
    var s := Run(c, Initial(max), steps);
    forall p | p in s.puts && !Queued(s.disk.dir, p.id, p.data)
      ensures Committed(c, s.db, p.id)
    {
      assert Covered(s.db, c.catalogue[p.id]);
      assert forall id :: id in s.db.tables.events ==> Key(s.db.tables.events[id]) == Key(c.catalogue[id]);
    }
  }

  /** A Put that fits and does not fail is logged and queued, under the event's ID and with its encoding. */
  lemma PutIsLogged(c: Config, s: State, e: Event, stamp: Nanos)
    requires ValidConfig(c) && Safe(c, s) && s.link != Down && Emits(c, e)
    ensures var after := Next(c, s, Put(e, stamp, PutFault.NoFault));
            if s.disk.used + |c.encode(e)| + 28 > s.disk.max then after == s
            else after.puts == s.puts + [Item(stamp, e.id, c.encode(e))] && Queued(after.disk.dir, e.id, c.encode(e))
                 && after == s.(puts := after.puts, disk := after.disk)
  {
    PutContents(s.disk, e.id, c.encode(e), stamp, PutFault.NoFault);
    PutRefused(s.disk, e.id, c.encode(e), stamp, PutFault.NoFault);
    hide PutStep, Queued;
  }

  /** For events of sessions with distinct IDs no hypothesis on keys is left. */
  lemma NoSessionLosesEvents(c: Config, max: int, steps: seq<Step>, logs: seq<seq<Event>>, sensors: seq<string>,
      sessions: seq<string>)
    requires ValidConfig(c) && FromSessions(c, logs, sensors, sessions)
    ensures var s := Run(c, Initial(max), steps);
            forall p :: p in s.puts ==> Queued(s.disk.dir, p.id, p.data) || Committed(c, s.db, p.id)
  {
    SessionsGiveUniqueKeys(c, logs, sensors, sessions);
    hide *;
    NoLoss(c, max, steps);
  }

  /** Without unique keys: the event being acknowledged is committed exactly when no other ID holds its key. */
  lemma AcknowledgedIff(c: Config, max: int, steps: seq<Step>)
    requires ValidConfig(c)
    ensures var s := Run(c, Initial(max), steps);
            s.link.Online? && s.link.wire.Answered? && s.link.wire.ack.Accepted() ==>
              && s.link.batch != [] && s.link.batch[0].id in c.catalogue
              && var id := s.link.batch[0].id;
                 (Committed(c, s.db, id) <==>
                    forall other :: other in s.db.tables.events && other != id ==>
                        Key(s.db.tables.events[other]) != Key(c.catalogue[id]))
  {
    hide Next, Queued, EvidenceComplete, EvidenceHeld, RecName;
    InitialSafe(c, max);
    RunSafe(c, Initial(max), steps);
  }
}
