/** Progress, step by step: on a connection where nothing fails, each round takes one record off the queue. */
module Delivery {
  import opened Text
  import opened Model
  import opened Spool
  import opened SpoolLaws
  import opened EventStore
  import opened Transport
  import opened Pipeline
  import opened PipelineOrder
  import opened PipelineSteps

  /** Nothing goes wrong while the controller handles an envelope. */
  ghost predicate Calm(c: Config, m: Moment) {
    m.fault == Fault.NoFault && NewIds(c.env, m)
  }

  /** The controller's reply to a record. */
  function Answer(c: Config, db: Db, r: Record, m: Moment): Reply {
    Handle(c.env, c.decode, db, c.sensor, AsEnvelope(c, r), m).1
  }

  /** Without a fault, every genuine record is accepted, new or not. */
  lemma HandleAccepts(c: Config, db: Db, r: Record, m: Moment)
    requires ValidConfig(c) && Genuine(c, r) && m.fault == Fault.NoFault
    ensures Answer(c, db, r, m).Reply? && Answer(c, db, r, m).ack == Ack(r.id, None)
  {
    hide Lower, Taken, WithEvent, FilesUpTo, RowsFor;
    var e := c.catalogue[r.id];
    assert c.decode(r.data) == Some(e);
    assert Normalize(e, m.now, m.newId, c.env.isAddr) == Some(e);
  }

  /** Send, Deliver, Receive. */
  function Round(m: Moment): seq<Step> {
    [Step.Send, Deliver(m), Step.Receive]
  }

  lemma HeadIsGenuine(c: Config, s: State)
    requires Safe(c, s) && s.link.Online? && s.link.batch != []
    ensures Genuine(c, s.link.batch[0])
  {
    hide Genuine, TableOk, QueueOk, PutsOk, CommitsOk;
    assert s.link.batch[0] in s.link.batch;
  }

  /** The head of the batch is acknowledged and removed. */
  lemma RoundMoves(c: Config, s: State, m: Moment)
    requires ValidConfig(c) && Safe(c, s) && Calm(c, m)
    requires s.link.Online? && s.link.batch != [] && s.link.wire == Quiet
    ensures var after := Run(c, s, Round(m));
            && after.link == Online(s.link.batch[1..], Quiet) && after.acked == s.acked + 1
            && after.puts == s.puts && after.orphans == s.orphans
            && after.disk == AckStep(s.disk, s.link.batch[0].id)
    ensures Answer(c, s.db, s.link.batch[0], m).Reply?
            && Answer(c, s.db, s.link.batch[0], m).ack == Ack(s.link.batch[0].id, None)
  {
    var r := s.link.batch[0];
    HeadIsGenuine(c, s);
    hide Safe, Genuine, Next, AckStep, Handle, ValidConfig, NewIds;
    HandleAccepts(c, s.db, r, m);
    NextOnline(c, s);
    var s1 := Next(c, s, Step.Send);
    NextDeliver(c, s1, m);
    HandledFrame(c, s1, r, m);
    var s2 := Next(c, s1, Deliver(m));
    NextReceive(c, s2);
    RunTwo(c, s, Step.Send, Deliver(m));
    RunExtend(c, s, [Step.Send, Deliver(m)], Step.Receive);
    assert Round(m) == [Step.Send, Deliver(m)] + [Step.Receive];
  }

  /** Records put and not yet acknowledged. */
  function Backlog(s: State): nat {
    if s.acked <= |s.puts| then |s.puts| - s.acked else 0
  }

  /** A listing on a fresh connection is exactly the backlog. */
  lemma ListsBacklog(c: Config, s: State)
    requires Ordered(s) && Increasing(s.puts) && s.link == Online([], Quiet)
    ensures var after := Next(c, s, Step.List);
            && after.link.Online? && after.link.wire == Quiet && |after.link.batch| == Backlog(s)
            && after.puts == s.puts && after.acked == s.acked && s.acked + Backlog(s) == |s.puts|
  {
    ListInPutOrder(s.disk.dir, s.puts[s.acked..]);
    hide Next, ListSpec, Holds;
    NextQueue(c, s);
  }

  /** When everything put has been acknowledged, everything is committed and the queue is empty. */
  lemma Delivered(c: Config, s: State)
    requires ValidConfig(c) && UniqueKeys(c) && Safe(c, s) && Ordered(s) && s.acked == |s.puts|
    ensures s.acked == |s.commits| == |s.puts|
    ensures forall p :: p in s.puts ==> Committed(c, s.db, p.id)
    ensures ListSpec(s.disk.dir) == Listed([])
  {
    hide Safe, ListSpec, FlightsAgree, Holds, UniqueKeys, ValidConfig;
    assert s.puts[s.acked..] == [];
    ListInPutOrder(s.disk.dir, []);
    assert Listed(Records([])) == Listed([]);
    forall p | p in s.puts
      ensures Committed(c, s.db, p.id)
    {
      var i :| 0 <= i < |s.puts| && s.puts[i] == p;
      hide Committed;
      assert s.commits[i] == p.id;
      LoggedIsCommitted(c, s, p.id);
    }
  }

  lemma LoggedIsCommitted(c: Config, s: State, id: Str)
    requires Safe(c, s) && id in s.commits
    ensures Committed(c, s.db, id)
  {
    hide Queued, Sound;
  }

  /** From wherever a run stopped: restart the sensor, or drop its connection. */
  function Recovery(s: State): seq<Step> {
    match s.link
    case Down => [Restart]
    case Offline => []
    case Online(_, _) => [Break]
  }

  lemma Recovers(c: Config, s: State)
    ensures var after := Run(c, s, Recovery(s));
            after.link == Offline && after.puts == s.puts && after.acked == s.acked
  {
    RunTwo(c, s, Restart, Restart);
    RunTwo(c, s, Break, Break);
    RunNone(c, s);
    hide Run, Total;
  }

  lemma InitialOrdered(max: int)
    ensures Ordered(Initial(max))
  {
  }
}
