/** The sensor's replay loop, over the real queue and server objects, as a run of the step system. */
module Replay {
  import opened Text
  import Spool
  import opened SpoolLaws
  import opened EventStore
  import opened Transport
  import opened Pipeline
  import opened PipelineOrder
  import opened PipelineSteps
  import opened Delivery

  /**
   What becomes of one send and the reply to it. `id` names it if it is a heartbeat; `dirFails` is an
   error in reading the directory for the acknowledgement, `removeFails` one in removing the file.
   */
  datatype Exchange =
    | SendFails
    | LostInFlight
    | Exchanged(id: Str, m: Moment, ackLost: bool, dirFails: bool, removeFails: bool)

  datatype End = Cancelled | SpoolError | StreamError | Mismatch | Refused(why: Refusal) | Acked

  // ---------------------------------------------------------- the loop's trail

  /** The steps that one offer of the batch's head takes, and how it ends. */
  ghost function OfferTrail(c: Config, s: State, x: Exchange): (seq<Step>, End)
    requires s.link.Online? && s.link.batch != []
  {
    match x
    case SendFails => ([Break], StreamError)
    case LostInFlight => ([Step.Send, Break], StreamError)
    case Exchanged(_, m, ackLost, dirFails, removeFails) =>
      var r := s.link.batch[0];
      var reply := Answer(c, s.db, r, m);
      if reply == Silence then ([Step.Send, Deliver(m)], StreamError)
      else if ackLost then ([Step.Send, Deliver(m), Break], StreamError)
      else if reply.ack.messageId != r.id then (Round(m), Mismatch)
      else if !reply.ack.Accepted() then (Round(m), Refused(reply.ack.refusal.value))
      else if dirFails || (removeFails && Spool.Removable(s.disk, r.id))
      then ([Step.Send, Deliver(m), Break], SpoolError)
      else (Round(m), Acked)
  }

  function BeatReply(c: Config, db: Db, id: Str, m: Moment): Reply {
    Handle(c.env, c.decode, db, c.sensor, Envelope(VERSION, c.sensor, id, "", true), m).1
  }

  /** The same for a heartbeat. */
  function BeatTrail(c: Config, s: State, x: Exchange): (seq<Step>, End) {
    if !x.Exchanged? then ([Break], StreamError)
    else
      var reply := BeatReply(c, s.db, x.id, x.m);
      var beat := Step.Heartbeat(x.id, x.m);
      if x.ackLost || reply == Silence then ([beat, Break], StreamError)
      else if reply.ack.messageId != x.id then ([beat, Break], Mismatch)
      else if !reply.ack.Accepted() then ([beat, Break], Refused(reply.ack.refusal.value))
      else ([beat], Acked)
  }

  function Prefixed(head: seq<Step>, rest: (seq<Step>, End)): (seq<Step>, End) {
    (head + rest.0, rest.1)
  }

  /**
   The loop on an open stream: with nothing left of the last listing it lists again, an empty listing
   is followed by a heartbeat, and the records of a listing are offered in order. It ends with the
   first failure, or is cancelled at the end of the script.
   */
  ghost function Loop(c: Config, s: State, script: seq<Exchange>): (seq<Step>, End)
    requires s.link.Online? && s.link.wire == Quiet
    decreases |script|, if s.link.batch == [] then 1 else 0
  {
    if script == [] then ([Break], Cancelled)
    else if s.link.batch != [] then
      var (head, end) := OfferTrail(c, s, script[0]);
      var next := Run(c, s, head);
      if end != Acked || !(next.link.Online? && next.link.wire == Quiet) then (head, end)
      else Prefixed(head, Loop(c, next, script[1..]))
    else
      var listed := Next(c, s, Step.List);
      if !(listed.link.Online? && listed.link.wire == Quiet) then ([Step.List], SpoolError)
      else if listed.link.batch != [] then Prefixed([Step.List], Loop(c, listed, script))
      else
        var (head, end) := BeatTrail(c, listed, script[0]);
        var next := Run(c, listed, head);
        if end != Acked || !(next.link.Online? && next.link.wire == Quiet) then ([Step.List] + head, end)
        else Prefixed([Step.List] + head, Loop(c, next, script[1..]))
  }

  // --------------------------------------------------------------- progress

  /** An exchange on which nothing goes wrong. */
  ghost predicate CalmExchange(c: Config, x: Exchange) {
    x.Exchanged? && Calm(c, x.m) && !x.ackLost && !x.dirFails && !x.removeFails
  }

  /** On calm exchanges the loop takes the whole batch off the queue before it lists again. */
  lemma {:induction false} BatchIsSent(c: Config, s: State, script: seq<Exchange>) returns (trail: seq<Step>)
    requires ValidConfig(c) && Safe(c, s) && s.link.Online? && s.link.wire == Quiet
    requires |s.link.batch| <= |script| && forall i :: 0 <= i < |s.link.batch| ==> CalmExchange(c, script[i])
    ensures var after := Run(c, s, trail);
            && after.link == Online([], Quiet) && after.acked == s.acked + |s.link.batch|
            && Loop(c, s, script) == Prefixed(trail, Loop(c, after, script[|s.link.batch|..]))
    decreases |s.link.batch|
  {
    hide Safe, ValidConfig, Next, Calm, Round;
    if s.link.batch == [] {
      RunNone(c, s);
      assert script[0..] == script;
      PrefixedNone(Loop(c, s, script));
      return [];
    }
    var m := script[0].m;
    assert CalmExchange(c, script[0]);
    RoundMoves(c, s, m);
    assert OfferTrail(c, s, script[0]) == (Round(m), Acked);
    RunSafe(c, s, Round(m));
    var next := Run(c, s, Round(m));
    var rest := BatchIsSent(c, next, script[1..]);
    hide Run, OfferTrail;
    RunConcat(c, s, Round(m), rest);
    assert script[1..][|s.link.batch| - 1..] == script[|s.link.batch|..];
    PrefixedTwice(Round(m), rest, Loop(c, Run(c, next, rest), script[|s.link.batch|..]));
    return Round(m) + rest;
  }

  lemma PrefixedNone(rest: (seq<Step>, End))
    ensures Prefixed([], rest) == rest
  {
    assert [] + rest.0 == rest.0;
  }

  lemma PrefixedTwice(a: seq<Step>, b: seq<Step>, rest: (seq<Step>, End))
    ensures Prefixed(a, Prefixed(b, rest)) == Prefixed(a + b, rest)
  {
    assert a + (b + rest.0) == (a + b) + rest.0;
  }

  lemma OfferNoPuts(c: Config, s: State, x: Exchange)
    requires s.link.Online? && s.link.batch != []
    ensures NoPuts(OfferTrail(c, s, x).0)
  {
    hide Answer, Spool.Removable;
  }

  lemma BeatNoPuts(c: Config, s: State, x: Exchange)
    ensures NoPuts(BeatTrail(c, s, x).0)
  {
    hide BeatReply;
  }

  lemma NoPutsJoin(a: seq<Step>, b: seq<Step>)
    requires NoPuts(a) && NoPuts(b)
    ensures NoPuts(a + b) && NoPuts([Step.List]) && NoPuts([Step.List] + a) && NoPuts([Step.List] + a + b)
            && NoPuts([Break])
  {
  }

  /** The loop never puts. */
  lemma {:induction false} LoopNoPuts(c: Config, s: State, script: seq<Exchange>)
    requires s.link.Online? && s.link.wire == Quiet
    ensures NoPuts(Loop(c, s, script).0)
    decreases |script|, if s.link.batch == [] then 1 else 0
  {
    NoPutsJoin([], []);
    hide Run, Next, OfferTrail, BeatTrail, NoPuts;
    if script != [] && s.link.batch != [] {
      OfferNoPuts(c, s, script[0]);
      var (head, end) := OfferTrail(c, s, script[0]);
      var next := Run(c, s, head);
      if end == Acked && next.link.Online? && next.link.wire == Quiet {
        LoopNoPuts(c, next, script[1..]);
        NoPutsJoin(head, Loop(c, next, script[1..]).0);
      }
    } else if script != [] {
      var listed := Next(c, s, Step.List);
      if listed.link.Online? && listed.link.wire == Quiet {
        if listed.link.batch != [] {
          LoopNoPuts(c, listed, script);
          NoPutsJoin(Loop(c, listed, script).0, Loop(c, listed, script).0);
        } else {
          BeatNoPuts(c, listed, script[0]);
          var (head, end) := BeatTrail(c, listed, script[0]);
          var next := Run(c, listed, head);
          NoPutsJoin(head, head);
          if end == Acked && next.link.Online? && next.link.wire == Quiet {
            LoopNoPuts(c, next, script[1..]);
            NoPutsJoin(head, Loop(c, next, script[1..]).0);
          }
        }
      }
    }
  }

  /** A script of calm exchanges, at least as long as the backlog. */
  ghost predicate Enough(c: Config, s: State, script: seq<Exchange>) {
    |script| >= Backlog(s) && forall x :: x in script ==> CalmExchange(c, x)
  }

  /** The loop acknowledges everything that was queued when it started. */
  lemma LoopAcknowledges(c: Config, s: State, script: seq<Exchange>)
    requires ValidConfig(c) && Safe(c, s) && Ordered(s) && Increasing(s.puts)
    requires s.link == Online([], Quiet) && Enough(c, s, script)
    ensures Run(c, s, Loop(c, s, script).0).acked >= |s.puts|
  {
    hide Safe, Ordered, Increasing, ValidConfig, CalmExchange, Next;
    var trail := Loop(c, s, script).0;
    ListsBacklog(c, s);
    if script == [] {
      AckedGrows(c, s, trail);
    } else if Backlog(s) == 0 {
      AckedGrows(c, s, trail);
    } else {
      var listed := Next(c, s, Step.List);
      NextSafe(c, s, Step.List);
      var sent := BatchIsSent(c, listed, script);
      var after := Run(c, listed, sent);
      var rest := Loop(c, after, script[|listed.link.batch|..]);
      assert Loop(c, s, script) == Prefixed([Step.List], Loop(c, listed, script));
      hide Loop, Run;
      PrefixedTwice([Step.List], sent, rest);
      RunTwo(c, s, Step.List, Step.List);
      RunConcat(c, s, [Step.List], sent);
      RunConcat(c, s, [Step.List] + sent, rest.0);
      AckedGrows(c, after, rest.0);
    }
  }

  /** An offer is acknowledged exactly when the reply to it is an acceptance under its own ID and nothing fails. */
  lemma OfferAckedIff(c: Config, s: State, x: Exchange)
    requires s.link.Online? && s.link.batch != []
    ensures var (r, end) := (s.link.batch[0], OfferTrail(c, s, x).1);
            && (end == Acked <==>
                  && x.Exchanged? && !x.ackLost && Answer(c, s.db, r, x.m).Reply?
                  && Answer(c, s.db, r, x.m).ack == Ack(r.id, None)
                  && !x.dirFails && !(x.removeFails && Spool.Removable(s.disk, r.id)))
            && end != Mismatch && (end.Refused? ==> Answer(c, s.db, r, x.m).ack.refusal == Some(end.why))
  {
    AnswerNames(c, s.db, s.link.batch[0]);
    hide Answer, Spool.Removable;
  }

  /** The controller answers under the envelope's own ID. */
  lemma AnswerNames(c: Config, db: Db, r: Spool.Record)
    ensures forall m :: Answer(c, db, r, m).Reply? ==> Answer(c, db, r, m).ack.messageId == r.id
  {
    forall m | Answer(c, db, r, m).Reply?
      ensures Answer(c, db, r, m).ack.messageId == r.id
    {
      HandleTook(c.env, c.decode, db, c.sensor, Turn(AsEnvelope(c, r), m, false));
      hide Handle;
    }
  }

  /** A heartbeat keeps the stream exactly when its reply arrives and the sensor's row could be touched. */
  lemma BeatAckedIff(c: Config, s: State, x: Exchange)
    ensures BeatTrail(c, s, x).1 == Acked <==>
              x.Exchanged? && !x.ackLost && c.sensor != "" && c.sensor != "controller" && !x.m.touchFails
  {
    if x.Exchanged? {
      HeartbeatIsSeen(c.env, c.decode, s.db, c.sensor, Envelope(VERSION, c.sensor, x.id, "", true), x.m);
      hide Handle, Seen;
    }
  }

  /** Nothing fails, and the sensor may be touched. */
  ghost predicate Lasting(c: Config, script: seq<Exchange>) {
    && c.sensor != "" && c.sensor != "controller"
    && forall x :: x in script ==> CalmExchange(c, x) && !x.m.touchFails
  }

  lemma BeatMoves(c: Config, s: State, x: Exchange)
    requires s.link == Online([], Quiet) && x.Exchanged? && BeatTrail(c, s, x).1 == Acked
    ensures Run(c, s, BeatTrail(c, s, x).0).link == s.link && BeatTrail(c, s, x).0 == [Step.Heartbeat(x.id, x.m)]
  {
    NextHeartbeat(c, s, x.id, x.m);
    RunTwo(c, s, Step.Heartbeat(x.id, x.m), Break);
    hide Next, Run, BeatReply;
  }

  lemma ListsOnline(c: Config, s: State)
    requires Safe(c, s) && s.link == Online([], Quiet)
    ensures Next(c, s, Step.List).link.Online? && Next(c, s, Step.List).link.wire == Quiet
  {
    ListExact(s.disk.dir);
    NextQueue(c, s);
    hide Next, Spool.ListSpec;
  }

  /** The records and heartbeats that a trail sends. */
  function Sends(trail: seq<Step>): nat {
    if trail == [] then 0
    else Sends(trail[..|trail| - 1]) + if trail[|trail| - 1].Send? || trail[|trail| - 1].Heartbeat? then 1 else 0
  }

  lemma {:induction false} SendsConcat(a: seq<Step>, b: seq<Step>)
    ensures Sends(a + b) == Sends(a) + Sends(b)
  {
    if b == [] {
      assert a + b == a;
    } else {
      assert (a + b)[..|a + b| - 1] == a + b[..|b| - 1];
      SendsConcat(a, b[..|b| - 1]);
    }
  }

  lemma SendsOne(c: Config, s: State, x: Exchange)
    ensures Sends([Step.List]) == 0 && Sends([Break]) == 0
    ensures x.Exchanged? ==> Sends(Round(x.m)) == 1 && Sends([Step.Heartbeat(x.id, x.m)]) == 1
  {
    forall step: Step ensures Sends([step]) == if step.Send? || step.Heartbeat? then 1 else 0 {
      assert [step][..0] == [];
    }
    if x.Exchanged? {
      assert Round(x.m) == [Step.Send] + ([Deliver(x.m)] + [Step.Receive]);
      SendsConcat([Deliver(x.m)], [Step.Receive]);
      SendsConcat([Step.Send], [Deliver(x.m)] + [Step.Receive]);
    }
  }

  /** As long as nothing fails the loop goes on: it sends once for each exchange there is, and is then cancelled. */
  lemma {:induction false} LoopGoesOn(c: Config, s: State, script: seq<Exchange>)
    requires ValidConfig(c) && Safe(c, s) && s.link.Online? && s.link.wire == Quiet && Lasting(c, script)
    ensures Loop(c, s, script).1 == Cancelled && Sends(Loop(c, s, script).0) == |script|
    decreases |script|, if s.link.batch == [] then 1 else 0
  {
    hide Safe, ValidConfig, Next, Run, OfferTrail, BeatTrail, CalmExchange, Sends, Round;
    if script == [] {
      SendsOne(c, s, SendFails);
    } else {
      var x := script[0];
      assert Lasting(c, script[1..]) && CalmExchange(c, x);
      CalmIsExchanged(c, x);
      SendsOne(c, s, x);
      if s.link.batch != [] {
        OfferMoves(c, s, x);
        var head := OfferTrail(c, s, x).0;
        RunSafe(c, s, head);
        LoopGoesOn(c, Run(c, s, head), script[1..]);
        SendsConcat(head, Loop(c, Run(c, s, head), script[1..]).0);
      } else {
        var listed := Next(c, s, Step.List);
        ListsOnline(c, s);
        NextSafe(c, s, Step.List);
        if listed.link.batch != [] {
          LoopGoesOn(c, listed, script);
          SendsConcat([Step.List], Loop(c, listed, script).0);
        } else {
          BeatAckedIff(c, listed, x);
          BeatMoves(c, listed, x);
          var head := BeatTrail(c, listed, x).0;
          RunSafe(c, listed, head);
          LoopGoesOn(c, Run(c, listed, head), script[1..]);
          SendsConcat([Step.List], head);
          SendsConcat([Step.List] + head, Loop(c, Run(c, listed, head), script[1..]).0);
        }
      }
    }
  }

  lemma CalmIsExchanged(c: Config, x: Exchange)
    requires CalmExchange(c, x)
    ensures x.Exchanged? && !x.ackLost
  {
  }

  lemma OfferMoves(c: Config, s: State, x: Exchange)
    requires ValidConfig(c) && Safe(c, s) && CalmExchange(c, x)
    requires s.link.Online? && s.link.batch != [] && s.link.wire == Quiet
    ensures var (head, end) := OfferTrail(c, s, x);
            end == Acked && Run(c, s, head).link == Online(s.link.batch[1..], Quiet) && head == Round(x.m)
  {
    hide Safe, ValidConfig, Next, Calm, Round;
    RoundMoves(c, s, x.m);
    hide Run;
    assert OfferTrail(c, s, x) == (Round(x.m), Acked);
  }

  /** What a fresh connection does: the controller opens the stream, and the loop runs. */
  ghost function Connection(c: Config, s: State, now: int, script: seq<Exchange>): seq<Step>
    requires s.link == Offline
  {
    var s1 := Run(c, s, [Connect, StreamOpened(now)]);
    if s1.link.Online? && s1.link.wire == Quiet then [Connect, StreamOpened(now)] + Loop(c, s1, script).0
      else [Connect, StreamOpened(now)]
  }

  /** From any ordered state without a connection: one fault-free connection commits and removes all that was queued. */
  lemma FaultFreeDelivers(c: Config, s: State, now: int, script: seq<Exchange>)
    requires ValidConfig(c) && UniqueKeys(c) && Safe(c, s) && Ordered(s) && Increasing(s.puts) && DistinctIds(s.puts)
    requires s.link == Offline && Enough(c, s, script)
    ensures var end := Run(c, s, Connection(c, s, now, script));
            && end.puts == s.puts && end.acked == |end.commits| == |end.puts|
            && (forall p :: p in end.puts ==> Committed(c, end.db, p.id))
            && Spool.ListSpec(end.disk.dir) == Spool.Listed([])
  {
    var opening := [Connect, StreamOpened(now)];
    NextQueue(c, s);
    NextOpened(c, Next(c, s, Connect), now);
    RunTwo(c, s, Connect, StreamOpened(now));
    var s1 := Run(c, s, opening);
    hide Next, Safe, Ordered, Increasing, DistinctIds, ValidConfig, UniqueKeys, Loop, Run, Committed, Spool.ListSpec,
         CalmExchange, Opened;
    assert s1.link == Online([], Quiet) && s1.puts == s.puts && s1.acked == s.acked;
    RunSafe(c, s, opening);
    RunOrdered(c, s, opening);
    var trail := Loop(c, s1, script).0;
    LoopAcknowledges(c, s1, script);
    LoopNoPuts(c, s1, script);
    NoPutsKeep(c, s1, trail);
    RunConcat(c, s, opening, trail);
    RunSafe(c, s1, trail);
    RunOrdered(c, s1, trail);
    AckedBound(Run(c, s1, trail));
    Delivered(c, Run(c, s1, trail));
  }

  lemma AckedBound(s: State)
    requires Ordered(s)
    ensures s.acked <= |s.puts|
  {
  }

  /** After every run, however it went: recovering and one fault-free connection deliver everything ever queued. */
  lemma EverythingIsDelivered(c: Config, max: int, steps: seq<Step>, now: int, script: seq<Exchange>)
    requires ValidConfig(c) && UniqueKeys(c)
    requires Increasing(Run(c, Initial(max), steps).puts) && DistinctIds(Run(c, Initial(max), steps).puts)
    requires Enough(c, Run(c, Initial(max), steps), script)
    ensures var s := Run(c, Initial(max), steps);
            var s1 := Run(c, s, Recovery(s));
            s1.link == Offline
            && var end := Run(c, s1, Connection(c, s1, now, script));
            && end.puts == s.puts && end.acked == |end.commits| == |end.puts|
            && (forall p :: p in end.puts ==> Committed(c, end.db, p.id))
            && Spool.ListSpec(end.disk.dir) == Spool.Listed([])
  {
    InitialSafe(c, max);
    InitialOrdered(max);
    hide Safe, Ordered, Run, Next, ValidConfig, UniqueKeys, CalmExchange, Spool.ListSpec, Committed, Increasing,
         DistinctIds, Recovery, Connection;
    RunSafe(c, Initial(max), steps);
    RunOrdered(c, Initial(max), steps);
    var s := Run(c, Initial(max), steps);
    Recovers(c, s);
    RunSafe(c, s, Recovery(s));
    RunOrdered(c, s, Recovery(s));
    FaultFreeDelivers(c, Run(c, s, Recovery(s)), now, script);
  }

  // --------------------------------------------------------------- the client

  class Client {
    const c: Config
    const spool: Spool.Spool
    const server: Server
    ghost var link: Link
    ghost var orphans: set<Spool.Record>
    ghost var puts: seq<SpoolLaws.Item>
    ghost var acked: nat
    ghost var commits: seq<Str>

    constructor (c: Config, spool: Spool.Spool, server: Server)
      requires server.store.env == c.env && server.decode == c.decode
      ensures Valid() && this.spool == spool && this.server == server && this.c == c
      ensures State() == Pipeline.State(spool.State(), Offline, {}, server.store.State(), [], 0, [])
    {
      this.c, this.spool, this.server := c, spool, server;
      link, orphans, puts, acked, commits := Offline, {}, [], 0, [];
    }

    ghost predicate Valid()
      reads this
    {
      server.store.env == c.env && server.decode == c.decode
    }

    ghost function State(): State
      reads this, spool, server.store
    {
      Pipeline.State(spool.State(), link, orphans, server.store.State(), puts, acked, commits)
    }

    method ReadDir(dir: Spool.Directory) returns (names: seq<string>)
      ensures Spool.IsListing(names, dir)
    {
      names := SortNames(dir.Keys);
    }

    /** Send, Recv and Ack for the head of the batch. */
    method Offer(r: Spool.Record, x: Exchange) returns (end: End, ghost trail: seq<Step>)
      requires Valid()
      requires link.Online? && link.batch != [] && link.batch[0] == r && link.wire == Quiet
      requires x.Exchanged? ==> NewIds(c.env, x.m)
      modifies this, spool, server.store
      ensures (trail, end) == OfferTrail(c, old(State()), x)
      ensures State() == Run(c, old(State()), trail)
      ensures link == if end == Acked then Online(old(link.batch)[1..], Quiet) else Offline
      ensures end != Acked ==> spool.State() == old(spool.State())
    {
      OfferRuns(c, State(), x);
      ghost var s0 := State();
      hide Run, Next, FreshPaths, Handle, Spool.AckWith, SortedNames, NewIds, Spool.FirstMatch;
      if !x.Exchanged? {
        link, orphans := Offline, if x == LostInFlight then orphans + {r} else orphans;
        return StreamError, if x == LostInFlight then [Step.Send, Break] else [Break];
      }
      ghost var rest := link.batch[1..];
      var reply := Transmit(r, x.m);
      end := Judge(r, x, reply);
      if end == Acked {
        var names := ReadDir(spool.dir);
        Spool.ListingUnique(names, spool.dir);
        var removed := spool.Ack(r.id, names, x.dirFails, x.removeFails);
        if !removed { end := SpoolError; }
      }
      trail := OfferTrail(c, s0, x).0;
      hide OfferTrail;
      if end == Acked {
        link, acked := Online(rest, Quiet), acked + 1;
      } else {
        link := Offline;
      }
    }

    /** The checks on a reply. */
    method Judge(r: Spool.Record, x: Exchange, reply: Reply) returns (end: End)
      requires x.Exchanged?
      ensures end == if reply == Silence || x.ackLost then StreamError
                     else if reply.ack.messageId != r.id then Mismatch
                     else if !reply.ack.Accepted() then Refused(reply.ack.refusal.value) else Acked
    {
      if reply == Silence || x.ackLost { return StreamError; }
      if reply.ack.messageId != r.id { return Mismatch; }
      if !reply.ack.Accepted() { return Refused(reply.ack.refusal.value); }
      return Acked;
    }

    /** One heartbeat and its acknowledgement. */
    method Beat(x: Exchange) returns (end: End, ghost trail: seq<Step>)
      requires Valid() && link == Online([], Quiet)
      requires x.Exchanged? ==> NewIds(c.env, x.m)
      modifies this, server.store
      ensures (trail, end) == BeatTrail(c, old(State()), x)
      ensures State() == Run(c, old(State()), trail)
      ensures link == if end == Acked then Online([], Quiet) else Offline
    {
      hide Next, FreshPaths, Handle;
      ghost var s0 := State();
      NextOnline(c, s0);
      end, trail := StreamError, [Break];
      if x.Exchanged? {
        NextHeartbeat(c, s0, x.id, x.m);
        var reply := server.HandleOne(c.sensor, Envelope(VERSION, c.sensor, x.id, "", true), x.m);
        NextOnline(c, State());
        RunTwo(c, s0, Step.Heartbeat(x.id, x.m), Break);
        if !x.ackLost && reply.Reply? && reply.ack.messageId == x.id && reply.ack.Accepted() {
          return Acked, [Step.Heartbeat(x.id, x.m)];
        }
        trail := [Step.Heartbeat(x.id, x.m), Break];
        if !x.ackLost && reply.Reply? {
          end := if reply.ack.messageId != x.id then Mismatch else Refused(reply.ack.refusal.value);
        }
      }
      RunTwo(c, s0, Break, Break);
      link := Offline;
    }

    /** The records of one listing, in turn. */
    method OfferAll(records: seq<Spool.Record>, script: seq<Exchange>, start: nat)
      returns (end: End, at: nat, ghost trail: seq<Step>)
      requires Valid() && link == Online(records, Quiet) && records != [] && start < |script|
      requires forall x :: x in script && x.Exchanged? ==> NewIds(c.env, x.m)
      modifies this, spool, server.store
      ensures State() == Run(c, old(State()), trail)
      ensures start < at <= |script|
      ensures link == if end == Acked then Online([], Quiet) else Offline
      ensures Loop(c, old(State()), script[start..])
           == if end == Acked then Prefixed(trail, Loop(c, State(), script[at..])) else (trail, end)
    {
      hide Run, Next, NewIds, OfferTrail, Loop;
      ghost var s0 := State();
      ghost var whole := Loop(c, s0, script[start..]);
      at, trail, end := start, [], Acked;
      RunNone(c, s0);
      PrefixedNone(whole);
      var i := 0;
      while i < |records| && at < |script|
        invariant 0 <= i <= |records| && at == start + i <= |script| && Valid() && end == Acked
        invariant link == Online(records[i..], Quiet) && State() == Run(c, s0, trail)
        invariant whole == Prefixed(trail, Loop(c, State(), script[at..]))
        decreases |records| - i
      {
        ghost var more;
        ghost var s1 := State();
        assert records[i..][0] == records[i] && records[i..][1..] == records[i + 1..];
        LoopOffers(c, s1, script, at);
        end, more := Offer(records[i], script[at]);
        RunConcat(c, s0, trail, more);
        if end == Acked { PrefixedTwice(trail, more, Loop(c, State(), script[at + 1..])); }
        trail, at, i := trail + more, at + 1, i + 1;
        if end != Acked { return; }
      }
      if i < |records| {
        NextOnline(c, State());
        RunExtend(c, s0, trail, Break);
        LoopEnds(c, State(), script, at);
        link := Offline;
        end, trail := Cancelled, trail + [Break];
      }
    }

    /**
     One connection: list the queue, offer each record in turn, until an error or the end of the script.
     `taken` is when the controller took the stream, if it did.
     */
    method RunOnce(taken: Option<int>, script: seq<Exchange>) returns (end: End, ghost trail: seq<Step>)
      requires Valid() && link == Offline
      requires taken == None ==> forall x :: x in script ==> !x.Exchanged?
      requires forall x :: x in script && x.Exchanged? ==> NewIds(c.env, x.m)
      modifies this, spool, server.store
      ensures State() == Run(c, old(State()), trail)
      ensures link == Offline && end != Acked
      ensures var opening := if taken.Some? then [Connect, StreamOpened(taken.value)] else [Connect];
              var s1 := Run(c, old(State()), opening);
              && s1.link == Online([], Quiet)
              && (trail, end) == if taken == None || Touchable(c.sensor) then Prefixed(opening, Loop(c, s1, script))
                else (opening + [Break], StreamError)
      ensures taken.Some? && Touchable(c.sensor) ==> trail == Connection(c, old(State()), taken.value, script)
    {
      hide Run, Next, NewIds, Touchable, Opened, Loop, BeatTrail;
      ghost var s0 := State();
      var open;
      open, trail := Dial(taken);
      if !open { return StreamError, trail; }
      ghost var opening, s1 := trail, State();
      ghost var whole := Loop(c, s1, script);
      var at := 0;
      ghost var past: seq<Step> := [];
      RunNone(c, s1);
      PrefixedNone(whole);
      assert script[0..] == script && opening + past == opening;
      while at < |script|
        invariant 0 <= at <= |script| && Valid()
        invariant link == Online([], Quiet) && State() == Run(c, s1, past)
        invariant whole == Prefixed(past, Loop(c, State(), script[at..]))
      {
        ghost var more;
        end, at, more := ListAndSend(script, at);
        RunConcat(c, s1, past, more);
        if end == Acked { PrefixedTwice(past, more, Loop(c, State(), script[at..])); }
        past := past + more;
        if end != Acked {
          RunConcat(c, s0, opening, past);
          return end, opening + past;
        }
      }
      NextOnline(c, State());
      LoopEnds(c, State(), script, at);
      RunExtend(c, s1, past, Break);
      link := Offline;
      past := past + [Break];
      RunConcat(c, s0, opening, past);
      return Cancelled, opening + past;
    }

    /** One listing of the queue, and its records, or a heartbeat if there are none. */
    method ListAndSend(script: seq<Exchange>, start: nat) returns (end: End, at: nat, ghost trail: seq<Step>)
      requires Valid() && link == Online([], Quiet) && start < |script|
      requires forall x :: x in script && x.Exchanged? ==> NewIds(c.env, x.m)
      modifies this, spool, server.store
      ensures State() == Run(c, old(State()), trail)
      ensures start <= at <= |script| && (end == Acked ==> start < at)
      ensures link == if end == Acked then Online([], Quiet) else Offline
      ensures Loop(c, old(State()), script[start..])
           == if end == Acked then Prefixed(trail, Loop(c, State(), script[at..])) else (trail, end)
    {
      hide Run, Next, NewIds, Loop, BeatTrail;
      ghost var s0 := State();
      NextQueue(c, s0);
      RunTwo(c, s0, Step.List, Step.List);
      LoopLists(c, s0, script, start);
      var names := ReadDir(spool.dir);
      Spool.ListingUnique(names, spool.dir);
      var listing := spool.List(names, false, _ => false);
      Spool.ListReadingIff(spool.dir, names, _ => false);
      link := if listing.Listed? then Online(listing.records, Quiet) else Offline;
      at, trail := start, [Step.List];
      ghost var steps;
      if !listing.Listed? {
        end := SpoolError;
      } else if listing.records == [] {
        end, steps := Beat(script[at]);
        RunConcat(c, s0, trail, steps);
        trail, at := trail + steps, at + 1;
      } else {
        end, at, steps := OfferAll(listing.records, script, at);
        RunConcat(c, s0, trail, steps);
        if end == Acked { PrefixedTwice(trail, steps, Loop(c, State(), script[at..])); }
        trail := trail + steps;
      }
    }

    /** Connect; if the controller takes the stream it touches the sensor first, and may refuse it. */
    method Dial(taken: Option<int>) returns (open: bool, ghost trail: seq<Step>)
      requires Valid() && link == Offline
      modifies this`link, server.store
      ensures var opening := if taken.Some? then [Connect, StreamOpened(taken.value)] else [Connect];
              && Run(c, old(State()), opening).link == Online([], Quiet)
              && open == (taken == None || Touchable(c.sensor)) && trail == if open then opening else opening + [Break]
      ensures State() == Run(c, old(State()), trail) && link == if open then Online([], Quiet) else Offline
    {
      hide Run, Next, Touchable, Opened;
      ghost var s0 := State();
      NextQueue(c, s0);
      RunTwo(c, s0, Connect, Connect);
      link, trail, open := Online([], Quiet), [Connect], true;
      if taken.Some? {
        NextOpened(c, State(), taken.value);
        RunExtend(c, s0, trail, StreamOpened(taken.value));
        open := server.Open(c.sensor, taken.value, false);
        trail := trail + [StreamOpened(taken.value)];
        assert trail == [Connect, StreamOpened(taken.value)];
        if !open {
          NextOnline(c, State());
          RunExtend(c, s0, trail, Break);
          link, trail := Offline, trail + [Break];
        }
      }
    }

    /** The controller handles the envelope in flight. */
    method Transmit(r: Spool.Record, m: Moment) returns (reply: Reply)
      requires Valid() && NewIds(c.env, m)
      modifies this`commits, server.store
      ensures (State(), reply) == Handled(c, old(State()), r, m)
    {
      hide FreshPaths, Handle;
      NewIdsAreFresh(c, server.store.State(), AsEnvelope(c, r), m);
      hide NewIds;
      ghost var before := server.store.tables.events;
      reply := server.HandleOne(c.sensor, AsEnvelope(c, r), m);
      if r.id !in before && r.id in server.store.tables.events { commits := commits + [r.id]; }
    }
  }

  /** Where the steps of one offer lead. */
  lemma OfferRuns(c: Config, s: State, x: Exchange)
    requires s.link.Online? && s.link.batch != [] && s.link.wire == Quiet
    requires x.Exchanged? ==> NewIds(c.env, x.m)
    ensures var (trail, end) := OfferTrail(c, s, x);
            var r := s.link.batch[0];
            Run(c, s, trail)
            == match x
               case SendFails => s.(link := Offline)
               case LostInFlight => s.(link := Offline, orphans := s.orphans + {r})
               case Exchanged(_, m, _, _, _) =>
                 var after := Handled(c, s, r, m).0;
                 if end == Acked then after.(link := Online(s.link.batch[1..], Quiet),
                   disk := Spool.AckStep(s.disk, r.id), acked := s.acked + 1)
                 else after.(link := Offline)
  {
    hide Next, NewIds, Spool.AckStep, Handle;
    var r := s.link.batch[0];
    NextOnline(c, s);
    RunTwo(c, s, Break, Break);
    var s1 := Next(c, s, Step.Send);
    NextOnline(c, s1);
    if x == LostInFlight { RunTwo(c, s, Step.Send, Break); }
    if x.Exchanged? {
      var (after, reply) := Handled(c, s, r, x.m);
      NextDeliver(c, s1, x.m);
      var s2 := Next(c, s1, Deliver(x.m));
      RunTwo(c, s, Step.Send, Deliver(x.m));
      if reply != Silence {
        NextOnline(c, s2);
        NextReceive(c, s2);
        RunExtend(c, s, [Step.Send, Deliver(x.m)], Break);
        RunExtend(c, s, [Step.Send, Deliver(x.m)], Step.Receive);
        assert [Step.Send, Deliver(x.m)] + [Step.Receive] == Round(x.m);
        assert [Step.Send, Deliver(x.m)] + [Break] == [Step.Send, Deliver(x.m), Break];
      }
    }
  }

  /** The cases of Loop, over an index into the script. */
  lemma LoopOffers(c: Config, s: State, script: seq<Exchange>, at: nat)
    requires s.link.Online? && s.link.wire == Quiet && s.link.batch != [] && at < |script|
    ensures var (head, end) := OfferTrail(c, s, script[at]);
            var next := Run(c, s, head);
            Loop(c, s, script[at..])
            == if end != Acked || !(next.link.Online? && next.link.wire == Quiet) then (head, end)
                else Prefixed(head, Loop(c, next, script[at + 1..]))
  {
    hide Run, OfferTrail;
    assert script[at..][0] == script[at] && script[at..][1..] == script[at + 1..];
  }

  lemma LoopLists(c: Config, s: State, script: seq<Exchange>, at: nat)
    requires s.link == Online([], Quiet) && at < |script|
    ensures var listed := Next(c, s, Step.List);
            Loop(c, s, script[at..])
            == if !(listed.link.Online? && listed.link.wire == Quiet) then ([Step.List], SpoolError)
               else if listed.link.batch != [] then Prefixed([Step.List], Loop(c, listed, script[at..]))
               else
                 var (head, end) := BeatTrail(c, listed, script[at]);
                 var next := Run(c, listed, head);
                 if end != Acked || !(next.link.Online? && next.link.wire == Quiet) then ([Step.List] + head, end)
                 else Prefixed([Step.List] + head, Loop(c, next, script[at + 1..]))
  {
    hide Run, BeatTrail, Next;
    assert script[at..][0] == script[at] && script[at..][1..] == script[at + 1..];
  }

  lemma LoopEnds(c: Config, s: State, script: seq<Exchange>, at: nat)
    requires s.link.Online? && s.link.wire == Quiet && at == |script|
    ensures Loop(c, s, script[at..]) == ([Break], Cancelled)
  {
    assert script[at..] == [];
  }
}
