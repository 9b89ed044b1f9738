/** With increasing stamps and one Put per event, the controller first commits in Put order. */
module PipelineOrder {
  import opened Text
  import opened Model
  import opened Spool
  import opened SpoolLaws
  import opened EventStore
  import opened Transport
  import opened Pipeline

  ghost predicate DistinctIds(q: seq<Item>) {
    forall i, j :: 0 <= i < j < |q| ==> q[i].id != q[j].id
  }

  predicate At(puts: seq<Item>, r: Record, j: nat) {
    j < |puts| && r == Record(puts[j].id, puts[j].data)
  }

  /** Committed events are a prefix of the puts, and the queue is the rest after the acknowledged ones. */
  ghost predicate LogsAgree(s: State) {
    && s.acked <= |s.commits| <= |s.puts|
    && (forall i :: 0 <= i < |s.commits| ==> s.commits[i] == s.puts[i].id)
    && Holds(s.disk.dir, s.puts[s.acked..])
  }

  /** Nothing in flight is more than one ahead of the commits. */
  ghost predicate FlightsAgree(s: State) {
    && (forall r :: r in s.orphans ==> exists j: nat :: At(s.puts, r, j) && j <= |s.commits|)
    && (s.link.Online? ==>
          && s.acked + |s.link.batch| <= |s.puts|
          && (forall k :: 0 <= k < |s.link.batch| ==> At(s.puts, s.link.batch[k], s.acked + k))
          && (s.link.wire.Answered? && s.link.wire.ack.Accepted() ==> s.acked < |s.commits|))
  }

  ghost predicate Ordered(s: State) {
    LogsAgree(s) && FlightsAgree(s)
  }

  lemma HoldsPut(dir: Directory, q: seq<Item>, item: Item, d: Disk, fault: PutFault)
    requires Holds(dir, q) && d.dir == dir && Increasing(q + [item])
    ensures var (after, r) := PutStep(d, item.id, item.data, item.stamp, fault);
            Holds(after.dir, if r == Stored then q + [item] else q)
  {
    hide RecName, HasSuffix, TmpName;
    var (after, r) := PutStep(d, item.id, item.data, item.stamp, fault);
    var name := RecName(item.stamp, item.id);
    TmpIsNotRec(name);
    var q' := if r == Stored then q + [item] else q;
    forall i | 0 <= i < |q|
      ensures Names(q)[i] == Names(q')[i] != name && IsRec(Names(q)[i])
    {
      assert (q + [item])[i].stamp < (q + [item])[|q|].stamp;
      NameRoundTrip(q[i].stamp, q[i].id);
      if Names(q)[i] == name { NamesDiffer(q[i].stamp, q[i].id, item.stamp, item.id); }
    }
    forall n | n in after.dir && IsRec(n)
      ensures n in Names(q')
    {
      if r == Stored && n == name {
        assert Names(q')[|q|] == name;
      } else {
        var i :| 0 <= i < |q| && Names(q)[i] == n;
        assert Names(q')[i] == n;
      }
    }
  }

  lemma HoldsSame(a: Directory, b: Directory, q: seq<Item>)
    requires Holds(a, q) && SameRecords(a, b)
    ensures Holds(b, q)
  {
    hide RecName, HasSuffix;
    forall i | 0 <= i < |q|
      ensures Names(q)[i] in b && b[Names(q)[i]] == Sealed(q[i].id, q[i].data)
    {
      NameRoundTrip(q[i].stamp, q[i].id);
    }
  }

  /** Acknowledging the head removes the head. */
  lemma HoldsAck(d: Disk, q: seq<Item>)
    requires q != [] && Holds(d.dir, q) && DistinctIds(q)
    ensures Holds(AckStep(d, q[0].id).dir, q[1..])
  {
    hide RecName, HasSuffix, AckSuffix, AckStep;
    var id := q[0].id;
    AckRemoves(d, id);
    SuffixIsId(q[0].stamp, id, id);
    assert Names(q)[0] in d.dir;
    var n :| n in d.dir && HasSuffix(n, AckSuffix(id))
        && AckStep(d, id) == Disk(d.dir - {n}, d.used - d.dir[n].Size(), d.max);
    SuffixIsRec(n, id);
    var i :| 0 <= i < |q| && Names(q)[i] == n;
    SuffixIsId(q[i].stamp, q[i].id, id);
    assert i == 0;
    forall k | 0 <= k < |q[1..]|
      ensures Names(q[1..])[k] == Names(q)[k + 1] != n
    {
      SuffixIsId(q[k + 1].stamp, q[k + 1].id, id);
    }
    forall m | m in d.dir && IsRec(m) && m != n
      ensures m in Names(q[1..])
    {
      var j :| 0 <= j < |q| && Names(q)[j] == m;
      assert Names(q[1..])[j - 1] == m;
    }
  }

  // ------------------------------------------------------------ the steps

  lemma PutOrdered(c: Config, s: State, item: Item, fault: PutFault)
    requires Ordered(s) && DistinctIds(s.puts)
    requires Increasing(s.puts + [item]) || PutStep(s.disk, item.id, item.data, item.stamp, fault).1 != Stored
    ensures var (disk, r) := PutStep(s.disk, item.id, item.data, item.stamp, fault);
            Ordered(s.(disk := disk, puts := if r == Stored then s.puts + [item] else s.puts))
  {
    hide PutStep, Holds, SameRecords;
    var (disk, r) := PutStep(s.disk, item.id, item.data, item.stamp, fault);
    if r == Stored {
      assert (s.puts + [item])[s.acked..] == s.puts[s.acked..] + [item];
      HoldsPut(s.disk.dir, s.puts[s.acked..], item, s.disk, fault);
    } else {
      PutRefused(s.disk, item.id, item.data, item.stamp, fault);
      assert SameRecords(s.disk.dir, disk.dir) by { SameRecordsSym(s.disk.dir, disk.dir); }
      HoldsSame(s.disk.dir, disk.dir, s.puts[s.acked..]);
    }
    var after := s.(disk := disk, puts := if r == Stored then s.puts + [item] else s.puts);
    forall q: Record, j: nat | At(s.puts, q, j)
      ensures At(after.puts, q, j)
    {
    }
  }

  lemma SameRecordsSym(a: Directory, b: Directory)
    ensures SameRecords(a, a)
    ensures SameRecords(b, a) ==> SameRecords(a, b)
  {
  }

  lemma DropOrdered(c: Config, s: State, link: Link, used: int)
    requires Safe(c, s) && Ordered(s) && !link.Online?
    ensures Ordered(Drop(s, link).(disk := s.disk.(used := used)))
  {
    hide Holds, Queued, Sound, Covered, TableOk, Genuine;
    if s.link.Online? && s.link.wire.Sent? {
      assert At(s.puts, s.link.batch[0], s.acked + 0);
    }
  }

  lemma ReceiveOrdered(c: Config, s: State)
    requires Safe(c, s) && Ordered(s) && DistinctIds(s.puts) && s.link.Online? && s.link.wire.Answered?
    ensures Ordered(Next(c, s, Receive))
  {
    hide Holds, AckStep, Queued, Sound, Covered, TableOk, Genuine;
    assert At(s.puts, s.link.batch[0], s.acked + 0);
    assert s.puts[s.acked..][1..] == s.puts[s.acked + 1..];
    HoldsAck(s.disk, s.puts[s.acked..]);
    var after := Next(c, s, Receive);
    if after.link.Online? {
      forall k | 0 <= k < |after.link.batch|
        ensures At(s.puts, after.link.batch[k], after.acked + k)
      {
        assert At(s.puts, s.link.batch[k + 1], s.acked + (k + 1));
      }
    }
  }

  lemma ListOrdered(c: Config, s: State)
    requires Ordered(s) && Increasing(s.puts)
    ensures Ordered(Next(c, s, List))
  {
    hide Holds, ListSpec;
    ListInPutOrder(s.disk.dir, s.puts[s.acked..]);
    var after := Next(c, s, List);
  }

  /** Handling an envelope at most one ahead commits, if anything, the next put. */
  lemma HandledOrdered(c: Config, s: State, r: Record, j: nat, m: Moment)
    requires ValidConfig(c) && UniqueKeys(c) && Safe(c, s) && Ordered(s) && DistinctIds(s.puts)
    requires Genuine(c, r) && At(s.puts, r, j) && j <= |s.commits|
    requires FreshMoment(c.env, c.decode, s.db, AsEnvelope(c, r), m)
    ensures var (after, reply) := Handled(c, s, r, m);
            && Ordered(after)
            && (reply.Reply? && reply.ack.Accepted() ==> j < |after.commits|)
  {
    hide Holds, Handled, FreshMoment, Safe, Covered, Own, UniqueKeys;
    HandledSafe(c, s, r, m);
    HandledFrame(c, s, r, m);
    var (after, reply) := Handled(c, s, r, m);
    if after.commits != s.commits { NextToCommit(c, s, r, j); }
    if reply.Reply? && reply.ack.Accepted() {
      CoveredIsLogged(c, after, r.id);
      var i :| 0 <= i < |after.commits| && after.commits[i] == r.id;
      assert after.puts[i].id == after.puts[j].id;
    }
  }

  /** What is not covered yet was not committed before, so its turn is next. */
  lemma NextToCommit(c: Config, s: State, r: Record, j: nat)
    requires Safe(c, s) && LogsAgree(s) && At(s.puts, r, j) && j <= |s.commits|
    requires Own(c, r.id) && !Covered(s.db, c.catalogue[r.id])
    ensures j == |s.commits|
  {
    hide Holds, Safe, Covered;
    if j < |s.commits| {
      assert s.commits[j] == r.id;
      CommittedCovered(c, s, r.id);
    }
  }

  lemma HandledFrame(c: Config, s: State, r: Record, m: Moment)
    ensures var after := Handled(c, s, r, m).0;
            after == s.(db := after.db, commits := after.commits)
  {
  }

  lemma CommittedCovered(c: Config, s: State, id: Str)
    requires Safe(c, s) && id in s.commits
    ensures id in c.catalogue && Covered(s.db, c.catalogue[id])
  {
    hide Queued, Sound;
  }

  lemma CoveredIsLogged(c: Config, s: State, id: Str)
    requires ValidConfig(c) && UniqueKeys(c) && Safe(c, s) && Own(c, id) && Covered(s.db, c.catalogue[id])
    ensures id in s.commits
  {
    hide Queued, Sound;
    assert forall other :: other in s.db.tables.events ==> Key(s.db.tables.events[other]) == Key(c.catalogue[other]);
  }

  /** The envelope in flight carries the oldest record not yet acknowledged. */
  lemma SentIsOldest(c: Config, s: State)
    requires Safe(c, s) && Ordered(s) && s.link.Online? && s.link.wire.Sent?
    ensures Genuine(c, s.link.wire.r) && At(s.puts, s.link.wire.r, s.acked) && s.acked <= |s.commits|
  {
    hide Holds, Queued, Sound, Covered, TableOk, Genuine;
    assert At(s.puts, s.link.batch[0], s.acked + 0);
  }

  /** Losing the link, or answering on it, keeps the order. */
  lemma Rewired(s: State, ack: Ack)
    requires Ordered(s) && s.link.Online?
    ensures Ordered(s.(link := Offline))
    ensures (ack.Accepted() ==> s.acked < |s.commits|) ==> Ordered(s.(link := s.link.(wire := Answered(ack))))
  {
    hide Holds;
    assert LogsAgree(s.(link := Offline)) && LogsAgree(s.(link := s.link.(wire := Answered(ack))));
  }

  lemma DeliverOrdered(c: Config, s: State, m: Moment)
    requires ValidConfig(c) && UniqueKeys(c) && Safe(c, s) && Ordered(s) && DistinctIds(s.puts)
    ensures Ordered(Next(c, s, Deliver(m)))
  {
    hide Ordered, Safe, Handled, FreshMoment, Genuine, At, UniqueKeys, ValidConfig, DistinctIds;
    if s.link.Online? && s.link.wire.Sent? && FreshMoment(c.env, c.decode, s.db, AsEnvelope(c, s.link.wire.r), m) {
      SentIsOldest(c, s);
      HandledOrdered(c, s, s.link.wire.r, s.acked, m);
      HandledFrame(c, s, s.link.wire.r, m);
      var (after, reply) := Handled(c, s, s.link.wire.r, m);
      Rewired(after, if reply == Silence then Ack([], None) else reply.ack);
    }
  }

  lemma OrphanOrdered(c: Config, s: State, r: Record, m: Moment)
    requires ValidConfig(c) && UniqueKeys(c) && Safe(c, s) && Ordered(s) && DistinctIds(s.puts) && r in s.orphans
    requires FreshMoment(c.env, c.decode, s.db, AsEnvelope(c, r), m)
    ensures Ordered(Handled(c, s, r, m).0.(orphans := s.orphans - {r}))
  {
    hide Holds, Handled, FreshMoment, Queued, Sound, Covered, TableOk, UniqueKeys, ValidConfig, Own;
    var j: nat :| At(s.puts, r, j) && j <= |s.commits|;
    HandledOrdered(c, s, r, j, m);
    hide Safe, DistinctIds;
    HandledFrame(c, s, r, m);
    FewerOrphans(Handled(c, s, r, m).0, r);
  }

  lemma FewerOrphans(s: State, r: Record)
    requires Ordered(s)
    ensures Ordered(s.(orphans := s.orphans - {r}))
  {
    hide Holds;
  }

  lemma FrameOrdered(c: Config, s: State, step: Step)
    requires Safe(c, s) && Ordered(s)
    requires step.Restart? || step.Connect? || step.Send? || step.LoseOrphan? || step.Heartbeat? || step.StreamOpened?
               || step.OtherWriter?
    ensures Ordered(Next(c, s, step))
  {
    hide Holds, Total, Queued, Sound, Covered, TableOk, InsertStep, FreshPaths, Genuine;
    var after := Next(c, s, step);
  }

  lemma NextOrdered(c: Config, s: State, step: Step)
    requires ValidConfig(c) && UniqueKeys(c) && Safe(c, s) && Ordered(s)
    requires Increasing(Next(c, s, step).puts) && DistinctIds(Next(c, s, step).puts)
    ensures Ordered(Next(c, s, step))
  {
    hide Safe, Ordered, PutStep, Handled, InsertStep, ListSpec, FreshMoment, FreshPaths, Covered;
    PutsGrow(c, s, [step]);
    assert [step][1..] == [];
    PrefixGood(s.puts, Next(c, s, step).puts);
    match step {
      case Put(e, stamp, fault) =>
        if s.link != Down && Emits(c, e) { PutOrdered(c, s, Item(stamp, e.id, c.encode(e)), fault); }
      case PutThenDie(e, stamp, renamed) =>
        if s.link != Down && Emits(c, e) {
          var fault := if renamed then PutFault.NoFault else RenameFails;
          PutOrdered(c, s, Item(stamp, e.id, c.encode(e)), fault);
          PutSafe(c, s, e, stamp, fault);
          var (disk, r) := PutStep(s.disk, e.id, c.encode(e), stamp, fault);
          DropOrdered(c, s.(disk := disk,
              puts := if r == Stored then s.puts + [Item(stamp, e.id, c.encode(e))] else s.puts), Down, 0);
        }
      case Die => DropOrdered(c, s, Down, 0);
      case Break => DropOrdered(c, s, Offline, s.disk.used);
      case List => ListOrdered(c, s);
      case Deliver(m) => DeliverOrdered(c, s, m);
      case DeliverOrphan(r, m) =>
        if r in s.orphans && FreshMoment(c.env, c.decode, s.db, AsEnvelope(c, r), m) { OrphanOrdered(c, s, r, m); }
      case Receive => if s.link.Online? && s.link.wire.Answered? { ReceiveOrdered(c, s); }
      case _ => FrameOrdered(c, s, step);
    }
  }

  // -------------------------------------------------------------- whole runs

  lemma PrefixGood(a: seq<Item>, b: seq<Item>)
    requires a <= b
    ensures Increasing(b) ==> Increasing(a)
    ensures DistinctIds(b) ==> DistinctIds(a)
  {
    assert forall i :: 0 <= i < |a| ==> a[i] == b[i];
  }

  lemma {:induction false} PutsGrow(c: Config, s: State, steps: seq<Step>)
    ensures s.puts <= Run(c, s, steps).puts
    decreases |steps|
  {
    hide PutStep, Handled, InsertStep, ListSpec, FreshMoment, FreshPaths, AckStep, Total;
    if steps != [] {
      PutsGrow(c, Next(c, s, steps[0]), steps[1..]);
      match steps[0] {
        case Deliver(m) => if s.link.Online? && s.link.wire.Sent? { HandledFrame(c, s, s.link.wire.r, m); }
        case DeliverOrphan(r, m) => HandledFrame(c, s, r, m);
        case _ =>
      }
    }
  }

  lemma {:induction false} RunOrdered(c: Config, s: State, steps: seq<Step>)
    requires ValidConfig(c) && UniqueKeys(c) && Safe(c, s) && Ordered(s)
    requires Increasing(Run(c, s, steps).puts) && DistinctIds(Run(c, s, steps).puts)
    ensures Ordered(Run(c, s, steps))
    decreases |steps|
  {
    hide Safe, Ordered, Next;
    if steps != [] {
      var next := Next(c, s, steps[0]);
      PutsGrow(c, next, steps[1..]);
      PrefixGood(next.puts, Run(c, next, steps[1..]).puts);
      NextSafe(c, s, steps[0]);
      NextOrdered(c, s, steps[0]);
      RunOrdered(c, next, steps[1..]);
    }
  }

  /**
   Over every run whose stamps increase and whose events are put once: the commits are a prefix of
   the puts, in order, and the queue holds exactly the puts not yet acknowledged.
   */
  lemma CommitsFollowPuts(c: Config, max: int, steps: seq<Step>)
    requires ValidConfig(c) && UniqueKeys(c)
    requires Increasing(Run(c, Initial(max), steps).puts) && DistinctIds(Run(c, Initial(max), steps).puts)
    ensures var s := Run(c, Initial(max), steps);
            && s.acked <= |s.commits| <= |s.puts|
            && (forall i :: 0 <= i < |s.commits| ==> s.commits[i] == s.puts[i].id)
            && ListSpec(s.disk.dir) == Listed(Records(s.puts[s.acked..]))
  {
    hide Safe, Next, ListSpec;
    InitialSafe(c, max);
    RunOrdered(c, Initial(max), steps);
    var s := Run(c, Initial(max), steps);
    ListInPutOrder(s.disk.dir, s.puts[s.acked..]);
  }
}
