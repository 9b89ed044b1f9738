/** What the queue promises over any run of Put, Ack, List and reopening. */
module SpoolLaws {
  import opened Text
  import opened Spool
  import Tally

  // ----------------------------------------------------------- accounting

  ghost function RecSizes(dir: Directory): map<string, int> {
    map n | n in dir && IsRec(n) :: dir[n].Size()
  }

  lemma TotalPut(dir: Directory, name: string, file: File)
    ensures Total(dir[name := file])
         == Total(dir) + (if IsRec(name) then file.Size() - (if name in dir then dir[name].Size() else 0) else 0)
  {
    hide HasSuffix;
    var after := RecSizes(dir[name := file]);
    if IsRec(name) {
      Tally.SumPut(RecSizes(dir), name, file.Size());
      assert after == RecSizes(dir)[name := file.Size()];
    } else {
      assert after == RecSizes(dir);
    }
  }

  lemma TotalRemove(dir: Directory, name: string)
    requires name in dir
    ensures Total(dir - {name}) == Total(dir) - if IsRec(name) then dir[name].Size() else 0
  {
    hide HasSuffix;
    if IsRec(name) {
      Tally.SumRemove(RecSizes(dir), name);
      assert RecSizes(dir - {name}) == RecSizes(dir) - {name};
    } else {
      assert RecSizes(dir - {name}) == RecSizes(dir);
    }
  }

  lemma TotalDropTmp(dir: Directory, name: string)
    ensures Total(dir - {TmpName(name)}) == Total(dir)
  {
    TmpIsNotRec(name);
    if TmpName(name) in dir {
      TotalRemove(dir, TmpName(name));
    } else {
      assert dir - {TmpName(name)} == dir;
    }
  }

  ghost predicate SameRecords(a: Directory, b: Directory) {
    forall n | IsRec(n) :: (n in a <==> n in b) && (n in a ==> a[n] == b[n])
  }

  /** A Put that is not stored leaves every record as it was; a full queue changes nothing. */
  lemma PutRefused(d: Disk, id: Str, data: Str, stamp: Nanos, fault: PutFault)
    ensures var (after, r) := PutStep(d, id, data, stamp, fault);
            && (r == Full <==> fault != RandFails && d.used + |data| + 28 > d.max)
            && (r == Stored <==> fault == NoFault && d.used + |data| + 28 <= d.max)
            && (r == Full ==> after == d)
            && (r == Failed ==> after.used == d.used && after.max == d.max && SameRecords(after.dir, d.dir))
  {
    TmpIsNotRec(RecName(stamp, id));
  }

  /** The accounting survives a stored Put exactly when no record with bytes has its name already. */
  lemma PutAccounting(d: Disk, id: Str, data: Str, stamp: Nanos, fault: PutFault)
    requires Accounted(d)
    ensures var (after, r) := PutStep(d, id, data, stamp, fault);
            && (r != Stored ==> Accounted(after))
            && (r == Stored ==> after.used <= after.max)
            && (r == Stored ==> (Accounted(after) <==>
              (RecName(stamp, id) in d.dir ==> d.dir[RecName(stamp, id)].Size() == 0)))
  {
    hide HasSuffix, RecName, TmpName, Total, Tally.Sum;
    var name, file := RecName(stamp, id), Sealed(id, data);
    NameRoundTrip(stamp, id);
    TmpIsNotRec(name);
    TotalDropTmp(d.dir, name);
    TotalPut(d.dir - {TmpName(name)}, name, file);
    match fault {
      case WriteFails(Some(n)) => TotalPut(d.dir, TmpName(name), Damaged(n));
      case _ => TotalPut(d.dir, TmpName(name), file);
    }
  }

  lemma {:induction false} FirstMatchIn(names: seq<string>, id: Str)
    ensures match FirstMatch(names, id)
            case Some(n) => n in names && HasSuffix(n, AckSuffix(id))
            case None => forall n :: n in names ==> !HasSuffix(n, AckSuffix(id))
  {
    if names != [] && !HasSuffix(names[0], AckSuffix(id)) { FirstMatchIn(names[1..], id); }
  }

  lemma AckRemoves(d: Disk, id: Str)
    ensures var after := AckStep(d, id);
            || (after == d && forall n :: n in d.dir ==> !HasSuffix(n, AckSuffix(id)))
            || exists n :: n in d.dir && HasSuffix(n, AckSuffix(id))
                && after == Disk(d.dir - {n}, d.used - d.dir[n].Size(), d.max)
  {
    FirstMatchIn(SortedNames(d.dir.Keys), id);
  }

  lemma SuffixIsRec(n: string, id: Str)
    requires HasSuffix(n, AckSuffix(id))
    ensures IsRec(n)
  {
    var s := AckSuffix(id);
    assert s[|s| - 4..] == ".rec";
    assert n[|n| - 4..] == n[|n| - |s|..][|s| - 4..];
  }

  lemma AckAccounting(d: Disk, id: Str)
    requires Accounted(d)
    ensures Accounted(AckStep(d, id))
  {
    hide AckStep, Total, HasSuffix, AckSuffix;
    AckRemoves(d, id);
    if AckStep(d, id) != d {
      var n :| n in d.dir && HasSuffix(n, AckSuffix(id))
          && AckStep(d, id) == Disk(d.dir - {n}, d.used - d.dir[n].Size(), d.max);
      SuffixIsRec(n, id);
      TotalRemove(d.dir, n);
    }
  }

  datatype Op =
    | PutOp(id: Str, data: Str, stamp: Nanos, fault: PutFault)
    | AckOp(ack: Str)
    | ListOp
    | ReopenOp

  ghost function ApplyOp(d: Disk, op: Op): Disk {
    match op
    case PutOp(id, data, stamp, fault) => PutStep(d, id, data, stamp, fault).0
    case AckOp(id) => AckStep(d, id)
    case ListOp => d
    case ReopenOp => Reopened(d.dir, d.max)
  }

  ghost function RunOps(d: Disk, ops: seq<Op>): Disk
    decreases |ops|
  {
    if ops == [] then d else RunOps(ApplyOp(d, ops[0]), ops[1..])
  }

  /** No stored Put reuses the name of a record that is still queued. */
  ghost predicate DistinctNames(d: Disk, ops: seq<Op>)
    decreases |ops|
  {
    ops != [] ==>
      && (ops[0].PutOp? && PutStep(d, ops[0].id, ops[0].data, ops[0].stamp, ops[0].fault).1 == Stored ==>
            RecName(ops[0].stamp, ops[0].id) !in d.dir)
      && DistinctNames(ApplyOp(d, ops[0]), ops[1..])
  }

  lemma {:induction false} RunKeepsAccounts(d: Disk, ops: seq<Op>)
    requires Accounted(d) && DistinctNames(d, ops)
    ensures Accounted(RunOps(d, ops)) && RunOps(d, ops).max == d.max
    decreases |ops|
  {
    hide RecName, TmpName, HasSuffix, Total, AckStep;
    if ops != [] {
      match ops[0] {
        case PutOp(id, data, stamp, fault) => PutAccounting(d, id, data, stamp, fault);
        case AckOp(id) => AckAccounting(d, id); AckRemoves(d, id);
        case _ =>
      }
      RunKeepsAccounts(ApplyOp(d, ops[0]), ops[1..]);
    }
  }

  /** Two Puts of one ID within one nanosecond: the file is replaced, yet counted twice until reopening. */
  lemma SameNameCountsTwice(max: int, stamp: Nanos)
    requires max >= MIN_LIMIT
    ensures var put := PutOp("a", "", stamp, NoFault);
            && RunOps(Reopened(map[], max), [put, put]).used == 2 * SEAL_OVERHEAD
            && RunOps(Reopened(map[], max), [put, put, ReopenOp]).used == SEAL_OVERHEAD
  {
    hide RecName, HasSuffix;
    var put := PutOp("a", "", stamp, NoFault);
    var d0 := Reopened(map[], max);
    assert Total(map[]) == 0 by { assert RecSizes(map[]) == map[]; }
    var d1 := ApplyOp(d0, put);
    var d2 := ApplyOp(d1, put);
    PutAccounting(d0, "a", "", stamp, NoFault);
    NameRoundTrip(stamp, "a");
    TotalDropTmp(d1.dir, RecName(stamp, "a"));
    TotalPut(d1.dir - {TmpName(RecName(stamp, "a"))}, RecName(stamp, "a"), Sealed("a", ""));
    assert RecName(stamp, "a") != TmpName(RecName(stamp, "a"));
    assert [put, put][1..] == [put] && [put][1..] == [];
    assert [put, put, ReopenOp][1..] == [put, ReopenOp] && [put, ReopenOp][1..] == [ReopenOp];
    assert RunOps(d0, [put, put]) == RunOps(d1, [put]) == RunOps(d2, []) == d2;
    assert RunOps(d0, [put, put, ReopenOp]) == RunOps(d1, [put, ReopenOp]) == RunOps(d2, [ReopenOp])
             == RunOps(Reopened(d2.dir, max), []);
  }

  // ------------------------------------------------------------- contents

  /** Some queued record carries this ID and payload. */
  ghost predicate Queued(dir: Directory, id: Str, data: Str) {
    exists t: Nanos :: RecName(t, id) in dir && dir[RecName(t, id)] == Sealed(id, data)
  }

  /** Every record file was written by a completed Put. */
  ghost predicate Sound(dir: Directory) {
    forall n :: n in dir && IsRec(n) ==> IsRecord(n, dir[n])
  }

  ghost predicate IsRecord(n: string, f: File) {
    exists t: Nanos, id: Str :: n == RecName(t, id) && f.Sealed? && f.aad == id
  }

  lemma EntryOfRecord(t: Nanos, id: Str, data: Str)
    ensures Entry(RecName(t, id), Sealed(id, data)) == Listed([Record(id, data)])
  {
    NameRoundTrip(t, id);
  }

  lemma EntrySound(n: string, f: File)
    requires IsRec(n) ==> IsRecord(n, f)
    ensures Entry(n, f).Listed?
    ensures IsRec(n) ==> f.Sealed? && Entry(n, f).records == [Record(f.aad, f.data)]
    ensures !IsRec(n) ==> Entry(n, f).records == []
  {
    if IsRec(n) {
      var t: Nanos, id: Str :| n == RecName(t, id) && f.Sealed? && f.aad == id;
      EntryOfRecord(t, id, f.data);
    }
  }

  lemma {:induction false} ListFromSound(dir: Directory, names: seq<string>)
    requires Sound(dir) && forall n :: n in names ==> n in dir
    ensures ListFrom(dir, names).Listed?
    ensures forall r :: r in ListFrom(dir, names).records ==> Queued(dir, r.id, r.data)
    ensures forall n :: n in names && IsRec(n) ==>
              dir[n].Sealed? && Record(dir[n].aad, dir[n].data) in ListFrom(dir, names).records
  {
    if names != [] {
      var n := names[0];
      EntrySound(n, dir[n]);
      ListFromSound(dir, names[1..]);
      assert names == [n] + names[1..];
      if IsRec(n) {
        var t: Nanos, id: Str :| n == RecName(t, id) && dir[n].Sealed? && dir[n].aad == id;
        assert Queued(dir, id, dir[n].data);
      }
    }
  }

  /** List never fails on records that Put wrote, and returns exactly the queued ones. */
  lemma ListExact(dir: Directory)
    requires Sound(dir)
    ensures ListSpec(dir).Listed?
    ensures forall r: Record :: r in ListSpec(dir).records <==> Queued(dir, r.id, r.data)
  {
    ListFromSound(dir, SortedNames(dir.Keys));
    forall r: Record | Queued(dir, r.id, r.data)
      ensures r in ListSpec(dir).records
    {
      var t: Nanos :| RecName(t, r.id) in dir && dir[RecName(t, r.id)] == Sealed(r.id, r.data);
      NameRoundTrip(t, r.id);
    }
  }

  lemma {:induction false} ListFromIff(dir: Directory, names: seq<string>)
    requires forall n :: n in names ==> n in dir
    ensures ListFrom(dir, names).Listed? <==> forall n :: n in names ==> Entry(n, dir[n]).Listed?
  {
    hide Entry;
    if names != [] {
      ListFromIff(dir, names[1..]);
      assert names == [names[0]] + names[1..];
    }
  }

  /** The record file has an ID to read back, and opens under it. */
  predicate Opens(name: string, file: File) {
    !IsRec(name) || ParseName(name) == None || (file.Sealed? && file.aad == ParseName(name).value)
  }

  /** One file that no longer opens blocks the whole queue, and nothing else does. */
  lemma ListFailsIff(dir: Directory)
    ensures !ListSpec(dir).Listed? <==> exists n :: n in dir && !Opens(n, dir[n])
  {
    ListFromIff(dir, SortedNames(dir.Keys));
    forall n | n in dir
      ensures Entry(n, dir[n]).Listed? <==> Opens(n, dir[n])
    {
    }
    hide Entry, Opens, ListFrom;
  }

  lemma NamesDiffer(t: Nanos, id: Str, u: Nanos, other: Str)
    requires RecName(t, id) == RecName(u, other)
    ensures t == u && id == other
  {
    SuffixIsId(t, id, other);
    assert RecName(u, other) == Digits(u, 20) + AckSuffix(other);
    if t < u {
      NameOrder(t, id, u, other);
      LessIrreflexive(RecName(t, id));
    } else if u < t {
      NameOrder(u, other, t, id);
      LessIrreflexive(RecName(t, id));
    }
  }

  lemma PutContents(d: Disk, id: Str, data: Str, stamp: Nanos, fault: PutFault)
    requires Sound(d.dir)
    ensures var (after, r) := PutStep(d, id, data, stamp, fault);
            && Sound(after.dir)
            && (r == Stored ==> Queued(after.dir, id, data))
            && (forall i: Str, x: Str | (i != id || x == data) && Queued(d.dir, i, x) :: Queued(after.dir, i, x))
            && (forall i: Str, x: Str | Queued(after.dir, i, x) ::
                  Queued(d.dir, i, x) || (r == Stored && i == id && x == data))
  {
    hide RecName, HasSuffix, TmpName;
    var (after, r) := PutStep(d, id, data, stamp, fault);
    var name := RecName(stamp, id);
    TmpIsNotRec(name);
    NameRoundTrip(stamp, id);
    forall i: Str, x: Str | (i != id || x == data) && Queued(d.dir, i, x)
      ensures Queued(after.dir, i, x)
    {
      var t: Nanos :| RecName(t, i) in d.dir && d.dir[RecName(t, i)] == Sealed(i, x);
      NameRoundTrip(t, i);
      assert i != id ==> RecName(t, i) != name by { if RecName(t, i) == name { NamesDiffer(t, i, stamp, id); } }
      assert RecName(t, i) in after.dir && after.dir[RecName(t, i)] == Sealed(i, x);
    }
    forall i: Str, x: Str | Queued(after.dir, i, x)
      ensures Queued(d.dir, i, x) || (r == Stored && i == id && x == data)
    {
      var t: Nanos :| RecName(t, i) in after.dir && after.dir[RecName(t, i)] == Sealed(i, x);
      NameRoundTrip(t, i);
      if r != Stored || RecName(t, i) != name {
        assert RecName(t, i) in d.dir && d.dir[RecName(t, i)] == Sealed(i, x);
      }
    }
    forall n | n in after.dir && IsRec(n)
      ensures IsRecord(n, after.dir[n])
    {
      if n !in d.dir || after.dir[n] != d.dir[n] { assert n == RecName(stamp, id); }
    }
  }

  /** Ack removes no record of another ID, and nothing that is not a record. */
  lemma AckContents(d: Disk, id: Str)
    requires Sound(d.dir)
    ensures var after := AckStep(d, id);
            && Sound(after.dir)
            && (forall i: Str, x: Str | i != id && Queued(d.dir, i, x) :: Queued(after.dir, i, x))
            && (forall i: Str, x: Str | Queued(after.dir, i, x) :: Queued(d.dir, i, x))
  {
    var after := AckStep(d, id);
    AckRemoves(d, id);
    forall i: Str, x: Str | i != id && Queued(d.dir, i, x)
      ensures Queued(after.dir, i, x)
    {
      var t: Nanos :| RecName(t, i) in d.dir && d.dir[RecName(t, i)] == Sealed(i, x);
      SuffixIsId(t, i, id);
      assert RecName(t, i) in after.dir;
    }
    forall i: Str, x: Str | Queued(after.dir, i, x)
      ensures Queued(d.dir, i, x)
    {
      var t: Nanos :| RecName(t, i) in after.dir && after.dir[RecName(t, i)] == Sealed(i, x);
      assert RecName(t, i) in d.dir;
    }
  }

  // ---------------------------------------------------------------- order

  datatype Item = Item(stamp: Nanos, id: Str, data: Str)

  ghost predicate Increasing(q: seq<Item>) {
    forall i, j :: 0 <= i < j < |q| ==> q[i].stamp < q[j].stamp
  }

  ghost function Names(q: seq<Item>): (s: seq<string>)
    ensures |s| == |q| && forall i :: 0 <= i < |q| ==> s[i] == RecName(q[i].stamp, q[i].id)
  {
    seq(|q|, i requires 0 <= i < |q| => RecName(q[i].stamp, q[i].id))
  }

  ghost function Records(q: seq<Item>): (s: seq<Record>)
    ensures |s| == |q| && forall i :: 0 <= i < |q| ==> s[i] == Record(q[i].id, q[i].data)
  {
    seq(|q|, i requires 0 <= i < |q| => Record(q[i].id, q[i].data))
  }

  /** The record files of `dir` are exactly those of `q`. */
  ghost predicate Holds(dir: Directory, q: seq<Item>) {
    && (forall i :: 0 <= i < |q| ==> Names(q)[i] in dir && dir[Names(q)[i]] == Sealed(q[i].id, q[i].data))
    && (forall n :: n in dir && IsRec(n) ==> n in Names(q))
  }

  function OnlyRecs(names: seq<string>): (r: seq<string>)
    ensures forall n :: n in r <==> n in names && IsRec(n)
  {
    if names == [] then []
    else if IsRec(names[0]) then [names[0]] + OnlyRecs(names[1..])
    else OnlyRecs(names[1..])
  }

  lemma {:induction false} OnlyRecsSorted(names: seq<string>)
    requires Sorted(names)
    ensures Sorted(OnlyRecs(names))
  {
    hide HasSuffix, Less;
    if names != [] {
      OnlyRecsSorted(names[1..]);
      assert forall n :: n in OnlyRecs(names[1..]) ==> n in names[1..];
      assert forall n :: n in names[1..] ==> Less(names[0], n);
    }
  }

  lemma {:induction false} OnlyRecsListed(dir: Directory, names: seq<string>)
    requires Sound(dir) && forall n :: n in names ==> n in dir
    ensures ListFrom(dir, names) == ListFrom(dir, OnlyRecs(names))
  {
    if names != [] {
      var n := names[0];
      EntrySound(n, dir[n]);
      OnlyRecsListed(dir, names[1..]);
      ListFromSound(dir, names[1..]);
      assert ([n] + OnlyRecs(names[1..]))[1..] == OnlyRecs(names[1..]);
      var tail := ListFrom(dir, names[1..]).records;
      assert [] + tail == tail;
    }
  }

  lemma {:induction false} ListFromQueue(dir: Directory, q: seq<Item>)
    requires forall i :: 0 <= i < |q| ==> Names(q)[i] in dir && dir[Names(q)[i]] == Sealed(q[i].id, q[i].data)
    ensures ListFrom(dir, Names(q)) == Listed(Records(q))
  {
    hide RecName, HasSuffix, Entry, Prepend;
    if q != [] {
      EntryOfRecord(q[0].stamp, q[0].id, q[0].data);
      assert Names(q)[1..] == Names(q[1..]);
      assert ListFrom(dir, Names(q)) == Prepend([Record(q[0].id, q[0].data)], ListFrom(dir, Names(q[1..])));
      hide ListFrom;
      assert forall i :: 0 <= i < |q[1..]| ==> Names(q[1..])[i] == Names(q)[i + 1];
      ListFromQueue(dir, q[1..]);
      assert [Record(q[0].id, q[0].data)] + Records(q[1..]) == Records(q);
      PrependListed([Record(q[0].id, q[0].data)], Records(q[1..]));
    }
  }

  lemma PrependListed(a: seq<Record>, b: seq<Record>)
    ensures Prepend(a, Listed(b)) == Listed(a + b)
  {
  }

  lemma HoldsSound(dir: Directory, q: seq<Item>)
    requires Holds(dir, q)
    ensures Sound(dir)
  {
    forall n | n in dir && IsRec(n)
      ensures IsRecord(n, dir[n])
    {
      var i :| 0 <= i < |q| && Names(q)[i] == n;
      assert n == RecName(q[i].stamp, q[i].id);
    }
  }

  /** With increasing stamps, List returns the queue in the order it was Put. */
  lemma ListInPutOrder(dir: Directory, q: seq<Item>)
    requires Holds(dir, q) && Increasing(q)
    ensures ListSpec(dir) == Listed(Records(q))
  {
    HoldsSound(dir, q);
    var names := SortedNames(dir.Keys);
    OnlyRecsSorted(names);
    OnlyRecsListed(dir, names);
    forall i, j | 0 <= i < j < |q|
      ensures Less(Names(q)[i], Names(q)[j])
    {
      NameOrder(q[i].stamp, q[i].id, q[j].stamp, q[j].id);
    }
    forall n
      ensures n in OnlyRecs(names) <==> n in Names(q)
    {
      if n in Names(q) {
        var i :| 0 <= i < |q| && Names(q)[i] == n;
        NameRoundTrip(q[i].stamp, q[i].id);
      }
    }
    SortedUnique(OnlyRecs(names), Names(q));
    ListFromQueue(dir, q);
  }
}
