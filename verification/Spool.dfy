/**
 The bounded on-disk queue of a sensor. A record is one file whose name carries a
 zero-padded timestamp and the hex form of its message ID; sealing is the AEAD
 whose associated data is that ID, with a fixed 28-byte overhead.
 */
module Spool {
  import opened Text
  import Tally

  /** time.Now().UnixNano() after 1970. */
  type Nanos = n: int | 0 <= n < 0x8000_0000_0000_0000

  const SEAL_OVERHEAD := 28
  const NONCE_SIZE := 12
  const MIN_LIMIT := 0x10_0000

  /** A file's bytes: an AEAD box, or anything that no longer opens. */
  datatype File = Sealed(aad: Str, data: Str) | Damaged(size: nat) {
    function Size(): (n: nat) {
      match this
      case Sealed(_, data) => |data| + SEAL_OVERHEAD
      case Damaged(n) => n
    }
  }

  type Directory = map<string, File>

  datatype Disk = Disk(dir: Directory, used: int, max: int)

  datatype Record = Record(id: Str, data: Str)
  datatype Listing = Listed(records: seq<Record>) | Corrupt | Undecryptable | ReadError
  datatype PutFault = NoFault | RandFails | WriteFails(left: Option<nat>) | RenameFails
  datatype PutOutcome = Stored | Full | Failed

  // ------------------------------------------------------------ file names

  function RecName(stamp: Nanos, id: Str): string {
    Digits(stamp, 20) + "-" + HexEncode(id) + ".rec"
  }

  function TmpName(name: string): string {
    "." + name + ".tmp"
  }

  predicate IsRec(name: string) {
    HasSuffix(name, ".rec")
  }

  function AckSuffix(id: Str): string {
    "-" + HexEncode(id) + ".rec"
  }

  /** The ID that List reads back from a record's name. */
  function ParseName(name: string): Option<Str>
    requires IsRec(name)
  {
    var parts := Split(name[..|name| - 4], '-');
    if |parts| != 2 then None else HexDecode(parts[1])
  }

  lemma NameRoundTrip(stamp: Nanos, id: Str)
    ensures IsRec(RecName(stamp, id))
    ensures ParseName(RecName(stamp, id)) == Some(id)
  {
    var d, h := Digits(stamp, 20), HexEncode(id);
    var name := RecName(stamp, id);
    assert name == (d + ['-'] + h) + ".rec";
    assert name[..|name| - 4] == d + ['-'] + h;
    SplitAt(d, '-', h);
    SplitWhole(h, '-');
    HexRoundTrip(id);
  }

  lemma OnlyDash(stamp: Nanos, id: Str)
    ensures forall k :: 0 <= k < |RecName(stamp, id)| && RecName(stamp, id)[k] == '-' ==> k == 20
  {
    var d, h, name := Digits(stamp, 20), HexEncode(id), RecName(stamp, id);
    forall k | 0 <= k < |name| && k != 20
      ensures name[k] != '-'
    {
      if k < 20 {
        assert name[k] == d[k];
      } else if k < 21 + |h| {
        assert name[k] == h[k - 21];
      } else {
        assert name[k] == ".rec"[k - 21 - |h|];
      }
    }
  }

  /** Ack's suffix test singles out the records of one ID. */
  lemma SuffixIsId(stamp: Nanos, other: Str, id: Str)
    ensures HasSuffix(RecName(stamp, other), AckSuffix(id)) <==> other == id
  {
    hide Digits, HexEncode, HexDecode;
    var name, suffix := RecName(stamp, other), AckSuffix(id);
    var h, g := HexEncode(other), HexEncode(id);
    assert name == Digits(stamp, 20) + AckSuffix(other);
    if HasSuffix(name, suffix) {
      var dash := |name| - |suffix|;
      assert name[dash] == suffix[0] == '-';
      OnlyDash(stamp, other);
      assert h == name[21..|name| - 4] == g;
      HexRoundTrip(other);
      HexRoundTrip(id);
    }
  }

  lemma Pow10Of20()
    ensures Pow10(20) == 100000000000000000000
  {
    assert Pow10(4) == 10000;
    assert Pow10(8) == 100000000;
    assert Pow10(12) == 1000000000000;
    assert Pow10(16) == 10000000000000000;
  }

  /** Listing by name is listing by time of Put. */
  lemma NameOrder(stamp: Nanos, id: Str, later: Nanos, other: Str)
    requires stamp < later
    ensures Less(RecName(stamp, id), RecName(later, other))
  {
    hide Less, Pow10, Digits, HexEncode;
    Pow10Of20();
    DigitsOrder(stamp, later, 20);
    assert RecName(stamp, id) == Digits(stamp, 20) + AckSuffix(id);
    assert RecName(later, other) == Digits(later, 20) + AckSuffix(other);
    LessExtend(Digits(stamp, 20), Digits(later, 20), AckSuffix(id), AckSuffix(other));
  }

  lemma TmpIsNotRec(name: string)
    ensures !IsRec(TmpName(name))
  {
    var t := TmpName(name);
    assert t == "." + name + ".tmp";
    assert t[|t| - 4..] == ".tmp";
    assert ".tmp"[1] != ".rec"[1];
  }

  // ------------------------------------------------------- specifications

  /** Bytes held by records: what `used` stands for. */
  ghost function Total(dir: Directory): int {
    Tally.Sum(map n | n in dir && IsRec(n) :: dir[n].Size())
  }

  ghost function Sizes(dir: Directory, names: seq<string>): map<string, int> {
    map n | n in dir && IsRec(n) && n in names :: dir[n].Size()
  }

  lemma SizesStep(dir: Directory, names: seq<string>, i: nat)
    requires IsListing(names, dir) && i < |names|
    ensures Tally.Sum(Sizes(dir, names[..i + 1]))
         == Tally.Sum(Sizes(dir, names[..i])) + if IsRec(names[i]) then dir[names[i]].Size() else 0
  {
    LessIrreflexive(names[i]);
    SizesAdd(dir, names[..i], names[i]);
    assert names[..i + 1] == names[..i] + [names[i]];
  }

  lemma SizesAdd(dir: Directory, names: seq<string>, n: string)
    requires n in dir && n !in names
    ensures Tally.Sum(Sizes(dir, names + [n])) == Tally.Sum(Sizes(dir, names)) + if IsRec(n) then dir[n].Size() else 0
  {
    hide IsRec;
    var seen, next := Sizes(dir, names), Sizes(dir, names + [n]);
    if IsRec(n) {
      Tally.SumPut(seen, n, dir[n].Size());
      assert next == seen[n := dir[n].Size()];
    } else {
      assert next == seen;
    }
  }

  lemma SizesNone(dir: Directory)
    ensures Tally.Sum(Sizes(dir, [])) == 0
  {
    hide IsRec;
    assert Sizes(dir, []) == map[];
  }

  lemma SizesAll(dir: Directory, names: seq<string>)
    requires IsListing(names, dir)
    ensures Tally.Sum(Sizes(dir, names)) == Total(dir)
  {
    hide IsRec, Sorted;
    assert Sizes(dir, names) == map n | n in dir && IsRec(n) :: dir[n].Size();
  }

  ghost predicate Accounted(d: Disk) {
    d.used == Total(d.dir) <= d.max
  }

  function PutStep(d: Disk, id: Str, data: Str, stamp: Nanos, fault: PutFault): (Disk, PutOutcome) {
    var file := Sealed(id, data);
    var name := RecName(stamp, id);
    if fault == RandFails then (d, Failed)
    else if d.used + file.Size() > d.max then (d, Full)
    else
      match fault
      case WriteFails(None) => (d, Failed)
      case WriteFails(Some(n)) => (d.(dir := d.dir[TmpName(name) := Damaged(n)]), Failed)
      case RenameFails => (d.(dir := d.dir[TmpName(name) := file]), Failed)
      case _ => (Disk((d.dir - {TmpName(name)})[name := file], d.used + file.Size(), d.max), Stored)
  }

  function Prepend(out: seq<Record>, l: Listing): Listing {
    if l.Listed? then Listed(out + l.records) else l
  }

  lemma PrependTwice(out: seq<Record>, head: seq<Record>, l: Listing)
    ensures Prepend(out, Prepend(head, l)) == Prepend(out + head, l)
  {
    if l.Listed? { assert out + (head + l.records) == out + head + l.records; }
  }

  /** What List makes of one directory entry: skip it, keep it or fail. */
  function Entry(name: string, file: File): Listing {
    if !IsRec(name) || ParseName(name) == None then Listed([])
    else match file
      case Damaged(n) => if n < NONCE_SIZE then Corrupt else Undecryptable
      case Sealed(aad, data) => if aad == ParseName(name).value then Listed([Record(aad, data)]) else Undecryptable
  }

  function ListFrom(dir: Directory, names: seq<string>): Listing
    requires forall n :: n in names ==> n in dir
  {
    if names == [] then Listed([])
    else
      var head := Entry(names[0], dir[names[0]]);
      if head.Listed? then Prepend(head.records, ListFrom(dir, names[1..])) else head
  }

  /** The name of a record file, which List reads. */
  predicate IsRead(name: string) {
    IsRec(name) && ParseName(name).Some?
  }

  /** The same when some files cannot be read. */
  function EntryRead(name: string, file: File, unreadable: string -> bool): Listing {
    if IsRead(name) && unreadable(name) then ReadError else Entry(name, file)
  }

  function ListReading(dir: Directory, names: seq<string>, unreadable: string -> bool): Listing
    requires forall n :: n in names ==> n in dir
  {
    if names == [] then Listed([])
    else
      var head := EntryRead(names[0], dir[names[0]], unreadable);
      if head.Listed? then Prepend(head.records, ListReading(dir, names[1..], unreadable)) else head
  }

  /** A listing succeeds exactly when every record file can be read and opens, and then it is the whole one. */
  lemma {:induction false} ListReadingIff(dir: Directory, names: seq<string>, unreadable: string -> bool)
    requires forall n :: n in names ==> n in dir
    ensures ListReading(dir, names, unreadable).Listed? <==>
              ListFrom(dir, names).Listed? && forall n :: n in names && IsRead(n) ==> !unreadable(n)
    ensures (forall n :: n in names && IsRead(n) ==> !unreadable(n)) ==>
              ListReading(dir, names, unreadable) == ListFrom(dir, names)
  {
    hide Entry, IsRead;
    if names != [] {
      ListReadingIff(dir, names[1..], unreadable);
      assert forall n :: n in names <==> n == names[0] || n in names[1..];
    }
  }

  lemma ListUnroll(dir: Directory, names: seq<string>, i: nat, out: seq<Record>, unreadable: string -> bool)
    requires i < |names| && forall n :: n in names ==> n in dir
    ensures var head := EntryRead(names[i], dir[names[i]], unreadable);
            Prepend(out, ListReading(dir, names[i..], unreadable))
            == if head.Listed? then Prepend(out + head.records, ListReading(dir, names[i + 1..], unreadable)) else head
  {
    hide EntryRead;
    var head := EntryRead(names[i], dir[names[i]], unreadable);
    assert names[i..][0] == names[i] && names[i..][1..] == names[i + 1..];
    if head.Listed? { PrependTwice(out, head.records, ListReading(dir, names[i + 1..], unreadable)); }
  }

  ghost function ListSpec(dir: Directory): Listing {
    ListFrom(dir, SortedNames(dir.Keys))
  }

  function FirstMatch(names: seq<string>, id: Str): Option<string> {
    if names == [] then None
    else if HasSuffix(names[0], AckSuffix(id)) then Some(names[0])
    else FirstMatch(names[1..], id)
  }

  function AckWith(d: Disk, names: seq<string>, id: Str): Disk {
    match FirstMatch(names, id)
    case None => d
    case Some(n) => if n in d.dir then d.(dir := d.dir - {n}, used := d.used - d.dir[n].Size()) else d
  }

  ghost function AckStep(d: Disk, id: Str): Disk {
    AckWith(d, SortedNames(d.dir.Keys), id)
  }

  /** Some record file carries the ID. */
  ghost predicate Removable(d: Disk, id: Str) {
    FirstMatch(SortedNames(d.dir.Keys), id).Some?
  }

  /** What os.ReadDir returns: every entry once, by increasing name. */
  ghost predicate IsListing(names: seq<string>, dir: Directory) {
    Sorted(names) && forall n :: n in names <==> n in dir
  }

  lemma ListingUnique(names: seq<string>, dir: Directory)
    requires IsListing(names, dir)
    ensures names == SortedNames(dir.Keys)
  {
    SortedUnique(names, SortedNames(dir.Keys));
  }

  ghost function Reopened(dir: Directory, max: int): Disk {
    Disk(dir, Total(dir), max)
  }

  // --------------------------------------------------------------- object

  class Spool {
    var dir: Directory
    var used: int
    const max: int

    ghost function State(): Disk
      reads this
    {
      Disk(dir, used, max)
    }

    constructor (dir: Directory, max: int, names: seq<string>)
      requires max >= MIN_LIMIT && IsListing(names, dir)
      ensures State() == Reopened(dir, max)
    {
      this.max := max;
      this.dir := dir;
      this.used := 0;
      new;
      hide Sizes, Total, Sorted;
      SizesNone(dir);
      assert names[..0] == [];
      for i := 0 to |names|
        invariant this.dir == dir
        invariant used == Tally.Sum(Sizes(dir, names[..i]))
      {
        SizesStep(dir, names, i);
        if HasSuffix(names[i], ".rec") {
          used := used + dir[names[i]].Size();
        }
      }
      assert names[..|names|] == names;
      SizesAll(dir, names);
    }

    /**
     Open refuses a limit below one mebibyte; `fails` is an error of the directory, the key file or the
     listing `names`.
     */
    static method Open(dir: Directory, max: int, names: seq<string>, fails: bool) returns (r: Option<Spool>)
      requires IsListing(names, dir)
      ensures r == None <==> max < 1024 * 1024 || fails
      ensures r.Some? ==> fresh(r.value) && r.value.State() == Reopened(dir, max)
    {
      if max < MIN_LIMIT { return None; }
      if fails { return None; }
      var spool := new Spool(dir, max, names);
      return Some(spool);
    }

    method Put(id: Str, data: Str, stamp: Nanos, fault: PutFault) returns (r: PutOutcome)
      modifies this
      ensures (State(), r) == PutStep(old(State()), id, data, stamp, fault)
    {
      if fault == RandFails { return Failed; }
      var file := Sealed(id, data);
      if used + file.Size() > max { return Full; }
      var name := RecName(stamp, id);
      var tmp := TmpName(name);
      match fault {
        case WriteFails(left) =>
          if left.Some? { dir := dir[tmp := Damaged(left.value)]; }
          return Failed;
        case _ =>
      }
      dir := dir[tmp := file];
      if fault == RenameFails { return Failed; }
      ghost var before := old(dir);
      assert (before[tmp := file] - {tmp})[name := file] == (before - {tmp})[name := file];
      dir := (dir - {tmp})[name := file];
      used := used + file.Size();
      return Stored;
    }

    method ReadEntry(name: string, unreadable: string -> bool) returns (l: Listing)
      requires name in dir
      ensures l == EntryRead(name, dir[name], unreadable)
      ensures IsRead(name) && !unreadable(name) && dir[name].Damaged? ==>
                l == if dir[name].size < 12 then Corrupt else Undecryptable
    {
      if !IsRec(name) { return Listed([]); }
      var id := ParseName(name);
      if id == None { return Listed([]); }
      if unreadable(name) { return ReadError; }
      match dir[name] {
        case Damaged(n) => return if n < NONCE_SIZE then Corrupt else Undecryptable;
        case Sealed(aad, data) => return if aad == id.value then Listed([Record(aad, data)]) else Undecryptable;
      }
    }

    /** `dirFails` is an error of os.ReadDir, `unreadable` the files that os.ReadFile fails on. */
    method List(names: seq<string>, dirFails: bool, unreadable: string -> bool) returns (l: Listing)
      requires IsListing(names, dir)
      ensures l == if dirFails then ReadError else ListReading(dir, names, unreadable)
    {
      hide EntryRead;
      if dirFails { return ReadError; }
      var out: seq<Record> := [];
      for i := 0 to |names|
        invariant ListReading(dir, names, unreadable) == Prepend(out, ListReading(dir, names[i..], unreadable))
      {
        ListUnroll(dir, names, i, out, unreadable);
        var entry := ReadEntry(names[i], unreadable);
        if !entry.Listed? { return entry; }
        out := out + entry.records;
      }
      return Listed(out);
    }

    /** `dirFails` is an error of os.ReadDir; `removeFails` one of removing the file, if any file matches. */
    method Ack(id: Str, names: seq<string>, dirFails: bool, removeFails: bool) returns (ok: bool)
      requires IsListing(names, dir)
      modifies this
      ensures ok <==> !dirFails && (!removeFails || !FirstMatch(names, id).Some?)
      ensures State() == if ok then AckWith(old(State()), names, id) else old(State())
    {
      if dirFails { return false; }
      for i := 0 to |names|
        invariant dir == old(dir) && used == old(used)
        invariant FirstMatch(names, id) == FirstMatch(names[i..], id)
      {
        if HasSuffix(names[i], AckSuffix(id)) {
          if removeFails { return false; }
          dir, used := dir - {names[i]}, used - dir[names[i]].Size();
          return true;
        }
      }
      return true;
    }
  }
}
