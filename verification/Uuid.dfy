/** NewUUIDv7: a per-process counter under a millisecond clock, printed as RFC 9562 version 7. */
module Uuid {
  import opened Text

  type Byte = c: char | c as int < 256 witness '\0'
  type Bytes = seq<Byte>

  /** The low 8*width bits of n, most significant byte first. */
  function BigEndian(n: nat, width: nat): (b: Str)
    ensures |b| == width
  {
    if width == 0 then [] else BigEndian(n / 256, width - 1) + [(n % 256) as char]
  }

  function Pow256(k: nat): (p: nat)
    ensures p > 0
  {
    if k == 0 then 1 else 256 * Pow256(k - 1)
  }

  function Value(b: Str): (v: nat)
    ensures v < Pow256(|b|)
  {
    if b == [] then 0 else 256 * Value(b[..|b| - 1]) + b[|b| - 1] as int
  }

  lemma {:induction false} BigEndianOrder(n: nat, m: nat, width: nat)
    requires n < m < Pow256(width)
    ensures Less(BigEndian(n, width), BigEndian(m, width))
  {
    var a, b := BigEndian(n, width), BigEndian(m, width);
    if n / 256 < m / 256 {
      BigEndianOrder(n / 256, m / 256, width - 1);
      LessExtend(BigEndian(n / 256, width - 1), BigEndian(m / 256, width - 1), a[width - 1..], b[width - 1..]);
    } else {
      LessAt(a, b, width - 1);
    }
  }

  /** The carry loop: add one from the last byte, dropping a carry out of the first. */
  function Increment(r: Str): (s: Str)
    ensures |s| == |r|
  {
    if r == [] then []
    else if r[|r| - 1] as int == 255 then Increment(r[..|r| - 1]) + [0 as char]
    else r[..|r| - 1] + [(r[|r| - 1] as int + 1) as char]
  }

  lemma {:induction false} IncrementValue(r: Str)
    ensures Value(Increment(r)) == if Value(r) + 1 == Pow256(|r|) then 0 else Value(r) + 1
  {
    if r != [] {
      var s := Increment(r);
      if r[|r| - 1] as int == 255 {
        IncrementValue(r[..|r| - 1]);
        assert s[..|s| - 1] == Increment(r[..|r| - 1]);
      } else {
        assert s[..|s| - 1] == r[..|r| - 1];
      }
    }
  }

  // ---------------------------------------------------------------- layout

  /** The 80 random bits with version and variant written over them. */
  function Masked(r: Str): (b: Str)
    requires |r| == 10
    ensures |b| == 10
  {
    [(r[0] as int % 16 + 0x70) as char, r[1], (r[2] as int % 64 + 0x80) as char] + r[3..]
  }

  function Layout(ms: nat, r: Str): (b: Str)
    requires |r| == 10
    ensures |b| == 16
  {
    BigEndian(ms, 6) + Masked(r)
  }

  function Format(b: Str): string
    requires |b| == 16
  {
    HexEncode(b[..4]) + ("-"
        + (HexEncode(b[4..6]) + ("-"
        + (HexEncode(b[6..8]) + ("-" + (HexEncode(b[8..10]) + ("-" + HexEncode(b[10..]))))))))
  }

  function Id(ms: nat, r: Str): string
    requires |r| == 10
  {
    Format(Layout(ms, r))
  }

  lemma {:induction false} HexOrder(a: Str, b: Str)
    requires |a| == |b| && Less(a, b)
    ensures Less(HexEncode(a), HexEncode(b))
  {
    var x, y := HexEncode(a), HexEncode(b);
    if a[0] == b[0] {
      HexOrder(a[1..], b[1..]);
      LessSamePrefix(x[..2], HexEncode(a[1..]), HexEncode(b[1..]));
      assert x == x[..2] + HexEncode(a[1..]) && y == x[..2] + HexEncode(b[1..]);
    } else if a[0] as int / 16 == b[0] as int / 16 {
      LessAt(x, y, 1);
    } else {
      LessAt(x, y, 0);
    }
  }

  /** The first section that differs decides; equal sections do not matter. */
  lemma SectionOrder(a: Str, b: Str, x: string, y: string)
    requires |a| == |b|
    ensures Less(a, b) ==> Less(HexEncode(a) + x, HexEncode(b) + y)
    ensures a == b ==> (Less(HexEncode(a) + x, HexEncode(b) + y) <==> Less(x, y))
  {
    if Less(a, b) {
      HexOrder(a, b);
      LessExtend(HexEncode(a), HexEncode(b), x, y);
    }
    if a == b { LessSamePrefix(HexEncode(a), x, y); }
  }

  lemma DashOrder(x: string, y: string)
    ensures Less("-" + x, "-" + y) <==> Less(x, y)
  {
    LessSamePrefix("-", x, y);
  }

  lemma {:induction false} SplitOrder(a: Str, b: Str, k: nat)
    requires |a| == |b| && k <= |a| && Less(a, b)
    ensures Less(a[..k], b[..k]) || (a[..k] == b[..k] && Less(a[k..], b[k..]))
  {
    if k > 0 {
      assert a[..k][1..] == a[1..][..k - 1] && b[..k][1..] == b[1..][..k - 1];
      assert a[1..][k - 1..] == a[k..] && b[1..][k - 1..] == b[k..];
      if a[0] == b[0] {
        SplitOrder(a[1..], b[1..], k - 1);
        assert a[..k] == [a[0]] + a[1..][..k - 1] && b[..k] == [b[0]] + b[1..][..k - 1];
      }
    }
  }

  /** Printing keeps the order of the bytes. */
  lemma FormatOrder(a: Str, b: Str)
    requires |a| == |b| == 16 && Less(a, b)
    ensures Less(Format(a), Format(b))
  {
    hide Less, HexEncode;
    var a1: Str, a2: Str, a3: Str, a4: Str, a5: Str := a[..4], a[4..6], a[6..8], a[8..10], a[10..];
    var b1: Str, b2: Str, b3: Str, b4: Str, b5: Str := b[..4], b[4..6], b[6..8], b[8..10], b[10..];
    SplitOrder(a, b, 4);
    if a1 == b1 && Less(a[4..], b[4..]) { SplitOrder(a[4..], b[4..], 2); }
    assert a[4..][..2] == a2 && a[4..][2..] == a[6..] && b[4..][..2] == b2 && b[4..][2..] == b[6..];
    if Less(a[6..], b[6..]) { SplitOrder(a[6..], b[6..], 2); }
    assert a[6..][..2] == a3 && a[6..][2..] == a[8..] && b[6..][..2] == b3 && b[6..][2..] == b[8..];
    if Less(a[8..], b[8..]) { SplitOrder(a[8..], b[8..], 2); }
    assert a[8..][..2] == a4 && a[8..][2..] == a5 && b[8..][..2] == b4 && b[8..][2..] == b5;
    if Less(a5, b5) { HexOrder(a5, b5); }
    var x5, y5 := HexEncode(a5), HexEncode(b5);
    var x4, y4 := HexEncode(a4) + ("-" + x5), HexEncode(b4) + ("-" + y5);
    var x3, y3 := HexEncode(a3) + ("-" + x4), HexEncode(b3) + ("-" + y4);
    var x2, y2 := HexEncode(a2) + ("-" + x3), HexEncode(b2) + ("-" + y3);
    DashOrder(x5, y5);
    SectionOrder(a4, b4, "-" + x5, "-" + y5);
    DashOrder(x4, y4);
    SectionOrder(a3, b3, "-" + x4, "-" + y4);
    DashOrder(x3, y3);
    SectionOrder(a2, b2, "-" + x3, "-" + y3);
    DashOrder(x2, y2);
    SectionOrder(a1, b1, "-" + x2, "-" + y2);
  }

  /** Version 7 and the RFC variant, whatever the counter holds. */
  lemma VersionAndVariant(ms: nat, r: Str)
    requires |r| == 10
    ensures var s := Id(ms, r);
            && |s| == 36 && s[14] == '7' && s[19] in "89ab"
            && forall i :: 0 <= i < 36 ==> (s[i] == '-' <==> i in {8, 13, 18, 23})
  {
    var b := Layout(ms, r);
    var h1, h2, h3, h4, h5 :=
        HexEncode(b[..4]), HexEncode(b[4..6]), HexEncode(b[6..8]), HexEncode(b[8..10]), HexEncode(b[10..]);
    var s := Id(ms, r);
    assert b[6..8][0] == b[6] == Masked(r)[0] && b[8..10][0] == b[8] == Masked(r)[2];
    assert s[14] == h3[0] == HexDigit(b[6] as int / 16);
    assert s[19] == h4[0] == HexDigit(b[8] as int / 16);
    assert s == h1 + "-" + h2 + "-" + h3 + "-" + h4 + "-" + h5;
    forall i | 0 <= i < 36
      ensures s[i] == '-' <==> i in {8, 13, 18, 23}
    {
      if i < 8 { assert s[i] == h1[i]; }
      else if 8 < i < 13 { assert s[i] == h2[i - 9]; }
      else if 13 < i < 18 { assert s[i] == h3[i - 14]; }
      else if 18 < i < 23 { assert s[i] == h4[i - 19]; }
      else if 23 < i { assert s[i] == h5[i - 24]; }
    }
  }

  lemma {:induction false} BigEndianValue(n: nat, width: nat)
    requires n < Pow256(width)
    ensures Value(BigEndian(n, width)) == n
  {
    if width > 0 {
      var b := BigEndian(n, width);
      assert b[..width - 1] == BigEndian(n / 256, width - 1);
      BigEndianValue(n / 256, width - 1);
    }
  }

  lemma {:induction false} HexConcat(a: Str, b: Str)
    ensures HexEncode(a) + HexEncode(b) == HexEncode(a + b)
  {
    if a == [] {
      assert a + b == b;
    } else {
      assert (a + b)[1..] == a[1..] + b;
      HexConcat(a[1..], b);
    }
  }

  /** The 32 hex digits of an ID without its dashes. */
  function Undashed(s: string): string
    requires |s| == 36
  {
    s[..8] + s[9..13] + s[14..18] + s[19..23] + s[24..]
  }

  /** An ID reads back as its millisecond and all of the counter but the six bits of version and variant. */
  lemma IdReadsBack(ms: nat, r: Str)
    requires |r| == 10 && ms < 0x1_0000_0000_0000
    ensures |Id(ms, r)| == 36
    ensures var read := HexDecode(Undashed(Id(ms, r)));
            && read.Some? && |read.value| == 16 && Value(read.value[..6]) == ms
            && read.value[6] as int % 16 == r[0] as int % 16 && read.value[7] == r[1]
            && read.value[8] as int % 64 == r[2] as int % 64 && read.value[9..] == r[3..]
  {
    hide HexEncode, HexDecode, BigEndian, Value;
    var b := Layout(ms, r);
    Pow256Of6();
    BigEndianValue(ms, 6);
    assert b[..6] == BigEndian(ms, 6) && b[6..] == Masked(r) && b[9..] == b[6..][3..];
    FormatDigits(b);
    HexRoundTrip(b);
  }

  /** Five sections of these lengths with dashes between them. */
  lemma Sections(h1: string, h2: string, h3: string, h4: string, h5: string)
    requires |h1| == 8 && |h2| == |h3| == |h4| == 4 && |h5| == 12
    ensures var s := h1 + ("-" + (h2 + ("-" + (h3 + ("-" + (h4 + ("-" + h5)))))));
            |s| == 36 && Undashed(s) == h1 + h2 + h3 + h4 + h5
  {
    var s := h1 + ("-" + (h2 + ("-" + (h3 + ("-" + (h4 + ("-" + h5)))))));
    assert s[..8] == h1;
    assert s[9..13] == h2;
    assert s[14..18] == h3;
    assert s[19..23] == h4;
    assert s[24..] == h5;
  }

  lemma HexSections(b: Str)
    requires |b| == 16
    ensures HexEncode(b[..4]) + HexEncode(b[4..6]) + HexEncode(b[6..8]) + HexEncode(b[8..10]) + HexEncode(b[10..])
         == HexEncode(b)
  {
    hide HexEncode;
    HexConcat(b[..4], b[4..6]);
    assert b[..4] + b[4..6] == b[..6];
    HexConcat(b[..6], b[6..8]);
    assert b[..6] + b[6..8] == b[..8];
    HexConcat(b[..8], b[8..10]);
    assert b[..8] + b[8..10] == b[..10];
    HexConcat(b[..10], b[10..]);
    assert b[..10] + b[10..] == b;
  }

  lemma FormatDigits(b: Str)
    requires |b| == 16
    ensures |Format(b)| == 36 && Undashed(Format(b)) == HexEncode(b)
  {
    hide HexEncode, Undashed;
    HexSections(b);
    Sections(HexEncode(b[..4]), HexEncode(b[4..6]), HexEncode(b[6..8]), HexEncode(b[8..10]), HexEncode(b[10..]));
  }

  // ------------------------------------------------------------ increments

  /**
   The increment does not show as an increase: the low 62 bits are all ones, and the carry
   stops in the two variant bits or runs through the twelve bits above them into the version.
   */
  predicate Stuck(r: Str)
    requires |r| == 10
  {
    && (forall i :: 3 <= i < 10 ==> r[i] as int == 255)
    && r[2] as int % 64 == 63
    && (r[2] as int != 255 || (r[1] as int == 255 && r[0] as int % 16 == 15))
  }

  lemma {:induction false} IncrementShape(r: Str, k: nat)
    requires k < |r| && r[k] as int != 255 && forall i :: k < i < |r| ==> r[i] as int == 255
    ensures var s := Increment(r);
            s[..k] == r[..k] && s[k] as int == r[k] as int + 1 && forall i :: k < i < |r| ==> s[i] as int == 0
  {
    if k < |r| - 1 {
      IncrementShape(r[..|r| - 1], k);
      assert r[..|r| - 1][..k] == r[..k];
      assert Increment(r)[..k] == Increment(r[..|r| - 1])[..k];
    }
  }

  lemma {:induction false} IncrementFull(r: Str)
    requires forall i :: 0 <= i < |r| ==> r[i] as int == 255
    ensures forall i :: 0 <= i < |r| ==> Increment(r)[i] as int == 0
  {
    if r != [] { IncrementFull(r[..|r| - 1]); }
  }

  lemma {:induction false} LastNotFull(r: Str) returns (k: int)
    ensures -1 <= k < |r| && (k >= 0 ==> r[k] as int != 255) && forall i :: k < i < |r| ==> r[i] as int == 255
  {
    k := |r| - 1;
    while k >= 0 && r[k] as int == 255
      invariant -1 <= k < |r| && forall i :: k < i < |r| ==> r[i] as int == 255
    {
      k := k - 1;
    }
  }

  function MaskByte(i: nat, x: nat): (y: nat)
    requires x < 256
    ensures y < 256
  {
    if i == 0 then x % 16 + 0x70 else if i == 2 then x % 64 + 0x80 else x
  }

  lemma MaskedBytes(r: Str)
    requires |r| == 10
    ensures forall i :: 0 <= i < 10 ==> Masked(r)[i] as int == MaskByte(i, r[i] as int)
  {
  }

  predicate FullBelow(i: nat, x: nat) {
    (i == 0 && x % 16 == 15) || (i == 2 && x % 64 == 63)
  }

  lemma MaskStep(i: nat, x: nat)
    requires x < 255
    ensures if FullBelow(i, x) then MaskByte(i, x + 1) < MaskByte(i, x) else MaskByte(i, x) < MaskByte(i, x + 1)
  {
  }

  lemma MaskedIncrementAt(r: Str, k: nat)
    requires |r| == 10 && k < 10 && r[k] as int != 255 && forall i :: k < i < 10 ==> r[i] as int == 255
    ensures Less(Masked(r), Masked(Increment(r))) <==> !FullBelow(k, r[k] as int)
  {
    hide Less, Increment, Masked, MaskByte, FullBelow;
    IncrementShape(r, k);
    var s := Increment(r);
    var a, b := Masked(r), Masked(s);
    MaskedBytes(r);
    MaskedBytes(s);
    MaskStep(k, r[k] as int);
    forall i | 0 <= i < k
      ensures a[i] == b[i]
    {
      assert s[i] == s[..k][i] == r[..k][i] == r[i];
    }
    assert a[..k] == b[..k];
    if FullBelow(k, r[k] as int) { LessAt(b, a, k); } else { LessAt(a, b, k); }
  }

  lemma MaskedIncrementFull(r: Str)
    requires |r| == 10 && forall i :: 0 <= i < 10 ==> r[i] as int == 255
    ensures !Less(Masked(r), Masked(Increment(r))) && Stuck(r)
  {
    hide Less, Increment, Masked;
    IncrementFull(r);
    MaskedBytes(r);
    MaskedBytes(Increment(r));
    LessAt(Masked(Increment(r)), Masked(r), 0);
  }

  lemma StuckIsFullBelow(r: Str, k: nat)
    requires |r| == 10 && k < 10 && r[k] as int != 255 && forall i :: k < i < 10 ==> r[i] as int == 255
    ensures Stuck(r) <==> FullBelow(k, r[k] as int)
  {
    if k >= 3 { assert r[k] as int != 255; }
  }

  lemma MaskedIncrement(r: Str)
    requires |r| == 10
    ensures Less(Masked(r), Masked(Increment(r))) <==> !Stuck(r)
  {
    hide Less, Increment, Masked, FullBelow, Stuck;
    var k := LastNotFull(r);
    if k < 0 {
      MaskedIncrementFull(r);
    } else {
      MaskedIncrementAt(r, k);
      StuckIsFullBelow(r, k);
    }
  }

  /** The generator's state after a call at `ms` with fresh randomness `random`. */
  function Advance(ms: nat, r: Str, at: nat, random: Str): (nat, Str)
    requires |r| == |random| == 10
    ensures |Advance(ms, r, at, random).1| == 10
  {
    if at > ms then (at, random) else (ms, Increment(r))
  }

  const MS_LIMIT := 0x1_0000_0000_0000

  /** The next ID is greater exactly when the clock moved on or the counter was not stuck. */
  lemma NextIncreasesIff(ms: nat, r: Str, at: nat, random: Str)
    requires |r| == |random| == 10 && ms < MS_LIMIT && at < MS_LIMIT
    ensures var (ms', r') := Advance(ms, r, at, random);
            Less(Id(ms, r), Id(ms', r')) <==> at > ms || !Stuck(r)
  {
    hide Less, Format, Masked, Stuck;
    Pow256Of6();
    var (ms', r') := Advance(ms, r, at, random);
    var a, b := Layout(ms, r), Layout(ms', r');
    if at > ms {
      BigEndianOrder(ms, ms', 6);
      LessExtend(BigEndian(ms, 6), BigEndian(ms', 6), Masked(r), Masked(r'));
      FormatOrder(a, b);
    } else {
      MaskedIncrement(r);
      LessSamePrefix(BigEndian(ms, 6), Masked(r), Masked(r'));
      LessTotal(Masked(r), Masked(r'));
      if Stuck(r) {
        NotGreater(ms, r, r');
      } else {
        FormatOrder(a, b);
      }
    }
  }

  /** Two calls in one millisecond whose second ID is smaller. */
  lemma StuckExample()
    ensures var r: Str := ['\0', '\0', 0x3F as char] + seq(7, _ => 0xFF as char);
            Less(Id(1, Increment(r)), Id(1, r)) && !Less(Id(1, r), Id(1, Increment(r)))
  {
    hide Less, Format, Masked;
    var r: Str := ['\0', '\0', 0x3F as char] + seq(7, _ => 0xFF as char);
    NextIncreasesIff(1, r, 1, r);
    MaskedBytes(r);
    IncrementShape(r, 2);
    var s := Increment(r);
    MaskedBytes(s);
    assert s[0] == s[..2][0] == r[..2][0] && s[1] == s[..2][1] == r[..2][1];
    assert Masked(s)[..2] == Masked(r)[..2];
    LessAt(Masked(s), Masked(r), 2);
    LessSamePrefix(BigEndian(1, 6), Masked(s), Masked(r));
    FormatOrder(Layout(1, s), Layout(1, r));
  }

  lemma NotGreater(ms: nat, r: Str, s: Str)
    requires |r| == |s| == 10 && (Masked(r) == Masked(s) || Less(Masked(s), Masked(r)))
    ensures !Less(Id(ms, r), Id(ms, s))
  {
    hide Less, Format, Masked;
    LessIrreflexive(Id(ms, r));
    if Less(Masked(s), Masked(r)) {
      LessSamePrefix(BigEndian(ms, 6), Masked(s), Masked(r));
      FormatOrder(Layout(ms, s), Layout(ms, r));
      if Less(Id(ms, r), Id(ms, s)) { LessTransitive(Id(ms, r), Id(ms, s), Id(ms, r)); }
    }
  }

  lemma Pow256Of6()
    ensures Pow256(6) == MS_LIMIT
  {
    assert Pow256(3) == 0x100_0000;
  }

  // ------------------------------------------------------------- sequences

  datatype Call = Call(at: nat, random: Str)

  predicate ValidCall(c: Call) {
    c.at < MS_LIMIT && |c.random| == 10
  }

  function Ids(ms: nat, r: Str, calls: seq<Call>): (ids: seq<string>)
    requires |r| == 10 && forall i :: 0 <= i < |calls| ==> ValidCall(calls[i])
    ensures |ids| == |calls|
    decreases |calls|
  {
    if calls == [] then []
    else
      assert ValidCall(calls[0]);
      var (ms', r') := Advance(ms, r, calls[0].at, calls[0].random);
      [Id(ms', r')] + Ids(ms', r', calls[1..])
  }

  /** No call after the first finds the clock standing still on a stuck counter. */
  ghost predicate NeverStuck(ms: nat, r: Str, calls: seq<Call>)
    requires |r| == 10 && forall i :: 0 <= i < |calls| ==> ValidCall(calls[i])
    decreases |calls|
  {
    calls != [] ==>
      assert ValidCall(calls[0]);
      var (ms', r') := Advance(ms, r, calls[0].at, calls[0].random);
      (|calls| > 1 && calls[1].at <= ms' ==> !Stuck(r')) && NeverStuck(ms', r', calls[1..])
  }

  lemma {:induction false} IdsAbove(ms: nat, r: Str, calls: seq<Call>, low: string)
    requires |r| == 10 && ms < MS_LIMIT && forall i :: 0 <= i < |calls| ==> ValidCall(calls[i])
    requires Sorted(Ids(ms, r, calls)) && (calls != [] ==> Less(low, Ids(ms, r, calls)[0]))
    ensures forall i :: 0 <= i < |calls| ==> Less(low, Ids(ms, r, calls)[i])
  {
    hide Less, Ids;
    var ids := Ids(ms, r, calls);
    forall i | 0 <= i < |calls|
      ensures Less(low, ids[i])
    {
      if i > 0 { LessTransitive(low, ids[0], ids[i]); }
    }
  }

  /** Whatever the clock does, successive IDs increase unless a counter was stuck. */
  lemma {:induction false} IdsIncrease(ms: nat, r: Str, calls: seq<Call>)
    requires |r| == 10 && ms < MS_LIMIT && forall i :: 0 <= i < |calls| ==> ValidCall(calls[i])
    requires NeverStuck(ms, r, calls)
    ensures Sorted(Ids(ms, r, calls))
    decreases |calls|
  {
    hide Less, Id, Stuck, Increment;
    if calls != [] {
      var (ms', r') := Advance(ms, r, calls[0].at, calls[0].random);
      assert forall i :: 0 <= i < |calls[1..]| ==> calls[1..][i] == calls[i + 1];
      IdsIncrease(ms', r', calls[1..]);
      if |calls| > 1 {
        NextIncreasesIff(ms', r', calls[1].at, calls[1].random);
        IdsAbove(ms', r', calls[1..], Id(ms', r'));
      }
    }
  }

  /** The bytes after i are done, those up to i are as they were. */
  ghost predicate Carrying(r: Str, b: Str, i: int) {
    && |b| == |r| && -1 <= i < |r|
    && b[..i + 1] == r[..i + 1] && Increment(r) == Increment(r[..i + 1]) + b[i + 1..]
  }

  lemma CarryStarts(r: Str)
    ensures Carrying(r, r, |r| - 1)
  {
    assert r[..|r|] == r && Increment(r) + [] == Increment(r);
  }

  lemma CarryStops(r: Str, b: Str, i: nat)
    requires Carrying(r, b, i) && b[i] as int != 255
    ensures b[i := (b[i] as int + 1) as char] == Increment(r)
  {
    var head := r[..i + 1];
    assert head[..i] == r[..i] == b[..i] && head[i] == b[i];
    assert Increment(head) == head[..i] + [(head[i] as int + 1) as char];
    hide Increment;
    assert b == b[..i] + [b[i]] + b[i + 1..];
  }

  lemma CarryGoesOn(r: Str, b: Str, i: nat)
    requires Carrying(r, b, i) && b[i] as int == 255
    ensures Carrying(r, b[i := '\0'], i - 1)
  {
    var head := r[..i + 1];
    assert head[..i] == r[..i] == b[..i] && head[i] == b[i];
    assert Increment(head) == Increment(r[..i]) + ['\0'];
    hide Increment;
    var next := b[i := '\0'];
    assert next[i..] == ['\0'] + b[i + 1..];
  }

  lemma CarryEnds(r: Str, b: Str)
    requires Carrying(r, b, -1)
    ensures b == Increment(r)
  {
    assert r[..0] == [] && b[0..] == b;
  }

  // --------------------------------------------------------------- object

  class Generator {
    var lastMS: nat
    var lastRand: array<Byte>

    constructor ()
      ensures lastMS == 0 && lastRand.Length == 10 && fresh(lastRand) && lastRand[..] == seq(10, _ => '\0')
    {
      lastMS := 0;
      lastRand := new Byte[10](_ => '\0');
    }

    /** The carry loop over the counter's bytes. */
    method Carry()
      modifies lastRand
      ensures lastRand[..] == Increment(old(lastRand[..]))
    {
      hide Carrying, Increment;
      ghost var r: Str := lastRand[..];
      var i := lastRand.Length - 1;
      CarryStarts(r);
      while i >= 0
        invariant -1 <= i < lastRand.Length && Carrying(r, lastRand[..], i)
      {
        ghost var b: Str := lastRand[..];
        if lastRand[i] as int != 255 {
          CarryStops(r, b, i);
          lastRand[i] := (lastRand[i] as int + 1) as Byte;
          assert lastRand[..] == b[i := lastRand[i]];
          return;
        }
        CarryGoesOn(r, b, i);
        lastRand[i] := '\0';
        assert lastRand[..] == b[i := '\0'];
        i := i - 1;
      }
      CarryEnds(r, lastRand[..]);
    }

    method NewUUIDv7(ms: nat, random: seq<Byte>) returns (id: string)
      requires lastRand.Length == 10 && |random| == 10
      modifies this`lastMS, lastRand
      ensures (lastMS, lastRand[..]) == Advance(old(lastMS), old(lastRand[..]), ms, random)
      ensures id == Id(lastMS, lastRand[..])
      ensures ms > old(lastMS) ==> lastMS == ms && lastRand[..] == random
      ensures ms <= old(lastMS) ==>
                && lastMS == old(lastMS)
                && var (before, limit) := (Value(old(lastRand[..])), Pow256(10));
                   Value(lastRand[..]) == if before + 1 == limit then 0 else before + 1
    {
      IncrementValue(lastRand[..]);
      hide Id, Increment, Value, Pow256;
      if ms > lastMS {
        lastMS := ms;
        forall i | 0 <= i < 10 { lastRand[i] := random[i]; }
        assert lastRand[..] == random;
      } else {
        Carry();
      }
      id := Id(lastMS, lastRand[..]);
    }
  }
}
