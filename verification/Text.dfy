/** Byte strings as Go compares, formats and hex-encodes them. */
module Text {
  datatype Option<+T> = None | Some(value: T)

  /** A Go string or byte slice: one char per byte. */
  type Str = s: string | forall i :: 0 <= i < |s| ==> s[i] as int < 256

  // ---------------------------------------------------------------- order

  /** Go's `a < b` on strings. */
  predicate Less(a: string, b: string) {
    b != [] && (a == [] || a[0] < b[0] || (a[0] == b[0] && Less(a[1..], b[1..])))
  }

  lemma {:induction false} LessIrreflexive(a: string)
    ensures !Less(a, a)
  {
    if a != [] { LessIrreflexive(a[1..]); }
  }

  lemma {:induction false} LessTransitive(a: string, b: string, c: string)
    requires Less(a, b) && Less(b, c)
    ensures Less(a, c)
  {
    if a != [] && a[0] == b[0] == c[0] { LessTransitive(a[1..], b[1..], c[1..]); }
  }

  lemma {:induction false} LessTotal(a: string, b: string)
    ensures a == b || Less(a, b) || Less(b, a)
  {
    if a != [] && b != [] && a[0] == b[0] {
      LessTotal(a[1..], b[1..]);
      assert a == [a[0]] + a[1..] && b == [b[0]] + b[1..];
    }
  }

  /** The first differing position decides. */
  lemma {:induction false} LessAt(a: string, b: string, k: nat)
    requires k < |a| && k < |b| && a[..k] == b[..k] && a[k] < b[k]
    ensures Less(a, b) && !Less(b, a)
  {
    if k > 0 {
      assert a[0] == a[..k][0] == b[..k][0] == b[0];
      assert a[1..][..k - 1] == a[..k][1..] == b[..k][1..] == b[1..][..k - 1];
      LessAt(a[1..], b[1..], k - 1);
    }
  }

  lemma {:induction false} LessExtend(a: string, b: string, x: string, y: string)
    requires |a| == |b| && Less(a, b)
    ensures Less(a + x, b + y)
  {
    assert (a + x)[1..] == a[1..] + x && (b + y)[1..] == b[1..] + y;
    if a[0] == b[0] { LessExtend(a[1..], b[1..], x, y); }
  }

  lemma {:induction false} LessSamePrefix(p: string, a: string, b: string)
    ensures Less(p + a, p + b) == Less(a, b)
  {
    if p == [] {
      assert p + a == a && p + b == b;
    } else {
      assert (p + a)[1..] == p[1..] + a && (p + b)[1..] == p[1..] + b;
      LessSamePrefix(p[1..], a, b);
    }
  }

  // -------------------------------------------------------------- sorting

  ghost predicate Sorted(s: seq<string>) {
    forall i, j :: 0 <= i < j < |s| ==> Less(s[i], s[j])
  }

  lemma {:induction false} MinimumExists(names: set<string>)
    requires names != {}
    ensures exists m :: m in names && forall x :: x in names && x != m ==> Less(m, x)
  {
    var m :| m in names;
    var rest := names - {m};
    if rest != {} {
      MinimumExists(rest);
      var r :| r in rest && forall x :: x in rest && x != r ==> Less(r, x);
      LessTotal(m, r);
      var low := if Less(r, m) then r else m;
      forall x | x in names && x != low
        ensures Less(low, x)
      {
        assert x == m || x in rest;
        if low == m && x != r { LessTransitive(m, r, x); }
      }
    } else {
      assert forall x :: x in names ==> x == m || x in rest;
    }
  }

  ghost function Least(names: set<string>): (m: string)
    requires names != {}
    ensures m in names && forall x :: x in names && x != m ==> Less(m, x)
  {
    MinimumExists(names);
    var m :| m in names && forall x :: x in names && x != m ==> Less(m, x);
    m
  }

  /** A directory listing: the names in increasing order. */
  ghost function SortedNames(names: set<string>): (s: seq<string>)
    ensures |s| == |names|
    ensures forall x :: x in s <==> x in names
    ensures Sorted(s)
  {
    if names == {} then [] else
      var m := Least(names);
      [m] + SortedNames(names - {m})
  }

  lemma {:induction false} SortedUnique(s: seq<string>, t: seq<string>)
    requires Sorted(s) && Sorted(t)
    requires forall x :: x in s <==> x in t
    ensures s == t
  {
    assert s != [] ==> s[0] in s;
    assert t != [] ==> t[0] in t;
    if s != [] && t != [] {
      assert s[0] in t && t[0] in s;
      if s[0] != t[0] {
        var i :| 0 <= i < |t| && t[i] == s[0];
        var j :| 0 <= j < |s| && s[j] == t[0];
        LessTransitive(s[0], t[0], s[0]);
        LessIrreflexive(s[0]);
        assert false;
      }
      forall x | x in s[1..]
        ensures x in t[1..]
      {
        LessIrreflexive(s[0]);
        assert x in t && x != s[0];
      }
      forall x | x in t[1..]
        ensures x in s[1..]
      {
        LessIrreflexive(t[0]);
        assert x in s && x != t[0];
      }
      SortedUnique(s[1..], t[1..]);
    }
  }

  /** Sort a set of names by repeatedly taking the least. */
  method SortNames(names: set<string>) returns (s: seq<string>)
    ensures s == SortedNames(names)
  {
    hide Less;
    s := [];
    var rest := names;
    while rest != {}
      invariant Sorted(s) && rest <= names
      invariant forall n :: n in s <==> n in names - rest
      invariant forall a, b :: a in s && b in rest ==> Less(a, b)
      decreases |rest|
    {
      MinimumExists(rest);
      var least :| least in rest && forall x :: x in rest && x != least ==> Less(least, x);
      s, rest := s + [least], rest - {least};
    }
    SortedUnique(s, SortedNames(names));
  }

  // ------------------------------------------------- prefixes and splitting

  predicate HasPrefix(s: string, p: string) {
    |p| <= |s| && s[..|p|] == p
  }

  /** strings.Contains */
  predicate Contains(s: string, t: string) {
    HasPrefix(s, t) || (s != "" && Contains(s[1..], t))
  }

  predicate AsciiSpace(c: char) {
    9 <= c as int <= 13 || c == ' '
  }

  predicate HasSuffix(s: string, t: string) {
    |t| <= |s| && s[|s| - |t|..] == t
  }

  /** strings.Split on a single byte; never empty. */
  function Split(s: string, c: char): (parts: seq<string>)
    ensures parts != []
    ensures forall i, j :: 0 <= i < |parts| && 0 <= j < |parts[i]| ==> parts[i][j] != c
  {
    if s == [] then [[]]
    else
      var rest := Split(s[1..], c);
      if s[0] == c then [[]] + rest else [[s[0]] + rest[0]] + rest[1..]
  }

  lemma {:induction false} SplitWhole(s: string, c: char)
    requires c !in s
    ensures Split(s, c) == [s]
  {
    if s != [] {
      SplitWhole(s[1..], c);
      assert s == [s[0]] + s[1..];
    }
  }

  lemma {:induction false} SplitAt(a: string, c: char, b: string)
    requires c !in a
    ensures Split(a + [c] + b, c) == [a] + Split(b, c)
  {
    if a == [] {
      assert (a + [c] + b)[1..] == b;
    } else {
      assert (a + [c] + b)[1..] == a[1..] + [c] + b;
      SplitAt(a[1..], c, b);
      assert a == [a[0]] + a[1..];
    }
  }

  // ------------------------------------------------------ decimal and hex

  /** The low `width` decimal digits of n: Go's `%0<width>d` when n fits. */
  function Digits(n: nat, width: nat): (s: string)
    ensures |s| == width
    ensures forall i :: 0 <= i < |s| ==> '0' <= s[i] <= '9'
  {
    if width == 0 then [] else Digits(n / 10, width - 1) + [('0' as int + n % 10) as char]
  }

  function Pow10(k: nat): (p: nat)
    ensures p > 0
  {
    if k == 0 then 1 else 10 * Pow10(k - 1)
  }

  /** Zero-padded decimals order as the numbers do. */
  lemma {:induction false} DigitsOrder(n: nat, m: nat, width: nat)
    requires n < m < Pow10(width)
    ensures Less(Digits(n, width), Digits(m, width))
  {
    if n / 10 < m / 10 {
      DigitsOrder(n / 10, m / 10, width - 1);
      LessExtend(Digits(n / 10, width - 1), Digits(m / 10, width - 1), Digits(n, width)[width - 1..],
          Digits(m, width)[width - 1..]);
    } else {
      LessAt(Digits(n, width), Digits(m, width), width - 1);
    }
  }

  function HexDigit(n: int): (c: char)
    requires 0 <= n < 16
    ensures '0' <= c <= '9' || 'a' <= c <= 'f'
  {
    if n < 10 then ('0' as int + n) as char else ('a' as int + n - 10) as char
  }

  function HexEncode(s: Str): (h: string)
    ensures |h| == 2 * |s|
    ensures forall i :: 0 <= i < |h| ==> '0' <= h[i] <= '9' || 'a' <= h[i] <= 'f'
  {
    if s == [] then [] else [HexDigit(s[0] as int / 16), HexDigit(s[0] as int % 16)] + HexEncode(s[1..])
  }

  /** Either letter case, as hex.DecodeString accepts; -1 for any other byte. */
  function HexValue(c: char): (v: int)
    ensures -1 <= v < 16
  {
    if '0' <= c <= '9' then c as int - '0' as int
    else if 'a' <= c <= 'f' then c as int - 'a' as int + 10
    else if 'A' <= c <= 'F' then c as int - 'A' as int + 10
    else -1
  }

  function HexDecode(h: string): Option<Str> {
    if h == [] then Some([])
    else if |h| == 1 || HexValue(h[0]) < 0 || HexValue(h[1]) < 0 then None
    else
      match HexDecode(h[2..])
      case None => None
      case Some(rest) =>
        var out: Str := [(16 * HexValue(h[0]) + HexValue(h[1])) as char] + rest;
        Some(out)
  }

  lemma HexDigits(n: int)
    requires 0 <= n < 256
    ensures HexValue(HexDigit(n / 16)) == n / 16 && HexValue(HexDigit(n % 16)) == n % 16
  {
  }

  lemma {:induction false} HexRoundTrip(s: Str)
    ensures HexDecode(HexEncode(s)) == Some(s)
  {
    if s != [] {
      var h := HexEncode(s);
      HexDigits(s[0] as int);
      hide HexDigit, HexValue;
      assert h[2..] == HexEncode(s[1..]);
      HexRoundTrip(s[1..]);
      assert s == [s[0]] + s[1..];
    }
  }
}
