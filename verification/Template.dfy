/** HTTP page rendering: one strings.ReplaceAll per value, in Go's unspecified map order. */
module Template {
  import opened Text

  function ReplaceAll(s: string, m: string, v: string): string
    requires m != ""
  {
    if |s| < |m| then s
    else if HasPrefix(s, m) then v + ReplaceAll(s[|m|..], m, v)
    else [s[0]] + ReplaceAll(s[1..], m, v)
  }

  predicate BraceFree(s: string) {
    '{' !in s && '}' !in s
  }

  function Marker(key: string): (m: string)
    ensures |m| == |key| + 4
  {
    "{{" + key + "}}"
  }

  // ------------------------------------------------------------ templates

  /** A page body: literal text and placeholders. */
  datatype Piece = Lit(text: string) | Hole(key: string)

  predicate WellFormed(ps: seq<Piece>) {
    forall i :: 0 <= i < |ps| ==> match ps[i] case Lit(t) => BraceFree(t) case Hole(k) => BraceFree(k)
  }

  function Unparse(ps: seq<Piece>): string {
    if ps == [] then ""
    else (match ps[0] case Lit(t) => t case Hole(k) => Marker(k)) + Unparse(ps[1..])
  }

  function Fill(ps: seq<Piece>, key: string, v: string): (r: seq<Piece>)
    ensures |r| == |ps|
    ensures forall i :: 0 <= i < |r| ==> r[i] == if ps[i] == Hole(key) then Lit(v) else ps[i]
  {
    seq(|ps|, i requires 0 <= i < |ps| => if ps[i] == Hole(key) then Lit(v) else ps[i])
  }

  /** All placeholders filled at once. */
  function FillAll(ps: seq<Piece>, values: map<string, string>): (r: seq<Piece>)
    ensures |r| == |ps|
    ensures forall i :: 0 <= i < |r| ==>
              r[i] == if ps[i].Hole? && ps[i].key in values then Lit(values[ps[i].key]) else ps[i]
  {
    seq(|ps|, i requires 0 <= i < |ps| => if ps[i].Hole? && ps[i].key in values then Lit(values[ps[i].key]) else ps[i])
  }

  lemma ReplaceSkip(c: char, s: string, key: string, v: string)
    requires c != '{'
    ensures ReplaceAll([c] + s, Marker(key), v) == [c] + ReplaceAll(s, Marker(key), v)
  {
    var t := [c] + s;
    assert Marker(key)[0] == '{';
    assert t[0] == c && t[1..] == s;
    if |t| >= |Marker(key)| { assert t[..|Marker(key)|][0] == c; }
  }

  lemma {:induction false} ReplaceLiteral(a: string, s: string, key: string, v: string)
    requires '{' !in a
    ensures ReplaceAll(a + s, Marker(key), v) == a + ReplaceAll(s, Marker(key), v)
  {
    hide ReplaceAll, Marker;
    if a == "" {
      assert a + s == s && a + ReplaceAll(s, Marker(key), v) == ReplaceAll(s, Marker(key), v);
    } else {
      assert a == [a[0]] + a[1..];
      assert a + s == [a[0]] + (a[1..] + s);
      ReplaceSkip(a[0], a[1..] + s, key, v);
      ReplaceLiteral(a[1..], s, key, v);
    }
  }

  lemma ReplaceHole(s: string, key: string, v: string)
    ensures ReplaceAll(Marker(key) + s, Marker(key), v) == v + ReplaceAll(s, Marker(key), v)
  {
    var t := Marker(key) + s;
    assert t[..|Marker(key)|] == Marker(key) && t[|Marker(key)|..] == s;
  }

  lemma MarkersDiffer(other: string, key: string, s: string)
    requires BraceFree(other) && BraceFree(key) && HasPrefix(Marker(other) + s, Marker(key))
    ensures other == key
  {
    var t, m := Marker(other) + s, Marker(key);
    assert t[..|m|] == m;
    assert forall i :: 0 <= i < |m| ==> t[i] == t[..|m|][i] == m[i];
    FirstClosing(other, s);
    FirstClosing(key, "");
    assert m + "" == m;
    assert |key| == |other|;
    forall i | 0 <= i < |key|
      ensures key[i] == other[i]
    {
      assert m[i + 2] == key[i] && t[i + 2] == other[i];
    }
  }

  /** The first closing brace after a marker's start ends its key. */
  lemma FirstClosing(key: string, s: string)
    requires BraceFree(key)
    ensures var t := Marker(key) + s;
            t[|key| + 2] == '}' && forall i :: 0 <= i < |key| + 2 ==> t[i] != '}'
  {
    var t := Marker(key) + s;
    forall i | 0 <= i < |key| + 2
      ensures t[i] != '}'
    {
      if i >= 2 { assert t[i] == key[i - 2]; }
    }
  }

  lemma ReplaceOther(other: string, s: string, key: string, v: string)
    requires BraceFree(other) && BraceFree(key) && other != key
    ensures ReplaceAll(Marker(other) + s, Marker(key), v) == Marker(other) + ReplaceAll(s, Marker(key), v)
  {
    hide ReplaceAll;
    var tail := other + "}}";
    var m := Marker(key);
    assert '{' !in tail;
    var t0, t1 := Marker(other) + s, "{" + (tail + s);
    assert t0 == "{" + t1 && t1 == "{" + (tail + s);
    ReplaceLiteral(tail, s, key, v);
    if HasPrefix(t0, m) { MarkersDiffer(other, key, s); }
    assert !HasPrefix(t1, m) by {
      assert m[1] == '{';
      assert t1[1] == (tail + s)[0] != '{';
      if |m| <= |t1| { assert t1[..|m|][1] == t1[1]; }
    }
    ReplaceStep(t0, m, v);
    ReplaceStep(t1, m, v);
    assert t0[1..] == t1 && t1[1..] == tail + s;
    assert "{" + ("{" + (tail + ReplaceAll(s, m, v))) == Marker(other) + ReplaceAll(s, m, v);
  }

  lemma ReplaceStep(s: string, m: string, v: string)
    requires m != "" && s != "" && !HasPrefix(s, m)
    ensures |s| < |m| ==> ReplaceAll(s, m, v) == s
    ensures |s| >= |m| ==> ReplaceAll(s, m, v) == [s[0]] + ReplaceAll(s[1..], m, v)
    ensures ReplaceAll(s, m, v) == [s[0]] + ReplaceAll(s[1..], m, v)
  {
    if |s| < |m| { assert s == [s[0]] + s[1..]; }
  }

  /** One pass fills one key's placeholders and touches nothing else. */
  lemma {:induction false} ReplaceFills(ps: seq<Piece>, key: string, v: string)
    requires WellFormed(ps) && BraceFree(key)
    ensures ReplaceAll(Unparse(ps), Marker(key), v) == Unparse(Fill(ps, key, v))
  {
    hide Marker, ReplaceAll;
    if ps == [] {
      ReplaceEmpty(key, v);
    } else {
      var rest := ps[1..];
      ReplaceFills(rest, key, v);
      assert Fill(ps, key, v)[1..] == Fill(rest, key, v);
      match ps[0] {
        case Lit(t) => ReplaceLiteral(t, Unparse(rest), key, v);
        case Hole(k) =>
          if k == key { ReplaceHole(Unparse(rest), key, v); } else { ReplaceOther(k, Unparse(rest), key, v); }
      }
    }
  }

  lemma ReplaceEmpty(key: string, v: string)
    ensures ReplaceAll("", Marker(key), v) == ""
  {
  }

  // ------------------------------------------------------------- any order

  /** The passes in the order that the map iteration happens to take. */
  function Passes(body: string, order: seq<string>, values: map<string, string>): string
    requires forall k :: k in order ==> k in values
    decreases |order|
  {
    if order == [] then body
    else Passes(ReplaceAll(body, Marker(order[0]), values[order[0]]), order[1..], values)
  }

  method Render(body: string, order: seq<string>, values: map<string, string>) returns (page: string)
    requires forall k :: k in order <==> k in values
    ensures page == Passes(body, order, values)
  {
    hide ReplaceAll, Marker;
    page := body;
    for i := 0 to |order|
      invariant Passes(page, order[i..], values) == Passes(body, order, values)
    {
      assert order[i..][0] == order[i] && order[i..][1..] == order[i + 1..];
      page := ReplaceAll(page, Marker(order[i]), values[order[i]]);
    }
  }

  predicate BraceFreeMap(values: map<string, string>) {
    forall k :: k in values ==> BraceFree(k) && BraceFree(values[k])
  }

  function Chosen(values: map<string, string>, order: seq<string>): map<string, string> {
    map k | k in order && k in values :: values[k]
  }

  lemma {:induction false} PassesFill(ps: seq<Piece>, order: seq<string>, values: map<string, string>)
    requires WellFormed(ps) && BraceFreeMap(values)
    requires forall k :: k in order ==> k in values
    ensures Passes(Unparse(ps), order, values) == Unparse(FillAll(ps, Chosen(values, order)))
    decreases |order|
  {
    hide ReplaceAll, Unparse, Marker, BraceFree;
    if order == [] {
      assert FillAll(ps, Chosen(values, order)) == ps;
    } else {
      var k, v := order[0], values[order[0]];
      var next := Fill(ps, k, v);
      ReplaceFills(ps, k, v);
      PassesFill(next, order[1..], values);
      assert FillAll(next, Chosen(values, order[1..])) == FillAll(ps, Chosen(values, order));
    }
  }

  /** With brace-free values, every order of the passes equals one simultaneous substitution. */
  lemma RenderIsSimultaneous(ps: seq<Piece>, order: seq<string>, values: map<string, string>)
    requires WellFormed(ps) && BraceFreeMap(values)
    requires forall k :: k in order <==> k in values
    ensures Passes(Unparse(ps), order, values) == Unparse(FillAll(ps, values))
  {
    PassesFill(ps, order, values);
    assert Chosen(values, order) == values;
  }

  // ---------------------------------------------------- when order matters

  lemma {:induction false} ReplaceAbsent(s: string, m: string, v: string)
    requires m != "" && !Contains(s, m)
    ensures ReplaceAll(s, m, v) == s
  {
    if |s| >= |m| {
      ReplaceAbsent(s[1..], m, v);
      assert s == [s[0]] + s[1..];
    }
  }

  lemma {:induction false} ReplaceSame(s: string, m: string)
    requires m != ""
    ensures ReplaceAll(s, m, m) == s
  {
    if |s| >= |m| {
      if HasPrefix(s, m) {
        ReplaceSame(s[|m|..], m);
        assert s == m + s[|m|..];
      } else {
        ReplaceSame(s[1..], m);
        assert s == [s[0]] + s[1..];
      }
    }
  }

  lemma {:induction false} ReplaceLength(s: string, m: string, v: string)
    requires m != ""
    ensures |v| >= |m| ==> |ReplaceAll(s, m, v)| >= |s|
    ensures |v| <= |m| ==> |ReplaceAll(s, m, v)| <= |s|
  {
    if |s| >= |m| {
      if HasPrefix(s, m) { ReplaceLength(s[|m|..], m, v); } else { ReplaceLength(s[1..], m, v); }
    }
  }

  lemma {:induction false} ReplacePresent(s: string, m: string, v: string)
    requires m != "" && Contains(s, m) && v != m
    ensures ReplaceAll(s, m, v) != s
  {
    if HasPrefix(s, m) {
      var rest := s[|m|..];
      ReplaceLength(rest, m, v);
      var r := ReplaceAll(s, m, v);
      if |v| == |m| {
        assert r[..|m|] == v && s[..|m|] == m;
      }
    } else {
      ContainsLength(s, m);
      ReplacePresent(s[1..], m, v);
      assert ReplaceAll(s, m, v)[1..] == ReplaceAll(s[1..], m, v);
    }
  }

  lemma {:induction false} ContainsLength(s: string, m: string)
    requires Contains(s, m)
    ensures |s| >= |m|
  {
    if !HasPrefix(s, m) { ContainsLength(s[1..], m); }
  }

  /**
   The page `{{a}}` with two values depends on their order exactly when a's value holds b's placeholder
   and b's is not that placeholder itself.
   */
  lemma OrderMattersIff(a: string, b: string, va: string, vb: string)
    requires BraceFree(a) && BraceFree(b) && a != b
    ensures var values := map[a := va, b := vb];
            Passes(Marker(a), [a, b], values) != Passes(Marker(a), [b, a], values)
            <==> Contains(va, Marker(b)) && vb != Marker(b)
  {
    hide ReplaceAll, Contains, Marker;
    var values := map[a := va, b := vb];
    var body := Marker(a);
    assert body + "" == body;
    ReplaceHole("", a, va);
    ReplaceEmpty(a, va);
    assert va + "" == va;
    ReplaceOther(a, "", b, vb);
    ReplaceEmpty(b, vb);
    assert [a, b][1..] == [b] && [b, a][1..] == [a] && [a][1..] == [] && [b][1..] == [];
    assert Passes(body, [b, a], values) == Passes(body, [a], values) == va;
    assert Passes(body, [a, b], values) == Passes(va, [b], values) == ReplaceAll(va, Marker(b), vb);
    if !Contains(va, Marker(b)) {
      ReplaceAbsent(va, Marker(b), vb);
    } else if vb == Marker(b) {
      ReplaceSame(va, Marker(b));
    } else {
      ReplacePresent(va, Marker(b), vb);
    }
  }
}
