/** Quoting is exact, variables never become syntax, and only seven operators come out. */
module ShellLexLaws {
  import opened Text
  import opened ShellLex

  // -------------------------------------------------------- token hygiene

  ghost predicate WellFormed(out: seq<Token>) {
    forall t :: t in out ==> if t.op then t.text in [";", "|", "||", "&&", "<", ">", ">>"] else t.text != ""
  }

  /** Any other operator that the lexer could have built is refused, and empty words vanish. */
  lemma {:induction false} TokensWellFormed(v: Vars, s: Str, st: State)
    requires WellFormed(st.out)
    ensures LexRest(v, s, st).Tokens? ==> WellFormed(LexRest(v, s, st).tokens)
    decreases |s|
  {
    hide Expand, IsSpace, WriteRune;
    if s != [] {
      match Turn(v, s, st) {
        case Stop(_) =>
        case Move(next, n) => TokensWellFormed(v, s[n..], next);
      }
    }
  }

  // ---------------------------------------- variables never become syntax

  function Operators(out: seq<Token>): seq<string> {
    if out == [] then []
    else Operators(out[..|out| - 1]) + if out[|out| - 1].op then [out[|out| - 1].text] else []
  }

  lemma OperatorsAppend(out: seq<Token>, t: Token)
    ensures Operators(out + [t]) == Operators(out) + if t.op then [t.text] else []
  {
    assert (out + [t])[..|out|] == out;
  }

  /** The same names are variables, with whatever values. */
  ghost predicate SameNames(a: Vars, b: Vars) {
    a.unicodeName == b.unicodeName
  }

  ghost predicate Alike(p: State, q: State) {
    p.quote == q.quote && p.escaped == q.escaped && Operators(p.out) == Operators(q.out)
  }

  lemma FlushAlike(p: State, q: State)
    requires Alike(p, q)
    ensures Alike(p.Flush(), q.Flush())
  {
    OperatorsAppend(p.out, Token(p.b, false));
    OperatorsAppend(q.out, Token(q.b, false));
  }

  lemma OperatorAlike(p: State, q: State, t: Token)
    requires Alike(p, q)
    ensures Alike(p.Flush().(out := p.Flush().out + [t]), q.Flush().(out := q.Flush().out + [t]))
  {
    FlushAlike(p, q);
    OperatorsAppend(p.Flush().out, t);
    OperatorsAppend(q.Flush().out, t);
  }

  lemma ExpandAlike(a: Vars, b: Vars, s: Str)
    requires SameNames(a, b) && s != [] && s[0] == '$'
    ensures Expand(a, s).Some? == Expand(b, s).Some?
    ensures Expand(a, s).Some? ==> Expand(a, s).value.length == Expand(b, s).value.length
  {
    hide NameEnd, IndexByte, IsLetter, IsDigit, Ascii, HasPrefix;
  }

  lemma TurnAlike(a: Vars, b: Vars, s: Str, p: State, q: State)
    requires SameNames(a, b) && Alike(p, q) && s != []
    ensures match Turn(a, s, p)
            case Stop(e) => Turn(b, s, q) == Stop(e)
            case Move(next, n) => Turn(b, s, q).Move? && Turn(b, s, q).n == n && Alike(next, Turn(b, s, q).st)
  {
    hide IsSpace, WriteRune, Operators, Expand, SameNames;
    if s[0] == '$' { ExpandAlike(a, b, s); }
    FlushAlike(p, q);
    OperatorAlike(p, q, Token([s[0]], true));
    OperatorAlike(p, q, Token([s[0], s[0]], true));
  }

  /** What a line means as syntax: its error, or the operators in order. */
  ghost predicate SameSyntax(x: Lexed, y: Lexed) {
    match (x, y)
    case (Rejected(e), Rejected(f)) => e == f
    case (Tokens(t), Tokens(u)) => Operators(t) == Operators(u)
    case _ => false
  }

  lemma {:induction false} RestAlike(a: Vars, b: Vars, s: Str, p: State, q: State)
    requires SameNames(a, b) && Alike(p, q)
    ensures SameSyntax(LexRest(a, s, p), LexRest(b, s, q))
    decreases |s|
  {
    hide Turn, Alike, Operators;
    if s == [] {
      FlushAlike(p, q);
      AlikeEnd(p, q);
    } else {
      TurnAlike(a, b, s, p, q);
      match Turn(a, s, p) {
        case Stop(_) =>
        case Move(next, n) => RestAlike(a, b, s[n..], next, Turn(b, s, q).st);
      }
    }
  }

  lemma AlikeEnd(p: State, q: State)
    requires Alike(p, q) && Alike(p.Flush(), q.Flush())
    ensures p.quote == q.quote && p.escaped == q.escaped && Operators(p.Flush().out) == Operators(q.Flush().out)
  {
  }

  /** No value of any variable, and no exit status, adds, removes or changes an operator or an error. */
  lemma ValuesAreNotSyntax(a: Vars, b: Vars, line: Str)
    requires SameNames(a, b)
    ensures SameSyntax(LexSpec(a, line), LexSpec(b, line))
  {
    hide LexRest;
    RestAlike(a, b, line, START, START);
  }

  // -------------------------------------------------------- exact quoting

  function Escape(w: Str): (e: Str) {
    if w == [] then [] else (if w[0] == '\'' then "'\\''" else [w[0]]) + Escape(w[1..])
  }

  function Quote(w: Str): Str {
    "'" + Escape(w) + "'"
  }

  /** The words single-quoted and joined with spaces. */
  function QuoteAll(ws: seq<Str>): Str {
    if ws == [] then "" else if |ws| == 1 then Quote(ws[0]) else Quote(ws[0]) + " " + QuoteAll(ws[1..])
  }

  /** What the lexer makes of literal bytes: ASCII as it is, the rest widened to UTF-8. */
  function Widen(w: Str): string {
    if w == [] then "" else WriteRune(w[0]) + Widen(w[1..])
  }

  lemma {:induction false} WidenIff(w: Str)
    ensures |Widen(w)| >= |w|
    ensures Widen(w) == w <==> Ascii(w)
  {
    if w != [] {
      WidenIff(w[1..]);
      assert w == [w[0]] + w[1..];
      if w[0] as int < 128 {
        assert Widen(w)[1..] == Widen(w[1..]);
        assert Ascii(w[1..]) ==> Ascii(w);
      } else {
        assert |Widen(w)| > |w|;
      }
    }
  }

  /** Inside single quotes every byte is literal, up to the embedded-quote sequence. */
  lemma {:induction false} LexQuoted(v: Vars, w: Str, rest: Str, st: State)
    requires st.quote == '\'' && !st.escaped
    ensures LexRest(v, Escape(w) + "'" + rest, st) == LexRest(v, rest, st.Write(Widen(w)).(quote := NO_QUOTE))
    decreases |w|
  {
    hide LexRest, Turn, WriteRune;
    var tail: Str := Escape(w) + "'" + rest;
    if w == [] {
      assert tail == "'" + rest;
      CloseQuote(v, rest, st);
      assert st.b + "" == st.b;
    } else {
      var more: Str := Escape(w[1..]) + "'" + rest;
      assert st.b + WriteRune(w[0]) + Widen(w[1..]) == st.b + Widen(w);
      if w[0] == '\'' {
        assert tail == "'\\''" + more;
        EmbeddedQuote(v, more, st);
        assert WriteRune('\'') == "'" by { AsciiRune('\''); }
      } else {
        assert tail == [w[0]] + more;
        LiteralByte(v, w[0], more, st);
      }
      LexQuoted(v, w[1..], rest, st.Write(WriteRune(w[0])));
    }
  }

  lemma AsciiRune(c: char)
    requires c as int < 128
    ensures WriteRune(c) == [c]
  {
  }

  lemma CloseQuote(v: Vars, rest: Str, st: State)
    requires st.quote == '\'' && !st.escaped
    ensures LexRest(v, "'" + rest, st) == LexRest(v, rest, st.(quote := NO_QUOTE))
  {
    assert ("'" + rest)[1..] == rest;
  }

  lemma LiteralByte(v: Vars, c: char, more: Str, st: State)
    requires st.quote == '\'' && !st.escaped && c != '\'' && c as int < 256
    ensures LexRest(v, [c] + more, st) == LexRest(v, more, st.Write(WriteRune(c)))
  {
    assert ([c] + more)[1..] == more;
  }

  lemma EmbeddedQuote(v: Vars, more: Str, st: State)
    requires st.quote == '\'' && !st.escaped
    ensures LexRest(v, "'\\''" + more, st) == LexRest(v, more, st.Write("'"))
  {
    hide Expand, IsSpace;
    var s0: Str := "'\\''" + more;
    var s1: Str, s2: Str, s3: Str := "\\''" + more, "''" + more, "'" + more;
    assert s0[1..] == s1 && s1[1..] == s2 && s2[1..] == s3 && s3[1..] == more;
    var t1 := st.(quote := NO_QUOTE);
    var t2 := t1.(escaped := true);
    var t3 := t2.Write(WriteRune('\'')).(escaped := false);
    assert LexRest(v, s0, st) == LexRest(v, s1, t1);
    assert LexRest(v, s1, t1) == LexRest(v, s2, t2);
    assert LexRest(v, s2, t2) == LexRest(v, s3, t3);
    assert LexRest(v, s3, t3) == LexRest(v, more, t3.(quote := '\''));
    assert t3.(quote := '\'') == st.Write("'");
  }

  function Words(ws: seq<Str>): (out: seq<Token>)
    ensures forall t :: t in out ==> !t.op && t.text != ""
  {
    if ws == [] then []
    else (if ws[0] == [] then [] else [Token(Widen(ws[0]), false)]) + Words(ws[1..])
  }

  lemma LexWord(v: Vars, w: Str, rest: Str, out: seq<Token>)
    ensures LexRest(v, Quote(w) + rest, State(out, "", NO_QUOTE, false))
              == LexRest(v, rest, State(out, Widen(w), NO_QUOTE, false))
  {
    hide LexRest, WriteRune, Escape, Widen;
    var st := State(out, "", NO_QUOTE, false);
    var body: Str := Escape(w) + "'" + rest;
    assert Quote(w) + rest == "'" + body;
    OpenQuote(v, body, st);
    LexQuoted(v, w, rest, st.(quote := '\''));
    assert "" + Widen(w) == Widen(w);
  }

  lemma {:induction false} LexQuoteAll(v: Vars, ws: seq<Str>, out: seq<Token>)
    ensures LexRest(v, QuoteAll(ws), State(out, "", NO_QUOTE, false)) == Tokens(out + Words(ws))
    decreases |ws|
  {
    hide LexRest, Quote, Widen;
    if ws == [] {
      LexRestEnd(v, State(out, "", NO_QUOTE, false));
      assert out + [] == out;
    } else {
      var rest: Str := if |ws| == 1 then "" else " " + QuoteAll(ws[1..]);
      assert QuoteAll(ws) == Quote(ws[0]) + rest;
      LexWord(v, ws[0], rest, out);
      WidenIff(ws[0]);
      WidenEmpty();
      var read := State(out, Widen(ws[0]), NO_QUOTE, false);
      var head := if ws[0] == [] then [] else [Token(Widen(ws[0]), false)];
      var done := out + head;
      assert read.Flush() == State(done, "", NO_QUOTE, false);
      Reassociate(out, head, Words(ws[1..]));
      if |ws| == 1 {
        LexRestEnd(v, read);
        assert ws[1..] == [] && done + [] == done;
      } else {
        SpaceAfter(v, QuoteAll(ws[1..]), read);
        LexQuoteAll(v, ws[1..], done);
      }
    }
  }

  lemma Reassociate(a: seq<Token>, b: seq<Token>, c: seq<Token>)
    ensures (a + b) + c == a + (b + c) && a + [] == a
  {
  }

  lemma WidenEmpty()
    ensures Widen([]) == ""
  {
  }

  lemma OpenQuote(v: Vars, body: Str, st: State)
    requires st.quote == NO_QUOTE && !st.escaped
    ensures LexRest(v, "'" + body, st) == LexRest(v, body, st.(quote := '\''))
  {
    assert ("'" + body)[1..] == body;
  }

  lemma SpaceAfter(v: Vars, rest: Str, st: State)
    requires st.quote == NO_QUOTE && !st.escaped
    ensures LexRest(v, " " + rest, st) == LexRest(v, rest, st.Flush())
  {
    assert (" " + rest)[1..] == rest;
  }

  // ------------------------------------------- the early refusal, exactly

  lemma {:induction false} SubstitutionSplit(a: string, c: char, b: string)
    requires c != '$' && c != '('
    ensures HasSubstitution(a + [c] + b) <==> HasSubstitution(a) || HasSubstitution(b)
  {
    if a == [] {
      assert (a + [c] + b)[1..] == b;
    } else {
      assert (a + [c] + b)[1..] == a[1..] + [c] + b;
      SubstitutionSplit(a[1..], c, b);
    }
  }

  lemma {:induction false} SubstitutionEscape(w: Str)
    ensures HasSubstitution(Escape(w)) <==> HasSubstitution(w)
    ensures (Escape(w) != [] && Escape(w)[0] == '(') <==> (w != [] && w[0] == '(')
  {
    if w != [] {
      SubstitutionEscape(w[1..]);
      if w[0] == '\'' {
        assert Escape(w) == "'\\'" + ['\''] + Escape(w[1..]);
        SubstitutionSplit("'\\'", '\'', Escape(w[1..]));
        assert !HasSubstitution("'\\'") by { assert "'\\'"[1..] == "\\'" && "\\'"[1..] == "'"; }
      } else {
        assert Escape(w)[1..] == Escape(w[1..]);
      }
    }
  }

  lemma {:induction false} EscapeMembers(w: Str, c: char)
    requires c != '\'' && c != '\\'
    ensures c in Escape(w) <==> c in w
  {
    if w != [] {
      EscapeMembers(w[1..], c);
      assert w == [w[0]] + w[1..];
    }
  }

  lemma QuoteForbidden(w: Str)
    ensures Forbidden(Quote(w)) <==> Forbidden(w)
  {
    hide HasSubstitution, Escape;
    EscapeMembers(w, '`');
    EscapeMembers(w, '\n');
    EscapeMembers(w, '\r');
    var q := Quote(w);
    assert q == [] + ['\''] + (Escape(w) + ['\''] + []);
    SubstitutionSplit([], '\'', Escape(w) + ['\''] + []);
    SubstitutionSplit(Escape(w), '\'', []);
    SubstitutionEscape(w);
    NoSubstitution();
  }

  lemma NoSubstitution()
    ensures !HasSubstitution([])
  {
  }

  lemma {:induction false} QuoteAllForbidden(ws: seq<Str>)
    ensures Forbidden(QuoteAll(ws)) <==> exists i :: 0 <= i < |ws| && Forbidden(ws[i])
    decreases |ws|
  {
    hide Quote;
    NoSubstitution();
    if ws != [] {
      QuoteForbidden(ws[0]);
      if |ws| > 1 {
        QuoteAllForbidden(ws[1..]);
        var a, b := Quote(ws[0]), QuoteAll(ws[1..]);
        assert QuoteAll(ws) == a + [' '] + b;
        SubstitutionSplit(a, ' ', b);
        if j :| 0 <= j < |ws[1..]| && Forbidden(ws[1..][j]) { assert Forbidden(ws[j + 1]); }
        if i :| 0 <= i < |ws| && Forbidden(ws[i]) { assert i == 0 || ws[1..][i - 1] == ws[i]; }
      }
    }
  }

  // --------------------------------------------------------- main theorem

  function AsTokens(ws: seq<string>): (out: seq<Token>)
    ensures |out| == |ws| && forall i :: 0 <= i < |ws| ==> out[i] == Token(ws[i], false)
  {
    seq(|ws|, i requires 0 <= i < |ws| => Token(ws[i], false))
  }

  lemma {:induction false} WordsExact(ws: seq<Str>)
    ensures Words(ws) == AsTokens(ws) <==> forall i :: 0 <= i < |ws| ==> ws[i] != [] && Ascii(ws[i])
    ensures |Words(ws)| <= |ws|
  {
    if ws != [] {
      WordsExact(ws[1..]);
      WidenIff(ws[0]);
      var head := if ws[0] == [] then [] else [Token(Widen(ws[0]), false)];
      assert Words(ws) == head + Words(ws[1..]);
      if Words(ws) == AsTokens(ws) {
        assert |head| == 1;
        assert Words(ws)[0] == AsTokens(ws)[0];
        assert Words(ws)[1..] == Words(ws[1..]) && AsTokens(ws)[1..] == AsTokens(ws[1..]);
        assert forall i :: 0 < i < |ws| ==> ws[i] == ws[1..][i - 1];
      }
      if forall i :: 0 <= i < |ws| ==> ws[i] != [] && Ascii(ws[i]) {
        assert AsTokens(ws) == head + AsTokens(ws[1..]);
      }
    }
  }

  /** Quoted words come back exactly when each is non-empty, ASCII and free of what the lexer refuses. */
  lemma QuotingRoundTrip(v: Vars, ws: seq<Str>)
    ensures LexSpec(v, QuoteAll(ws)) == Tokens(AsTokens(ws)) <==>
              forall i :: 0 <= i < |ws| ==> ws[i] != [] && Ascii(ws[i]) && !Forbidden(ws[i])
  {
    hide Forbidden, LexRest, QuoteAll, Words, Ascii;
    QuoteAllForbidden(ws);
    LexQuoteAll(v, ws, []);
    assert [] + Words(ws) == Words(ws);
    WordsExact(ws);
  }
}
