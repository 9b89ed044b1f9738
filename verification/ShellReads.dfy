/** What the tokeniser makes of each piece of syntax, wherever it stands in a line. */
module ShellReads {
  import opened Text
  import opened ShellLex
  import opened ShellLexLaws

  /** Outside quotes, and not after a backslash. */
  predicate Open(st: State) {
    st.quote == NO_QUOTE && !st.escaped
  }

  /** The words so far, the pending one included. */
  function Ended(st: State): seq<Token> {
    if st.b == "" then st.out else st.out + [Token(st.b, false)]
  }

  function Between(out: seq<Token>): State {
    State(out, "", NO_QUOTE, false)
  }

  // ---------------------------------------------------- operators and spaces

  /**
   Four characters are operators, unless they are doubled, and three are when doubled. Each ends the word before it
   and comes out as it is.
   */
  lemma OperatorReads(v: Vars, c: char, rest: Str, st: State)
    requires Open(st) && c as int < 128
    ensures c in ";|<>" && (rest == [] || rest[0] != c) ==>
              LexRest(v, [c] + rest, st) == LexRest(v, rest, Between(Ended(st) + [Token([c], true)]))
    ensures c in "|&>" ==>
              LexRest(v, [c, c] + rest, st) == LexRest(v, rest, Between(Ended(st) + [Token([c, c], true)]))
  {
    hide LexRest, Turn;
    var s: Str, t: Str := [c] + rest, [c, c] + rest;
    assert s[1..] == rest && t[2..] == rest && (rest != [] ==> s[1] == rest[0]);
    LexOnce(v, s, st);
    LexOnce(v, t, st);
    if c in ";|<>" && (rest == [] || rest[0] != c) { SingleTurn(v, s, st); }
    if c in "|&>" { DoubleTurn(v, t, st); }
  }

  lemma SingleTurn(v: Vars, s: Str, st: State)
    requires Open(st) && s != [] && s[0] in ";|<>" && (|s| == 1 || s[1] != s[0])
    ensures Turn(v, s, st) == Move(Between(Ended(st) + [Token([s[0]], true)]), 1)
  {
    hide Expand, WriteRune;
  }

  lemma DoubleTurn(v: Vars, s: Str, st: State)
    requires Open(st) && |s| > 1 && s[0] in "|&>" && s[1] == s[0]
    ensures Turn(v, s, st) == Move(Between(Ended(st) + [Token([s[0], s[0]], true)]), 2)
  {
    hide Expand, WriteRune;
  }

  lemma LexOnce(v: Vars, s: Str, st: State)
    requires s != []
    ensures LexRest(v, s, st)
              == match Turn(v, s, st) case Stop(e) => Rejected(e) case Move(next, n) => LexRest(v, s[n..], next)
  {
    hide Turn;
  }

  /** The white space of Latin-1. */
  predicate White(c: char) {
    c as int in {9, 10, 11, 12, 13, 32, 133, 160}
  }

  /** White space ends words, and all bytes that mean nothing are part of them. */
  lemma ByteReads(v: Vars, c: char, rest: Str, st: State)
    requires Open(st) && c as int < 256
    ensures White(c) ==> LexRest(v, [c] + rest, st) == LexRest(v, rest, Between(Ended(st)))
    ensures !White(c) && c !in "\\'\"$(){};|&><" ==>
              LexRest(v, [c] + rest, st) == LexRest(v, rest, st.Write(WriteRune(c)))
  {
    hide LexRest, Expand, WriteRune;
    var s: Str := [c] + rest;
    assert s[1..] == rest;
    LexOnce(v, s, st);
  }

  /** A byte of a word is written as the UTF-8 of the code point with its number. */
  lemma RuneReads(c: char)
    requires c as int < 256
    ensures var r := WriteRune(c);
            if c as int < 128 then r == [c]
            else
              && |r| == 2 && 0xC2 <= r[0] as int <= 0xC3 && 0x80 <= r[1] as int < 0xC0
              && (r[0] as int - 0xC0) * 64 + (r[1] as int - 0x80) == c as int
  {
  }

  /** A backslash makes the next byte part of the word, whatever it is, except inside single quotes. */
  lemma BackslashReads(v: Vars, c: char, rest: Str, st: State)
    requires !st.escaped && st.quote != '\'' && c as int < 256
    ensures LexRest(v, ['\\', c] + rest, st) == LexRest(v, rest, st.Write(WriteRune(c)))
  {
    hide Expand, IsSpace;
    var s: Str := ['\\', c] + rest;
    assert s[1..] == [c] + rest && ([c] + rest)[1..] == rest;
    assert LexRest(v, s, st) == LexRest(v, [c] + rest, st.(escaped := true));
    assert st.(escaped := true).Write(WriteRune(c)).(escaped := false) == st.Write(WriteRune(c));
  }

  // ------------------------------------------------------------- refusals

  /** Backquotes, line ends and "$(" are refused anywhere in a line, quoted or not. */
  lemma ForbiddenIff(line: Str)
    ensures Forbidden(line) <==>
              || (exists i :: 0 <= i < |line| && (line[i] == '`' || line[i] == '\n' || line[i] == '\r'))
              || (exists i :: 0 < i < |line| && line[i] == '(' && line[i - 1] == '$')
    ensures Forbidden(line) ==> forall v :: LexSpec(v, line) == Rejected(Unsupported)
  {
    SubstitutionIff(line);
    hide HasSubstitution, LexRest;
    assert '`' in line <==> exists i :: 0 <= i < |line| && line[i] == '`';
    assert '\n' in line <==> exists i :: 0 <= i < |line| && line[i] == '\n';
    assert '\r' in line <==> exists i :: 0 <= i < |line| && line[i] == '\r';
  }

  lemma {:induction false} SubstitutionIff(s: string)
    ensures HasSubstitution(s) <==> exists i :: 0 < i < |s| && s[i] == '(' && s[i - 1] == '$'
  {
    if |s| >= 2 {
      SubstitutionIff(s[1..]);
      if HasSubstitution(s[1..]) {
        var i :| 0 < i < |s[1..]| && s[1..][i] == '(' && s[1..][i - 1] == '$';
        assert s[i + 1] == '(' && s[i + 1 - 1] == '$';
      }
      if i :| 0 < i < |s| && s[i] == '(' && s[i - 1] == '$' {
        assert i > 1 ==> s[1..][i - 1] == '(' && s[1..][i - 1 - 1] == '$';
      }
    }
  }

  /** Parentheses, braces and a single "&" are refused outside quotes, and a line that ends quoted or escaped is. */
  lemma RefusalReads(v: Vars, c: char, rest: Str, st: State)
    ensures Open(st) && c in "(){}" ==> LexRest(v, [c] + rest, st) == Rejected(Unsupported)
    ensures Open(st) && (rest == [] || rest[0] != '&') ==> LexRest(v, ['&'] + rest, st) == Rejected(JobControl)
    ensures !Open(st) ==> LexRest(v, [], st) == Rejected(UnclosedQuote)
    ensures Open(st) ==> LexRest(v, [], st) == Tokens(Ended(st))
  {
    hide Expand, WriteRune;
    assert |['&'] + rest| > 1 ==> (['&'] + rest)[1] == rest[0];
  }

  // ------------------------------------------------------------- variables

  /** The bytes of an ASCII variable name; its first is no digit. */
  predicate NameByte(c: char) {
    'a' <= c <= 'z' || 'A' <= c <= 'Z' || '0' <= c <= '9' || c == '_'
  }

  predicate IsName(name: string) {
    name != "" && !('0' <= name[0] <= '9') && forall i :: 0 <= i < |name| ==> NameByte(name[i])
  }

  /** Which bytes count as letters: those of ASCII, and the letters of Latin-1 but for its two signs among them. */
  lemma LettersAre(c: char)
    requires c as int < 256
    ensures c as int < 128 ==> (IsLetter(c) <==> NameByte(c) && c != '_' && !('0' <= c <= '9'))
    ensures c as int >= 128 ==>
              (IsLetter(c) <==> c as int in {0xAA, 0xB5, 0xBA} || (c as int >= 0xC0 && c as int !in {0xD7, 0xF7}))
  {
  }

  /** What stops an unbraced name: the end, or an ASCII byte that no name has. */
  predicate Stops(rest: Str) {
    rest != [] ==> rest[0] as int < 128 && !NameByte(rest[0])
  }

  function ValueOf(v: Vars, name: string): string {
    if name in v.values then v.values[name] else ""
  }

  lemma {:induction false} NameReaches(name: string, rest: Str, i: nat)
    requires IsName(name) && Stops(rest) && 1 <= i <= |name| + 1
    ensures NameEnd("$" + name + rest, i) == |name| + 1
    decreases |name| - i
  {
    var s := "$" + name + rest;
    if i <= |name| {
      assert s[i] == name[i - 1] && NameByte(name[i - 1]);
      assert i == 1 ==> name[0] == s[1];
      NameReaches(name, rest, i + 1);
    } else {
      assert rest != [] ==> s[i] == rest[0];
    }
  }

  /** `$name` up to the first byte that cannot belong to it, `${name}`, and `$?` for the last status. */
  lemma VariableExpands(v: Vars, name: Str, rest: Str)
    ensures IsName(name) && Stops(rest) ==>
              Expand(v, "$" + name + rest) == Some(Expansion(ValueOf(v, name), 1 + |name|))
    ensures IsName(name) ==> Expand(v, "${" + name + "}" + rest) == Some(Expansion(ValueOf(v, name), 3 + |name|))
    ensures Expand(v, "$?" + rest) == Some(Expansion(v.lastStatus, 2))
  {
    var s: Str := "$?" + rest;
    assert s[..2] == "$?";
    if IsName(name) {
      Braced(v, name, rest);
      if Stops(rest) {
        NameReaches(name, rest, 1);
        var t: Str := "$" + name + rest;
        assert t[1] == name[0] && NameByte(name[0]);
        assert t[..2][1] == name[0] && t[1..1 + |name|] == name;
      }
    }
  }

  lemma Braced(v: Vars, name: Str, rest: Str)
    requires IsName(name)
    ensures Expand(v, "${" + name + "}" + rest) == Some(Expansion(ValueOf(v, name), 3 + |name|))
  {
    var s: Str := "${" + name + "}" + rest;
    var i := |name| + 2;
    assert s[..2] == "${" && s[2..i] == name && s[i] == '}';
    forall j | 0 <= j < i
      ensures s[j] != '}'
    {
      assert j >= 2 ==> s[j] == name[j - 2] && NameByte(name[j - 2]);
    }
    assert IndexByte(s, '}') == i;
    assert forall k :: 0 <= k < |name| ==> NameByte(name[k]);
    assert ValidEnv(v, name);
  }

  /** A dollar sign is no reference before a byte that begins no name, nor with braces around anything but a name. */
  lemma NoReference(v: Vars, name: Str, rest: Str)
    ensures rest == []
            || (rest[0] as int < 128 && rest[0] !in "?{" && (!NameByte(rest[0]) || '0' <= rest[0] <= '9')) ==>
              Expand(v, "$" + rest) == None
    ensures '}' !in rest ==> Expand(v, "${" + rest) == None
    ensures Ascii(name) && '}' !in name && !IsName(name) ==> Expand(v, "${" + name + "}" + rest) == None
  {
    var s: Str, t: Str, u: Str := "$" + rest, "${" + rest, "${" + name + "}" + rest;
    if rest != [] { assert s[1] == rest[0] && s[..2][1] == rest[0]; }
    assert t[..2] == "${" && u[..2] == "${";
    if '}' !in rest {
      assert forall j :: 0 <= j < |t| ==> t[j] == if j < 2 then "${"[j] else rest[j - 2];
      assert IndexByte(t, '}') == -1;
    }
    if Ascii(name) && '}' !in name && !IsName(name) {
      var i := |name| + 2;
      assert u[i] == '}' && u[2..i] == name;
      assert forall j :: 0 <= j < i ==> u[j] == if j < 2 then "${"[j] else name[j - 2];
      assert IndexByte(u, '}') == i;
      hide IndexByte, NameEnd;
      BadAsciiName(v, name);
    }
  }

  lemma BadAsciiName(v: Vars, name: string)
    requires Ascii(name) && !IsName(name)
    ensures !ValidEnv(v, name)
  {
    if name != "" && !('0' <= name[0] <= '9') {
      var i :| 0 <= i < |name| && !NameByte(name[i]);
      assert name[i] as int < 128;
    }
  }

  /** In a word or inside double quotes a reference becomes its value, as text; inside single quotes it stays. */
  lemma ReferenceReads(v: Vars, ref: Str, x: Expansion, rest: Str, st: State)
    requires !st.escaped && ref != [] && ref[0] == '$' && x.length == |ref|
    ensures (st.quote == NO_QUOTE || st.quote == '"') && Expand(v, ref + rest) == Some(x) ==>
              LexRest(v, ref + rest, st) == LexRest(v, rest, st.Write(x.value))
    ensures st.quote == '\'' ==> LexRest(v, ref + rest, st) == LexRest(v, ref[1..] + rest, st.Write("$"))
    ensures st.quote == NO_QUOTE && Expand(v, ref + rest) == None ==>
              LexRest(v, ref + rest, st) == Rejected(BadSubstitution)
    ensures st.quote == '"' && Expand(v, ref + rest) == None ==>
              LexRest(v, ref + rest, st) == LexRest(v, ref[1..] + rest, st.Write("$"))
  {
    hide LexRest, Expand;
    var s: Str := ref + rest;
    assert s[0] == '$' && s[|ref|..] == rest && s[1..] == ref[1..] + rest;
    assert WriteRune('$') == "$";
    LexOnce(v, s, st);
  }

  // --------------------------------------------------------- double quotes

  /** A backslash before each byte that means something inside double quotes. */
  function EscapeDouble(w: Str): (e: Str) {
    if w == [] then [] else (if w[0] in "\"\\$" then ['\\', w[0]] else [w[0]]) + EscapeDouble(w[1..])
  }

  lemma {:induction false} LexDouble(v: Vars, w: Str, rest: Str, st: State)
    requires st.quote == '"' && !st.escaped
    ensures LexRest(v, EscapeDouble(w) + "\"" + rest, st) == LexRest(v, rest, st.Write(Widen(w)).(quote := NO_QUOTE))
    decreases |w|
  {
    hide LexRest, WriteRune;
    var tail: Str := EscapeDouble(w) + "\"" + rest;
    if w == [] {
      assert tail == "\"" + rest && tail[1..] == rest;
      LexOnce(v, tail, st);
      assert st.b + "" == st.b;
    } else {
      var more: Str := EscapeDouble(w[1..]) + "\"" + rest;
      assert st.b + WriteRune(w[0]) + Widen(w[1..]) == st.b + Widen(w);
      if w[0] in "\"\\$" {
        assert tail == ['\\', w[0]] + more;
        BackslashReads(v, w[0], more, st);
      } else {
        assert tail == [w[0]] + more && tail[1..] == more;
        LexOnce(v, tail, st);
      }
      LexDouble(v, w[1..], rest, st.Write(WriteRune(w[0])));
    }
  }

  /** Double quotes hide spaces and operators, and a backslash the three bytes that still have a meaning there. */
  lemma DoubleQuotesRead(v: Vars, w: Str, rest: Str, st: State)
    requires Open(st)
    ensures LexRest(v, "\"" + EscapeDouble(w) + "\"" + rest, st) == LexRest(v, rest, st.Write(Widen(w)))
  {
    hide LexRest;
    var body: Str := EscapeDouble(w) + "\"" + rest;
    var s: Str := "\"" + body;
    assert "\"" + EscapeDouble(w) + "\"" + rest == s && s[1..] == body;
    LexOnce(v, s, st);
    LexDouble(v, w, rest, st.(quote := '"'));
  }
}
