/** Two lines written as one: `a;b` reads all its variables before any of it runs. */
module ShellLines {
  import opened Text
  import opened Paths
  import opened ShellLex
  import opened ShellLexLaws
  import opened ShellModel
  import opened ShellLaws

  const SEMI := Token(";", true)

  /** Two lines on one. */
  function Both(a: Str, b: Str): Str {
    a + ";" + b
  }

  /** No variable name contains a semicolon. */
  ghost predicate NamesAreWords(v: Vars) {
    forall name: string :: ';' in name ==> !v.unicodeName(name)
  }

  // ------------------------------------------------------------ reading a;b

  lemma {:induction false} IndexBefore(s: string, tail: string, c: char)
    ensures c in s ==> IndexByte(s + tail, c) == IndexByte(s, c) >= 0
    ensures c !in s ==> IndexByte(s, c) == -1 && (IndexByte(s + tail, c) >= 0 ==> IndexByte(s + tail, c) >= |s|)
  {
    if s == "" {
      assert s + tail == tail;
    } else {
      assert s == [s[0]] + s[1..];
      assert (s + tail)[1..] == s[1..] + tail;
      IndexBefore(s[1..], tail, c);
    }
  }

  lemma {:induction false} NameBefore(s: string, tail: string, i: nat)
    requires 1 <= i <= |s| && tail != "" && tail[0] == ';'
    ensures NameEnd(s + tail, i) == NameEnd(s, i)
    decreases |s| - i
  {
    hide IsLetter;
    assert !IsLetter(';') by { NotALetter(); }
    if i < |s| {
      assert (s + tail)[i] == s[i];
      NameBefore(s, tail, i + 1);
    } else {
      assert (s + tail)[i] == ';';
    }
  }

  lemma NotALetter()
    ensures !IsLetter(';')
  {
  }

  /** What follows a semicolon cannot complete a variable reference before it. */
  lemma ExpandBefore(v: Vars, s: Str, tail: Str)
    requires NamesAreWords(v) && s != [] && s[0] == '$' && tail != [] && tail[0] == ';'
    ensures Expand(v, s + tail) == Expand(v, s)
  {
    var all := s + tail;
    if |s| == 1 {
      assert all[1] == ';' && all[..2] == "$;";
      NameBefore(s, tail, 1);
    } else {
      assert all[..2] == s[..2];
      if HasPrefix(s, "${") {
        IndexBefore(s, tail, '}');
        var i := IndexByte(all, '}');
        if '}' in s {
          assert all[2..i] == s[2..i];
          hide ValidEnv;
        } else if i >= 3 {
          assert all[2..i][|s| - 2] == ';';
          BadName(v, all[2..i]);
        }
      } else if !HasPrefix(s, "$?") {
        NameBefore(s, tail, 1);
        var e := NameEnd(s, 1);
        assert all[1..e] == s[1..e];
      }
    }
  }

  lemma BadName(v: Vars, name: string)
    requires NamesAreWords(v) && ';' in name
    ensures !ValidEnv(v, name)
  {
    NotALetter();
    hide IsLetter;
    if name != "" {
      var i :| 0 <= i < |name| && name[i] == ';';
    }
  }

  lemma TurnBefore(v: Vars, s: Str, tail: Str, st: State)
    requires NamesAreWords(v) && s != [] && tail != [] && tail[0] == ';'
    ensures Turn(v, s + tail, st) == Turn(v, s, st)
  {
    hide Expand, IsSpace, WriteRune;
    assert (s + tail)[0] == s[0];
    if s[0] == '$' { ExpandBefore(v, s, tail); }
    if |s| > 1 { assert (s + tail)[1] == s[1]; } else { assert (s + tail)[1] == ';'; }
  }

  /** A line that lexes on its own lexes the same in front of a semicolon. */
  lemma {:induction false} LexBefore(v: Vars, s: Str, rest: Str, st: State)
    requires NamesAreWords(v) && LexRest(v, s, st).Tokens?
    ensures LexRest(v, s + ";" + rest, st)
              == LexRest(v, rest, State(LexRest(v, s, st).tokens + [SEMI], "", NO_QUOTE, false))
    decreases |s|
  {
    hide LexRest, Turn, NamesAreWords;
    var tail: Str := ";" + rest;
    assert s + ";" + rest == s + tail;
    if s == [] {
      assert s + tail == tail && tail[1..] == rest;
      LexRestEnd(v, st);
      SemicolonTurn(v, rest, st);
      LexStep(v, tail, st);
    } else {
      TurnBefore(v, s, tail, st);
      LexStep(v, s, st);
      LexStep(v, s + tail, st);
      match Turn(v, s, st) {
        case Move(next, n) =>
          assert (s + tail)[n..] == s[n..] + tail && s[n..] + ";" + rest == s[n..] + tail;
          LexBefore(v, s[n..], rest, next);
      }
    }
  }

  lemma LexStep(v: Vars, s: Str, st: State)
    requires s != []
    ensures LexRest(v, s, st)
              == match Turn(v, s, st) case Stop(e) => Rejected(e) case Move(next, n) => LexRest(v, s[n..], next)
  {
    hide Turn;
  }

  lemma SemicolonTurn(v: Vars, rest: Str, st: State)
    requires st.quote == NO_QUOTE && !st.escaped
    ensures Turn(v, ";" + rest, st) == Move(State(st.Flush().out + [SEMI], "", NO_QUOTE, false), 1)
  {
  }

  /** The tokens collected so far do not matter to what follows. */
  lemma TurnAfter(v: Vars, s: Str, st: State, past: seq<Token>)
    requires s != []
    ensures Turn(v, s, st.(out := past + st.out))
         == match Turn(v, s, st) case Stop(e) => Stop(e) case Move(next, n) => Move(next.(out := past + next.out), n)
  {
    hide Expand, IsSpace, WriteRune;
    FlushAfter(st, past);
    AppendAfter(past, st.Flush().out, Token([s[0]], true));
    AppendAfter(past, st.Flush().out, Token([s[0], s[0]], true));
  }

  lemma AppendAfter(past: seq<Token>, out: seq<Token>, t: Token)
    ensures (past + out) + [t] == past + (out + [t])
  {
  }

  lemma FlushAfter(st: State, past: seq<Token>)
    ensures st.(out := past + st.out).Flush() == st.Flush().(out := past + st.Flush().out)
  {
    AppendAfter(past, st.out, Token(st.b, false));
  }

  lemma {:induction false} LexAfter(v: Vars, s: Str, st: State, past: seq<Token>)
    ensures LexRest(v, s, st.(out := past + st.out))
         == match LexRest(v, s, st) case Rejected(e) => Rejected(e) case Tokens(t) => Tokens(past + t)
    decreases |s|
  {
    if s == [] {
      assert forall t: Token :: past + (st.out + [t]) == (past + st.out) + [t];
    } else {
      TurnAfter(v, s, st, past);
      hide Turn;
      match Turn(v, s, st) {
        case Stop(_) =>
        case Move(next, n) => LexAfter(v, s[n..], next, past);
      }
    }
  }

  /** `a;b` lexes to the tokens of a, the semicolon and the tokens of b, all under the variables of before. */
  lemma LexPair(v: Vars, a: Str, b: Str)
    requires NamesAreWords(v) && LexSpec(v, a).Tokens? && LexSpec(v, b).Tokens?
    ensures LexSpec(v, Both(a, b)) == Tokens(LexSpec(v, a).tokens + [SEMI] + LexSpec(v, b).tokens)
  {
    hide HasSubstitution, NamesAreWords, LexRest;
    SubstitutionSplit(a, ';', b);
    assert a + ";" + b == a + [';'] + b;
    LexBefore(v, a, b, START);
    var past := LexSpec(v, a).tokens + [SEMI];
    LexAfter(v, b, START, past);
    assert past + [] == past;
  }

  // ------------------------------------------------------------ running a;b

  lemma EmptySegment(p: Persona, s: Session)
    ensures Pipeline(p, s, []) == (s, ZERO)
  {
    hide Glob, Read, Resolve, Lf, Chain, FirstOf;
    var none: seq<Token> := [];
    assert Argv(p, s, none, NO_ARGS) == NO_ARGS && Command(p, s, [], "") == (s, ZERO);
    hide Argv, Command;
    assert Stage(p, s, none, "") == (s, Staged(ZERO));
    hide Stage;
    assert none[..FirstOf(none, ["|"])] == none;
    ChainLaws(ZERO, ZERO, ZERO);
  }

  lemma FirstJoined(ta: seq<Token>, tb: seq<Token>)
    ensures FirstOf(ta + [SEMI] + tb, LIST_OPS) == FirstOf(ta, LIST_OPS)
  {
    var all := ta + [SEMI] + tb;
    var i, j := FirstOf(all, LIST_OPS), FirstOf(ta, LIST_OPS);
    hide FirstOf;
    assert all[|ta|] == SEMI && ";" in LIST_OPS;
    assert forall k :: 0 <= k < |ta| ==> all[k] == ta[k];
  }

  /** The tokens after a semicolon are evaluated in the state that those before it leave. */
  lemma {:induction false} EvalConcat(p: Persona, s: Session, ta: seq<Token>, tb: seq<Token>, previous: string,
      total: Result)
    requires tb != []
    ensures var (s1, r) := EvalFrom(p, s, ta, previous, total);
            EvalFrom(p, s, ta + [SEMI] + tb, previous, total) == EvalFrom(p, s1, tb, ";", r)
    decreases |ta|
  {
    hide Merge, FirstOf, EvalFrom, Segment;
    var all := ta + [SEMI] + tb;
    EvalUnfold(p, s, all, previous, total);
    EvalUnfold(p, s, ta, previous, total);
    FirstJoined(ta, tb);
    var end := FirstOf(ta, LIST_OPS);
    assert all[..end] == ta[..end];
    var (s1, next) := Segment(p, s, ta[..end], previous, total);
    if end == |ta| {
      assert all[end + 1..] == tb && ta[..end] == ta && all[end] == SEMI;
      assert EvalFrom(p, s, all, previous, total) == EvalFrom(p, s1, tb, ";", next);
      if ta == [] { EmptyBefore(p, s, tb, previous, total); }
    } else {
      assert all[end] == ta[end] && all[end + 1..] == ta[end + 1..] + [SEMI] + tb;
      EvalConcat(p, s1, ta[end + 1..], tb, ta[end].text, next);
    }
  }

  /** An empty segment leaves nothing that the next one would see. */
  lemma EmptyBefore(p: Persona, s: Session, tb: seq<Token>, previous: string, total: Result)
    requires tb != []
    ensures var (s1, next) := Segment(p, s, [], previous, total);
            EvalFrom(p, s1, tb, ";", next) == EvalFrom(p, s, tb, ";", total)
  {
    hide EvalFrom, Pipeline, Merge;
    EmptySegment(p, s);
    FreshStart(p, s, tb, total);
    FreshStart(p, s, tb, Merge(total, ZERO));
    var rb := EvalFrom(p, s, tb, ";", ZERO).1;
    MergeLaws(total, ZERO, rb);
    MergeLaws(rb, rb, rb);
  }

  // -------------------------------------- no command asks for the last status

  function At(s: Session, status: int): Session {
    s.(lastStatus := status)
  }

  lemma {:induction false} PutAllAt(s: Session, ws: seq<Write>, x: int)
    ensures PutAll(At(s, x), ws) == At(PutAll(s, ws), x)
    decreases |ws|
  {
    if ws != [] { PutAllAt(Put(s, ws[0]), ws[1..], x); }
  }

  lemma {:induction false} OperandsAt(p: Persona, s: Session, command: string, names: seq<string>, x: int)
    ensures OperandWrites(p, At(s, x), command, names) == OperandWrites(p, s, command, names)
  {
    hide Resolve, Clean;
    if names != [] { OperandsAt(p, s, command, names[1..], x); }
  }

  lemma {:induction false} CatAt(p: Persona, s: Session, r: Result, names: seq<string>, x: int)
    ensures Cat(p, At(s, x), r, names) == Cat(p, s, r, names)
    decreases |names|
  {
    hide Resolve, Crlf, HasSuffix, Read, At;
    if names != [] {
      var path := Resolve(p.home, s.cwd, names[0]);
      ReadAt(p, s, path, x);
      var out := if Read(p, s, path).Some? then r.output + Crlf(Read(p, s, path).value)
          else r.output + r.command + ": " + names[0] + ": No such file or directory\r\n";
      var next := if Read(p, s, path) == None then r.(output := out, exitStatus := 1)
                  else r.(output := if HasSuffix(out, "\r\n") then out else out + "\r\n");
      CatAt(p, s, next, names[1..], x);
    }
  }

  lemma ReadAt(p: Persona, s: Session, path: string, x: int)
    ensures Read(p, At(s, x), path) == Read(p, s, path) && At(s, x).cwd == s.cwd
  {
  }

  lemma {:induction false} ExportAt(s: Session, v: Vars, u: Vars, items: seq<string>, x: int)
    requires v.unicodeName == u.unicodeName
    ensures Export(At(s, x), u, items) == At(Export(s, v, items), x)
    decreases |items|
  {
    hide IndexByte, Ascii, IsLetter, IsDigit;
    if items != [] {
      var i := IndexByte(items[0], '=');
      var next := if i >= 0 && ValidEnv(v, items[0][..i]) then s.(env := s.env[items[0][..i] := items[0][i + 1..]])
          else s;
      ExportAt(next, v, u, items[1..], x);
    }
  }

  lemma {:induction false} UnsetAt(s: Session, names: seq<string>, x: int)
    ensures Unset(At(s, x), names) == At(Unset(s, names), x)
    decreases |names|
  {
    if names != [] { UnsetAt(s.(env := s.env - {names[0]}), names[1..], x); }
  }

  lemma VisibleAt(p: Persona, s: Session, x: int)
    ensures Visible(p, At(s, x)) == Visible(p, s)
  {
  }

  lemma CommandAt(p: Persona, s: Session, args: seq<string>, stdin: string, x: int)
    ensures var (s1, r) := Command(p, s, args, stdin);
            Command(p, At(s, x), args, stdin) == (At(s1, x), r)
  {
    hide Resolve, Base, Crlf, JoinWith, Cat, NonOptions, RuleWrites, OperandWrites, FirstRule, Export, Unset, PutAll,
         Itoa;
    hide Urls, FirstNetwork, Clean, TrimSlash, Visible, HasPrefix;
    if args != [] {
      var name, rest := Base(args[0]), args[1..];
      var r := ZERO.(command := name, arguments := JoinWith(rest, " "));
      forall ws { PutAllAt(s, ws, x); }
      OperandsAt(p, s, name, NonOptions(rest), x);
      CatAt(p, s, r, NonOptions(rest), x);
      ExportAt(s, VarsOf(p, s), VarsOf(p, At(s, x)), rest, x);
      UnsetAt(s, rest, x);
      VisibleAt(p, s, x);
    }
  }

  lemma GlobAt(p: Persona, s: Session, word: string, x: int)
    ensures Glob(p, At(s, x), word) == Glob(p, s, word)
  {
    hide Resolve, Clean, Visible, Matching, TrimSlash, LastSlash, FirstPart, HasPrefix;
    VisibleAt(p, s, x);
    var full := Resolve(p.home, s.cwd, word);
    var dir := TrimSlash(full[..LastSlash(full)]);
    var prefix := TrimSlash(Clean(dir)) + "/";
    assert (set k | k in Visible(p, At(s, x)) && HasPrefix(k, prefix) :: FirstPart(k, prefix))
        == (set k | k in Visible(p, s) && HasPrefix(k, prefix) :: FirstPart(k, prefix));
    assert Listing(p, At(s, x), dir) == Listing(p, s, dir);
  }

  lemma {:induction false} ArgvAt(p: Persona, s: Session, tokens: seq<Token>, sofar: Redirected, x: int)
    requires sofar.Redirected?
    ensures Argv(p, At(s, x), tokens, sofar) == Argv(p, s, tokens, sofar)
    decreases |tokens|
  {
    hide Glob;
    if tokens != [] {
      if !tokens[0].op {
        GlobAt(p, s, tokens[0].text, x);
        ArgvAt(p, s, tokens[1..], sofar.(argv := sofar.argv + Glob(p, s, tokens[0].text)), x);
      } else if |tokens| > 1 {
        ArgvAt(p, s, tokens[2..], sofar.(input := tokens[1].text), x);
        ArgvAt(p, s, tokens[2..], sofar.(output := tokens[1].text, append := tokens[0].text == ">>"), x);
      }
    }
  }

  lemma StageAt(p: Persona, s: Session, tokens: seq<Token>, stdin: string, x: int)
    ensures var (s1, r) := Stage(p, s, tokens, stdin);
            Stage(p, At(s, x), tokens, stdin) == (At(s1, x), r)
  {
    hide Argv, Command, Resolve, Lf;
    ArgvAt(p, s, tokens, NO_ARGS, x);
    var a := Argv(p, s, tokens, NO_ARGS);
    if a.Redirected? {
      forall fed { CommandAt(p, s, a.argv, fed, x); }
    }
  }

  lemma {:induction false} PipeAt(p: Persona, s: Session, tokens: seq<Token>, stdin: string, combined: Result, x: int)
    ensures var (s1, r) := PipeFrom(p, s, tokens, stdin, combined);
            PipeFrom(p, At(s, x), tokens, stdin, combined) == (At(s1, x), r)
    decreases |tokens|
  {
    hide Stage, Chain, Lf, At, FirstOf;
    var end := FirstOf(tokens, ["|"]);
    StageAt(p, s, tokens[..end], stdin, x);
    var (s1, staged) := Stage(p, s, tokens[..end], stdin);
    if staged.Staged? && end < |tokens| {
      PipeAt(p, s1, tokens[end + 1..], Lf(staged.result.output), Chain(combined, staged.result), x);
    }
  }

  /** Evaluation neither reads nor changes the last status: only `$?` in the line's text does. */
  lemma {:induction false} EvalAt(p: Persona, s: Session, tokens: seq<Token>, previous: string, total: Result, x: int)
    ensures var (s1, r) := EvalFrom(p, s, tokens, previous, total);
            EvalFrom(p, At(s, x), tokens, previous, total) == (At(s1, x), r)
    decreases |tokens|
  {
    hide PipeFrom, Merge, At, FirstOf, Runs;
    if tokens != [] {
      var end := FirstOf(tokens, LIST_OPS);
      PipeAt(p, s, tokens[..end], "", ZERO, x);
      var (s1, next) := Segment(p, s, tokens[..end], previous, total);
      assert Segment(p, At(s, x), tokens[..end], previous, total) == (At(s1, x), next);
      hide Segment;
      if end < |tokens| { EvalAt(p, s1, tokens[end + 1..], tokens[end].text, next, x); }
    }
  }

  // ---------------------------------------------------------- one line or two

  lemma Trimmed(line: string)
    requires line != "" && !AsciiSpace(line[0]) && !AsciiSpace(line[|line| - 1])
    ensures TrimSpace(line) == line
  {
  }

  /** A line with something on it that needs no trimming. */
  predicate IsTrim(line: string) {
    line != "" && !AsciiSpace(line[0]) && !AsciiSpace(line[|line| - 1])
  }

  /** Runs in `a;b` the tokens that b had before a ran, in the state that a leaves. */
  lemma RunPair(p: Persona, s: Session, a: Str, b: Str)
    requires NamesAreWords(VarsOf(p, s))
    requires LexSpec(VarsOf(p, s), a).Tokens? && LexSpec(VarsOf(p, s), b).Tokens?
             && LexSpec(VarsOf(p, s), b).tokens != []
    requires IsTrim(Both(a, b))
    ensures var (s1, ra) := EvalFrom(p, s, LexSpec(VarsOf(p, s), a).tokens, ";", ZERO);
            var (s2, rb) := EvalFrom(p, s1, LexSpec(VarsOf(p, s), b).tokens, ";", ZERO);
            var r := Merge(ra, rb);
            RunLine(p, s, Both(a, b))
                == (At(s2, rb.exitStatus), if r.arguments == "" then r.(arguments := Both(a, b)) else r)
  {
    hide EvalFrom, LexSpec, TrimSpace, NamesAreWords, VarsOf, Merge;
    var v := VarsOf(p, s);
    Trimmed(Both(a, b));
    LexPair(v, a, b);
    var ta, tb := LexSpec(v, a).tokens, LexSpec(v, b).tokens;
    EvalConcat(p, s, ta, tb, ";", ZERO);
    var (s1, ra) := EvalFrom(p, s, ta, ";", ZERO);
    FreshStart(p, s1, tb, ra);
    MergeLaws(ra, EvalFrom(p, s1, tb, ";", ZERO).1, ZERO);
  }

  /**
   `a;b` is the line a followed by the line b exactly as far as reading goes: if b has the same tokens after a
   as before, state, output and status are those of the two lines.
   */
  lemma OneLineOrTwo(p: Persona, s: Session, a: Str, b: Str)
    requires NamesAreWords(VarsOf(p, s)) && IsTrim(a) && IsTrim(b)
    requires LexSpec(VarsOf(p, s), a).Tokens? && LexSpec(VarsOf(p, s), b).Tokens?
             && LexSpec(VarsOf(p, s), b).tokens != []
    ensures var (s1, ra) := RunLine(p, s, a);
            LexSpec(VarsOf(p, s1), b) == LexSpec(VarsOf(p, s), b) ==>
              var (s2, rb) := RunLine(p, s1, b);
              var (s3, r) := RunLine(p, s, Both(a, b));
              s3 == s2 && r.(arguments := "") == Merge(ra, rb).(arguments := "")
  {
    hide EvalFrom, LexSpec, TrimSpace, NamesAreWords, VarsOf;
    RunPair(p, s, a, b);
    Trimmed(a);
    Trimmed(b);
    var (s1, ra) := EvalFrom(p, s, LexSpec(VarsOf(p, s), a).tokens, ";", ZERO);
    EvalAt(p, s1, LexSpec(VarsOf(p, s), b).tokens, ";", ZERO, ra.exitStatus);
  }

  // ------------------------------------------------ export A=1; echo $A

  /** Bytes that stand for themselves. */
  predicate Plain(w: string) {
    forall c :: c in w ==> (IsLetter(c) || IsDigit(c) || c == '=') && c as int < 128
  }

  lemma PlainTurn(v: Vars, s: Str, st: State)
    requires st.quote == NO_QUOTE && !st.escaped && s != [] && Plain([s[0]])
    ensures Turn(v, s, st) == Move(st.Write([s[0]]), 1)
  {
    hide Expand;
    assert s[0] in [s[0]];
  }

  lemma {:induction false} LexPlain(v: Vars, w: Str, rest: Str, st: State)
    requires st.quote == NO_QUOTE && !st.escaped && Plain(w)
    ensures LexRest(v, w + rest, st) == LexRest(v, rest, st.Write(w))
    decreases |w|
  {
    hide LexRest, Turn, IsLetter, IsDigit;
    if w == [] {
      assert w + rest == rest && st.b + w == st.b;
    } else {
      var s: Str := w + rest;
      assert s[1..] == w[1..] + rest && s[0] == w[0] && (st.b + [w[0]]) + w[1..] == st.b + w;
      LexStep(v, s, st);
      PlainTurn(v, s, st);
      LexPlain(v, w[1..], rest, st.Write([w[0]]));
    }
  }

  /** A word, a space and another word. */
  lemma LexTwoWords(v: Vars, a: Str, b: Str)
    requires Plain(a) && Plain(b) && a != "" && b != ""
    ensures LexRest(v, a + " " + b, START) == Tokens(AsTokens([a, b]))
  {
    hide LexRest, IsLetter, IsDigit, Plain;
    assert a + " " + b == a + (" " + b) && b + "" == b && "" + a == a && "" + b == b;
    LexPlain(v, a, " " + b, START);
    SpaceAfter(v, b, START.Write(a));
    var st := State([Token(a, false)], "", NO_QUOTE, false);
    assert START.Write(a).Flush() == st;
    LexPlain(v, b, "", st);
    LexRestEnd(v, st.Write(b));
    assert st.Write(b).Flush().out == AsTokens([a, b]);
  }

  /** `$A` alone in a word. */
  lemma LexDollarA(v: Vars, st: State)
    requires st.quote == NO_QUOTE && !st.escaped
    ensures LexRest(v, "$A", st) == Tokens(st.Write(Lookup(v, "A")).Flush().out)
  {
    var s: Str := "$A";
    assert NameEnd(s, 2) == 2 && NameEnd(s, 1) == 2 && s[1..2] == "A" && s[..2] != "${" && s[..2] != "$?";
    assert Expand(v, s) == Some(Expansion(Lookup(v, "A"), 2));
    hide Expand, Lookup;
    LexStep(v, s, st);
    hide LexRest;
    assert s[2..] == [];
    LexRestEnd(v, st.Write(Lookup(v, "A")));
  }

  lemma LexEchoA(v: Vars)
    ensures LexRest(v, "echo $A", START)
              == Tokens(AsTokens(if Lookup(v, "A") == "" then ["echo"] else ["echo", Lookup(v, "A")]))
  {
    hide LexRest, Lookup;
    var value := Lookup(v, "A");
    assert "echo $A" == "echo" + (" " + "$A") && "" + "echo" == "echo" && "" + value == value;
    LexPlain(v, "echo", " " + "$A", START);
    SpaceAfter(v, "$A", START.Write("echo"));
    var st := State([Token("echo", false)], "", NO_QUOTE, false);
    assert START.Write("echo").Flush() == st;
    LexDollarA(v, st);
  }

  /** One command of plain words. */
  lemma {:induction false} WordArgv(p: Persona, s: Session, ws: seq<string>, sofar: Redirected)
    requires sofar.Redirected? && forall w :: w in ws ==> '*' !in w && '?' !in w
    ensures Argv(p, s, AsTokens(ws), sofar) == sofar.(argv := sofar.argv + ws)
  {
    if ws == [] {
      assert sofar.argv + ws == sofar.argv;
    } else {
      assert AsTokens(ws)[1..] == AsTokens(ws[1..]);
      assert (sofar.argv + [ws[0]]) + ws[1..] == sofar.argv + ws;
      assert Glob(p, s, ws[0]) == [ws[0]];
      hide Glob;
      WordArgv(p, s, ws[1..], sofar.(argv := sofar.argv + [ws[0]]));
    }
  }

  lemma WordLine(p: Persona, s: Session, ws: seq<string>)
    requires ws != [] && forall w :: w in ws ==> '*' !in w && '?' !in w
    ensures EvalFrom(p, s, AsTokens(ws), ";", ZERO) == Command(p, s, ws, "")
  {
    hide Argv, Command, Read, Resolve, Lf, Merge, Chain, FirstOf;
    var t := AsTokens(ws);
    WordArgv(p, s, ws, NO_ARGS);
    assert [] + ws == ws;
    var (s1, r) := Command(p, s, ws, "");
    assert Stage(p, s, t, "") == (s1, Staged(r));
    hide Stage;
    assert t[..|t|] == t && FirstOf(t, ["|"]) == |t| && FirstOf(t, LIST_OPS) == |t|;
    ChainLaws(r, ZERO, ZERO);
    MergeLaws(r, r, r);
  }

  lemma {:induction false} NoSubstitutionIn(s: string)
    requires '(' !in s
    ensures !HasSubstitution(s)
  {
    if s != "" { NoSubstitutionIn(s[1..]); }
  }

  lemma NothingForbidden(s: Str)
    requires '(' !in s && '`' !in s && '\n' !in s && '\r' !in s
    ensures !Forbidden(s)
  {
    NoSubstitutionIn(s);
  }

  function Two(a: Str, b: Str): Str {
    a + " " + b
  }

  lemma TwoWords(v: Vars, a: Str, b: Str)
    requires Plain(a) && Plain(b) && a != "" && b != ""
    ensures LexSpec(v, Two(a, b)) == Tokens(AsTokens([a, b]))
  {
    hide LexRest, Forbidden, IsLetter, IsDigit;
    PlainOnly(a);
    PlainOnly(b);
    NothingForbidden(Two(a, b));
    LexTwoWords(v, a, b);
  }

  lemma PlainOnly(w: Str)
    requires Plain(w)
    ensures '(' !in w && '`' !in w && '\n' !in w && '\r' !in w && '*' !in w && '?' !in w
  {
  }

  const EXPORT: Str := "export A=1"
  const ECHO: Str := "echo $A"

  lemma ExportLexes(v: Vars)
    ensures LexSpec(v, EXPORT) == Tokens(AsTokens(["export", "A=1"]))
  {
    hide LexSpec;
    TwoWords(v, "export", "A=1");
    assert Two("export", "A=1") == EXPORT;
  }

  /** With or without the space in front. */
  lemma EchoLexes(v: Vars)
    ensures var words := AsTokens(if Lookup(v, "A") == "" then ["echo"] else ["echo", Lookup(v, "A")]);
            LexSpec(v, " " + ECHO) == Tokens(words) && LexSpec(v, ECHO) == Tokens(words)
  {
    hide LexRest, Lookup, Forbidden;
    NothingForbidden(" " + ECHO);
    NothingForbidden(ECHO);
    SpaceAfter(v, ECHO, START);
    LexEchoA(v);
  }

  lemma Names()
    ensures Base("export") == "export" && Base("echo") == "echo"
  {
    hide Split;
    SplitWhole("export", '/');
    SplitWhole("echo", '/');
  }

  lemma ExportA(s: Session, v: Vars)
    ensures Export(s, v, ["A=1"]) == s.(env := s.env["A" := "1"])
  {
    var item := "A=1";
    assert IndexByte(item[1..], '=') == 0 && IndexByte(item, '=') == 1 && item[..1] == "A" && item[2..] == "1";
    assert ValidEnv(v, "A");
    hide ValidEnv, IndexByte;
    assert ["A=1"][1..] == [];
  }

  lemma ExportCommand(p: Persona, s: Session)
    requires FirstRule(p.rules, "export", ["A=1"]) == None
    ensures Command(p, s, ["export", "A=1"], "").0 == s.(env := s.env["A" := "1"])
    ensures Command(p, s, ["export", "A=1"], "").1.output == ""
  {
    hide FirstRule, VarsOf, Base, Export, JoinWith;
    Names();
    ExportA(s, VarsOf(p, s));
    assert ["export", "A=1"][1..] == ["A=1"];
  }

  lemma EchoCommand(p: Persona, s: Session, words: seq<string>)
    requires FirstRule(p.rules, "echo", words) == None
    ensures Command(p, s, ["echo"] + words, "").1.output == JoinWith(words, " ") + "\r\n"
    ensures Command(p, s, ["echo"] + words, "").0 == s
  {
    hide FirstRule, JoinWith, Base;
    Names();
    assert (["echo"] + words)[1..] == words;
  }

  /** A line of plain words runs as one command. */
  lemma WordsRun(p: Persona, s: Session, line: Str, ws: seq<string>)
    requires IsTrim(line) && ws != [] && (forall w :: w in ws ==> '*' !in w && '?' !in w)
    requires LexSpec(VarsOf(p, s), line) == Tokens(AsTokens(ws))
    ensures RunLine(p, s, line).1.output == Command(p, s, ws, "").1.output
  {
    hide LexSpec, EvalFrom, Command, VarsOf, TrimSpace;
    Trimmed(line);
    WordLine(p, s, ws);
  }

  lemma Literals()
    ensures IsTrim(ECHO) && IsTrim(Both(EXPORT, " " + ECHO))
    ensures JoinWith([], " ") == "" && JoinWith(["1"], " ") == "1" && ["echo"] + [] == ["echo"]
            && ["echo"] + ["1"] == ["echo", "1"]
    ensures forall w :: w in ["export", "A=1"] || w in ["echo"] || w in ["echo", "1"] ==> '*' !in w && '?' !in w
  {
  }

  /** The `$A` after the semicolon was read before A was set: it prints nothing, and on the next line prints 1. */
  lemma ExportThenEcho(p: Persona, s: Session)
    requires NamesAreWords(VarsOf(p, s)) && "A" !in s.env
    requires FirstRule(p.rules, "export", ["A=1"]) == None
    requires FirstRule(p.rules, "echo", []) == None && FirstRule(p.rules, "echo", ["1"]) == None
    ensures var (s1, r1) := RunLine(p, s, Both(EXPORT, " " + ECHO));
            r1.output == "\r\n" && RunLine(p, s1, ECHO).1.output == "1\r\n"
  {
    hide FirstRule, NamesAreWords, LexSpec, RunLine, EvalFrom, Command, IsTrim, Both, JoinWith, AsTokens, Itoa;
    var v := VarsOf(p, s);
    Literals();
    ExportLexes(v);
    EchoLexes(v);
    RunPair(p, s, EXPORT, " " + ECHO);
    WordLine(p, s, ["export", "A=1"]);
    ExportCommand(p, s);
    var after := s.(env := s.env["A" := "1"]);
    WordLine(p, after, ["echo"]);
    EchoCommand(p, after, []);
    var s1 := RunLine(p, s, Both(EXPORT, " " + ECHO)).0;
    EchoLexes(VarsOf(p, s1));
    WordsRun(p, s1, ECHO, ["echo", "1"]);
    EchoCommand(p, s1, ["1"]);
  }
}
