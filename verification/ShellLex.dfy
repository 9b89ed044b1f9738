/** The emulated shell's tokeniser: quoting, escapes, variable expansion and operators. */
module ShellLex {
  import opened Text

  datatype Token = Token(text: string, op: bool)

  datatype LexError = Unsupported | BadSubstitution | JobControl | UnclosedQuote

  datatype Lexed = Tokens(tokens: seq<Token>) | Rejected(error: LexError)

  /** `unicodeName` decides variable names with bytes outside ASCII, which Go reads as UTF-8. */
  datatype Vars = Vars(values: map<string, string>, lastStatus: string, unicodeName: string -> bool)

  // ----------------------------------------------------- character classes

  predicate Ascii(s: string) {
    forall i :: 0 <= i < |s| ==> s[i] as int < 128
  }

  /** unicode.IsLetter on one Latin-1 code point. */
  predicate IsLetter(c: char) {
    'a' <= c <= 'z' || 'A' <= c <= 'Z' || c as int == 0xAA || c as int == 0xB5 || c as int == 0xBA
    || 0xC0 <= c as int <= 0xD6 || 0xD8 <= c as int <= 0xF6 || 0xF8 <= c as int <= 0xFF
  }

  predicate IsDigit(c: char) {
    '0' <= c <= '9'
  }

  predicate IsSpace(c: char) {
    9 <= c as int <= 13 || c == ' ' || c as int == 0x85 || c as int == 0xA0
  }

  /** strings.Builder.WriteRune of a byte taken as a rune: two bytes of UTF-8 from 128 on. */
  function WriteRune(c: char): (s: string)
    requires c as int < 256
    ensures 1 <= |s| <= 2
  {
    if c as int < 128 then [c] else [(0xC0 + c as int / 64) as char, (0x80 + c as int % 64) as char]
  }

  // -------------------------------------------------------------- expansion

  predicate ValidEnv(v: Vars, name: string) {
    && name != ""
    && if !Ascii(name) then v.unicodeName(name)
       else !IsDigit(name[0]) && forall i :: 0 <= i < |name| ==> name[i] == '_' || IsLetter(name[i]) || IsDigit(name[i])
  }

  /** strings.IndexByte; -1 if absent. */
  function IndexByte(s: string, c: char): (i: int)
    ensures -1 <= i < |s|
    ensures i >= 0 ==> s[i] == c
    ensures forall j :: 0 <= j < (if i < 0 then |s| else i) ==> s[j] != c
  {
    if s == [] then -1 else if s[0] == c then 0 else var r := IndexByte(s[1..], c); if r < 0 then -1 else r + 1
  }

  /** How far an unbraced name reaches: the index of the first byte that is not part of it. */
  function NameEnd(s: string, i: nat): (e: nat)
    requires 1 <= i <= |s|
    ensures i <= e <= |s|
    decreases |s| - i
  {
    if i < |s| && (s[i] == '_' || IsLetter(s[i]) || (i > 1 && IsDigit(s[i]))) then NameEnd(s, i + 1) else i
  }

  function Lookup(v: Vars, name: string): string {
    if name in v.values then v.values[name] else ""
  }

  datatype Expansion = Expansion(value: string, length: nat)

  function Expand(v: Vars, s: string): (r: Option<Expansion>)
    requires s != [] && s[0] == '$'
    ensures r.Some? ==> 1 < r.value.length <= |s|
  {
    if HasPrefix(s, "$?") then Some(Expansion(v.lastStatus, 2))
    else if HasPrefix(s, "${") then
      var i := IndexByte(s, '}');
      if i < 3 || !ValidEnv(v, s[2..i]) then None else Some(Expansion(Lookup(v, s[2..i]), i + 1))
    else
      var e := NameEnd(s, 1);
      if e == 1 then None else Some(Expansion(Lookup(v, s[1..e]), e))
  }

  // ------------------------------------------------------------ the tokens

  const NO_QUOTE := '\0'

  datatype State = State(out: seq<Token>, b: string, quote: char, escaped: bool) {
    function Write(s: string): State { this.(b := b + s) }
    function Flush(): State { if b == "" then this else this.(out := out + [Token(b, false)], b := "") }
  }

  datatype Move = Move(st: State, n: nat) | Stop(error: LexError)

  /** One turn of the loop at the front of `s`: the new state and the bytes consumed. */
  function Turn(v: Vars, s: Str, st: State): (m: Move)
    requires s != []
    ensures m.Move? ==> 1 <= m.n <= |s|
  {
    var c := s[0];
    if st.escaped then Move(st.Write(WriteRune(c)).(escaped := false), 1)
    else if c == '\\' && st.quote != '\'' then Move(st.(escaped := true), 1)
    else if st.quote != NO_QUOTE then
      if c == st.quote then Move(st.(quote := NO_QUOTE), 1)
      else if c == '$' && st.quote == '"' && Expand(v, s).Some? then
        Move(st.Write(Expand(v, s).value.value), Expand(v, s).value.length)
      else Move(st.Write(WriteRune(c)), 1)
    else if c == '\'' || c == '"' then Move(st.(quote := c), 1)
    else if IsSpace(c) then Move(st.Flush(), 1)
    else if c == '$' then
      match Expand(v, s)
      case None => Stop(BadSubstitution)
      case Some(x) => Move(st.Write(x.value), x.length)
    else if c in "(){}" then Stop(Unsupported)
    else if c in ";|&><" then
      var double := |s| > 1 && s[1] == c && c in "&|>";
      if c == '&' && !double then Stop(JobControl)
      else
        var f := st.Flush();
        Move(f.(out := f.out + [Token(if double then [c, c] else [c], true)]), if double then 2 else 1)
    else Move(st.Write(WriteRune(c)), 1)
  }

  function LexRest(v: Vars, s: Str, st: State): Lexed
    decreases |s|
  {
    if s == [] then
      if st.quote != NO_QUOTE || st.escaped then Rejected(UnclosedQuote) else Tokens(st.Flush().out)
    else
      match Turn(v, s, st)
      case Stop(e) => Rejected(e)
      case Move(next, n) => LexRest(v, s[n..], next)
  }

  /** "$(" anywhere in the line. */
  predicate HasSubstitution(s: string) {
    |s| >= 2 && ((s[0] == '$' && s[1] == '(') || HasSubstitution(s[1..]))
  }

  predicate Forbidden(s: string) {
    '`' in s || '\n' in s || '\r' in s || HasSubstitution(s)
  }

  const START := State([], "", NO_QUOTE, false)

  function LexSpec(v: Vars, line: Str): Lexed {
    if Forbidden(line) then Rejected(Unsupported) else LexRest(v, line, START)
  }

  /**
   The tokeniser loop: one pass over the line by index, with the pending word, the open quote and the
   escape as local state.
   */
  method Lex(v: Vars, line: Str) returns (r: Lexed)
    ensures r == LexSpec(v, line)
  {
    hide HasSubstitution, Expand, IsSpace, WriteRune, LexRest;
    if Forbidden(line) { return Rejected(Unsupported); }
    var out: seq<Token>, b: string, quote, escaped := [], "", NO_QUOTE, false;
    var i := 0;
    while i < |line|
      invariant 0 <= i <= |line|
      invariant LexRest(v, line, START) == LexRest(v, line[i..], State(out, b, quote, escaped))
    {
      var c := line[i];
      ghost var st, s := State(out, b, quote, escaped), line[i..];
      LexRestMove(v, line, i, st);
      if escaped {
        b, escaped, i := b + WriteRune(c), false, i + 1;
        continue;
      }
      if c == '\\' && quote != '\'' {
        escaped, i := true, i + 1;
        continue;
      }
      if quote != NO_QUOTE {
        if c == quote {
          quote, i := NO_QUOTE, i + 1;
          continue;
        }
        if c == '$' && quote == '"' {
          var x := Expand(v, line[i..]);
          if x.Some? {
            b, i := b + x.value.value, i + x.value.length;
            continue;
          }
        }
        b, i := b + WriteRune(c), i + 1;
        continue;
      }
      if c == '\'' || c == '"' {
        quote, i := c, i + 1;
        continue;
      }
      if IsSpace(c) {
        if b != "" { out, b := out + [Token(b, false)], ""; }
        i := i + 1;
        continue;
      }
      if c == '$' {
        var x := Expand(v, line[i..]);
        if x == None { return Rejected(BadSubstitution); }
        b, i := b + x.value.value, i + x.value.length;
        continue;
      }
      if c in "(){}" { return Rejected(Unsupported); }
      if c in ";|&><" {
        if b != "" { out, b := out + [Token(b, false)], ""; }
        if i + 1 < |line| && line[i + 1] == c && c in "&|>" {
          assert s[1] == line[i + 1];
          out, i := out + [Token([c, c], true)], i + 2;
          continue;
        }
        assert |s| > 1 ==> s[1] == line[i + 1];
        if c == '&' { return Rejected(JobControl); }
        out, i := out + [Token([c], true)], i + 1;
        continue;
      }
      b, i := b + WriteRune(c), i + 1;
    }
    LexRestEnd(v, State(out, b, quote, escaped));
    if quote != NO_QUOTE || escaped { return Rejected(UnclosedQuote); }
    return Tokens(if b == "" then out else out + [Token(b, false)]);
  }

  lemma LexRestEnd(v: Vars, st: State)
    ensures LexRest(v, [], st)
              == if st.quote != NO_QUOTE || st.escaped then Rejected(UnclosedQuote) else Tokens(st.Flush().out)
  {
  }

  lemma LexRestMove(v: Vars, line: Str, i: nat, st: State)
    requires i < |line|
    ensures var s: Str := line[i..];
            LexRest(v, s, st) == match Turn(v, s, st)
                                 case Stop(e) => Rejected(e)
                                 case Move(next, n) => LexRest(v, line[i + n..], next)
  {
    hide Turn;
    var s: Str := line[i..];
    match Turn(v, s, st) {
      case Stop(e) =>
      case Move(next, n) => assert s[n..] == line[i + n..];
    }
  }
}
