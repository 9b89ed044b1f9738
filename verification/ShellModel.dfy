/** The emulated shell over values: what one command, pipeline or line does to the session state. */
module ShellModel {
  import opened Text
  import opened Paths
  import opened ShellLex

  datatype Rule = Rule(
    command: string, argsExact: seq<string>, argsPrefix: seq<string>, argsContains: seq<string>,
    output: string, exitStatus: int, observation: string, delayMS: int,
    setFiles: seq<(string, string)>, removeFiles: seq<string>)

  datatype NetworkRule = NetworkRule(urlPrefix: string, success: bool, body: string, filename: string, exitStatus: int)

  /**
   `canned` answers the commands that only read directory, files and variables, `globs` is path.Match and
   `quoted` is the escaping used in error messages.
   */
  datatype Persona = Persona(
    files: map<string, string>,
    home: string,
    rules: seq<Rule>,
    network: seq<NetworkRule>,
    canned: (Session, seq<string>, string) -> Result,
    globs: (string, string) -> bool,
    quoted: string -> string,
    unicodeName: string -> bool)

  /** A change to the overlay: a new body, or None for a tombstone. */
  datatype Write = Write(path: string, body: Option<string>)

  /** `writes` logs every overlay change of the session in order. */
  datatype Session = Session(cwd: string, overlay: map<string, Option<string>>, env: map<string, string>,
      lastStatus: int, writes: seq<Write>)

  datatype Result = Result(
    output: string, command: string, arguments: string, unsupported: bool, urls: seq<string>,
    exit: bool, exitStatus: int, gap: string, observation: string, delayMS: int)

  const ZERO := Result("", "", "", false, [], false, 0, "", "", 0)

  function Initial(p: Persona, env: map<string, string>): Session {
    Session(p.home, map[], env, 0, [])
  }

  // ---------------------------------------------------------------- text

  function Lf(s: string): string {
    if s == "" then "" else if HasPrefix(s, "\r\n") then "\n" + Lf(s[2..]) else [s[0]] + Lf(s[1..])
  }

  function Crlf(s: string): string {
    ToCrlf(Lf(s))
  }

  function ToCrlf(s: string): string {
    if s == "" then "" else (if s[0] == '\n' then "\r\n" else [s[0]]) + ToCrlf(s[1..])
  }

  function JoinWith(parts: seq<string>, sep: string): string {
    if parts == [] then "" else if |parts| == 1 then parts[0] else parts[0] + sep + JoinWith(parts[1..], sep)
  }

  function NonOptions(args: seq<string>): seq<string> {
    if args == [] then [] else (if HasPrefix(args[0], "-") then [] else [args[0]]) + NonOptions(args[1..])
  }

  function Itoa(n: int): string
    decreases if n < 0 then 1 - n else n
  {
    if n < 0 then "-" + Itoa(-n)
      else if n < 10 then [('0' as int + n) as char] else Itoa(n / 10) + [('0' as int + n % 10) as char]
  }

  // ---------------------------------------------------------- file system

  function Put(s: Session, w: Write): Session {
    s.(overlay := s.overlay[w.path := w.body], writes := s.writes + [w])
  }

  function PutAll(s: Session, ws: seq<Write>): Session
    decreases |ws|
  {
    if ws == [] then s else PutAll(Put(s, ws[0]), ws[1..])
  }

  function Read(p: Persona, s: Session, path: string): Option<string> {
    if path in s.overlay then s.overlay[path] else if path in p.files then Some(p.files[path]) else None
  }

  function TrimSlash(d: string): string {
    if d != "" && d[|d| - 1] == '/' then d[..|d| - 1] else d
  }

  /** The keys that isDir and list look at: base files, and overlay entries that are not tombstones. */
  function Visible(p: Persona, s: Session): set<string> {
    p.files.Keys + set k | k in s.overlay && s.overlay[k].Some?
  }

  predicate IsDir(p: Persona, s: Session, dir: string) {
    var d := TrimSlash(Clean(dir)) + "/";
    d == "//" || d == "/" || exists k :: k in Visible(p, s) && HasPrefix(k, d)
  }

  /** The element of k just below `prefix`. */
  function FirstPart(k: string, prefix: string): string {
    if HasPrefix(k, prefix) then Split(k[|prefix|..], '/')[0] else ""
  }

  ghost function Listing(p: Persona, s: Session, dir: string): seq<string> {
    var d := Clean(dir);
    var prefix := TrimSlash(d) + "/";
    if !IsDir(p, s, d) then []
      else SortedNames(set k | k in Visible(p, s) && HasPrefix(k, prefix) :: FirstPart(k, prefix))
  }

  function LastSlash(v: string): (i: nat)
    ensures i <= |v|
  {
    if v == "" || v[|v| - 1] == '/' then |v| else LastSlash(v[..|v| - 1])
  }

  ghost function Matching(p: Persona, names: seq<string>, pattern: string, dir: string, joined: bool): seq<string> {
    if names == [] then []
    else (if p.globs(pattern, names[0]) then [if joined then Join(dir, names[0]) else names[0]] else [])
         + Matching(p, names[1..], pattern, dir, joined)
  }

  ghost function Glob(p: Persona, s: Session, v: string): seq<string> {
    if '*' !in v && '?' !in v then [v]
    else
      var full := Resolve(p.home, s.cwd, v);
      var cut := LastSlash(full);
      var out := Matching(p, Listing(p, s, TrimSlash(full[..cut])), full[cut..], full[..cut], '/' in v);
      if out == [] then [v] else out
  }

  // ------------------------------------------------------------- commands

  function RuleMatches(r: Rule, command: string, args: seq<string>): bool {
    && r.command == command
    && (r.argsExact == [] || JoinWith(r.argsExact, "\0") == JoinWith(args, "\0"))
    && |r.argsPrefix| <= |args| && (forall i :: 0 <= i < |r.argsPrefix| ==> args[i] == r.argsPrefix[i])
    && (forall i :: 0 <= i < |r.argsContains| ==> Contains(JoinWith(args, " "), r.argsContains[i]))
  }

  function FirstRule(rules: seq<Rule>, command: string, args: seq<string>): Option<Rule> {
    if rules == [] then None
      else if RuleMatches(rules[0], command, args) then Some(rules[0]) else FirstRule(rules[1..], command, args)
  }

  function RuleWrites(r: Rule): seq<Write> {
    seq(|r.setFiles|, i requires 0 <= i < |r.setFiles| => Write(Clean(r.setFiles[i].0), Some(r.setFiles[i].1)))
    + seq(|r.removeFiles|, i requires 0 <= i < |r.removeFiles| => Write(Clean(r.removeFiles[i]), None))
  }

  /** touch, mkdir and rm: one write per operand. */
  function OperandWrites(p: Persona, s: Session, command: string, names: seq<string>): seq<Write> {
    if names == [] then []
    else
      var path := Resolve(p.home, s.cwd, names[0]);
      var w := if command == "rm" then Write(path, None)
               else if command == "mkdir" then Write(Clean(path) + "/", Some(""))
               else Write(path, Some(""));
      [w] + OperandWrites(p, s, command, names[1..])
  }

  function Cat(p: Persona, s: Session, r: Result, names: seq<string>): Result
    decreases |names|
  {
    if names == [] then r
    else
      var next := match Read(p, s, Resolve(p.home, s.cwd, names[0]))
        case Some(body) =>
          var out := r.output + Crlf(body);
          r.(output := if HasSuffix(out, "\r\n") then out else out + "\r\n")
        case None => r.(output := r.output + r.command + ": " + names[0] + ": No such file or directory\r\n",
            exitStatus := 1);
      Cat(p, s, next, names[1..])
  }

  function Export(s: Session, v: Vars, items: seq<string>): Session
    decreases |items|
  {
    if items == [] then s
    else
      var i := IndexByte(items[0], '=');
      Export(if i >= 0 && ValidEnv(v, items[0][..i]) then s.(env := s.env[items[0][..i] := items[0][i + 1..]])
          else s, v, items[1..])
  }

  function Unset(s: Session, names: seq<string>): Session
    decreases |names|
  {
    if names == [] then s else Unset(s.(env := s.env - {names[0]}), names[1..])
  }

  predicate IsUrl(a: string) {
    HasPrefix(a, "http://") || HasPrefix(a, "https://")
  }

  function Urls(args: seq<string>): seq<string> {
    if args == [] then [] else (if IsUrl(args[0]) then [args[0]] else []) + Urls(args[1..])
  }

  function FirstNetwork(rules: seq<NetworkRule>, url: string): Option<NetworkRule> {
    if rules == [] then None
      else if HasPrefix(url, rules[0].urlPrefix) then Some(rules[0]) else FirstNetwork(rules[1..], url)
  }

  function Network(p: Persona, s: Session, r: Result, args: seq<string>): (Session, Result) {
    var urls := Urls(args);
    var url := if urls == [] then "" else urls[|urls| - 1];
    var r1 := r.(urls := urls);
    match FirstNetwork(p.network, url)
    case None => (s, r1.(output := r.command + ": unable to resolve host address\r\n", exitStatus := 6))
    case Some(rule) =>
      if !rule.success then
        (s, r1.(output := r.command + ": unable to resolve host address\r\n",
            exitStatus := if rule.exitStatus == 0 then 6 else rule.exitStatus))
      else
        var filename := if rule.filename == "" && r.command == "wget" then Base(url) else rule.filename;
        if filename == "" then (s, r1.(output := Crlf(rule.body), exitStatus := rule.exitStatus))
        else (Put(s, Write(Resolve(p.home, s.cwd, filename), Some(rule.body))),
              r1.(output := "--2026-01-01--  " + url + "\r\nSaving to: '" + filename + "'\r\n",
                  exitStatus := rule.exitStatus))
  }

  /** The session as commands see it: they do not ask for the last status. */
  function View(s: Session): Session {
    s.(lastStatus := 0, writes := [])
  }

  function VarsOf(p: Persona, s: Session): Vars {
    Vars(s.env, Itoa(s.lastStatus), p.unicodeName)
  }

  function Command(p: Persona, s: Session, args: seq<string>, stdin: string): (Session, Result) {
    if args == [] then (s, ZERO)
    else
      var name, rest := Base(args[0]), args[1..];
      var r := ZERO.(command := name, arguments := JoinWith(rest, " "));
      match FirstRule(p.rules, name, rest)
      case Some(rule) =>
        (PutAll(s, RuleWrites(rule)),
         r.(output := Crlf(rule.output), exitStatus := rule.exitStatus, observation := rule.observation,
             delayMS := rule.delayMS))
      case None =>
        if name == "exit" || name == "logout" then (s, r.(exit := true))
        else if name == "pwd" then (s, r.(output := s.cwd + "\r\n"))
        else if name == "cd" then
          var target := if rest == [] then p.home else Resolve(p.home, s.cwd, rest[0]);
          if IsDir(p, s, target) then (s.(cwd := target, env := s.env["PWD" := target]), r)
          else (s, r.(output := "-bash: cd: " + (if rest == [] then "" else p.quoted(rest[0]))
              + ": No such file or directory\r\n", exitStatus := 1))
        else if name == "cat" || name == "head" || name == "tail" then
          var names := NonOptions(rest);
          (s, if names == [] then r.(output := Crlf(stdin)) else Cat(p, s, r, names))
        else if name == "touch" || name == "mkdir" || name == "rm"
            then (PutAll(s, OperandWrites(p, s, name, NonOptions(rest))), r)
        else if name == "echo" then (s, r.(output := JoinWith(rest, " ") + "\r\n"))
        else if name == "export" then (Export(s, VarsOf(p, s), rest), r)
        else if name == "unset" then (Unset(s, rest), r)
        else if name == "curl" || name == "wget" then Network(p, s, r, rest)
        else (s, p.canned(View(s), args, stdin))
  }

  // ------------------------------------------------------------- pipelines

  datatype Redirected = BadSyntax(why: string) | Redirected(argv: seq<string>, input: string, output: string,
      append: bool)

  ghost function Argv(p: Persona, s: Session, tokens: seq<Token>, sofar: Redirected): Redirected
    requires sofar.Redirected?
    decreases |tokens|
  {
    if tokens == [] then sofar
    else if tokens[0].op then
      if tokens[0].text !in ["<", ">", ">>"] then BadSyntax("syntax not supported")
      else if |tokens| == 1 || tokens[1].op then BadSyntax("missing redirection target")
      else Argv(p, s, tokens[2..],
             if tokens[0].text == "<" then sofar.(input := tokens[1].text)
             else sofar.(output := tokens[1].text, append := tokens[0].text == ">>"))
    else Argv(p, s, tokens[1..], sofar.(argv := sofar.argv + Glob(p, s, tokens[0].text)))
  }

  const NO_ARGS := Redirected([], "", "", false)

  /** What one stage does with the text it is fed; an error ends the whole pipeline. */
  datatype Staged = Broken(error: Result) | Staged(result: Result)

  ghost function Stage(p: Persona, s: Session, tokens: seq<Token>, stdin: string): (Session, Staged) {
    match Argv(p, s, tokens, NO_ARGS)
    case BadSyntax(why) => (s,
        Broken(ZERO.(output := "-bash: " + why + "\r\n", unsupported := true, exitStatus := 2,
        gap := "invalid redirection")))
    case Redirected(argv, input, output, append) =>
      var source := if input == "" then Some(stdin) else Read(p, s, Resolve(p.home, s.cwd, input));
      match source
      case None => (s, Broken(ZERO.(output := "-bash: " + input + ": No such file or directory\r\n", exitStatus := 1)))
      case Some(fed) =>
        var (s1, r) := Command(p, s, argv, fed);
        if output == "" then (s1, Staged(r))
        else
          var path := Resolve(p.home, s1.cwd, output);
          var before := if append && Read(p, s1, path).Some? then Read(p, s1, path).value else "";
          (Put(s1, Write(path, Some(before + Lf(r.output)))), Staged(r.(output := "")))
  }

  /** Later stages replace output and status; the rest accumulates. */
  function Chain(a: Result, b: Result): Result {
    Result(b.output, b.command, b.arguments, a.unsupported || b.unsupported, a.urls + b.urls, a.exit
        || b.exit, b.exitStatus,
           if b.gap != "" then b.gap
             else a.gap, if b.observation != "" then b.observation else a.observation, a.delayMS + b.delayMS)
  }

  /** Where the first token equal to one of `ops` stands; |tokens| if none. */
  function FirstOf(tokens: seq<Token>, ops: seq<string>): (i: nat)
    ensures i <= |tokens|
    ensures i < |tokens| ==> tokens[i].op && tokens[i].text in ops
    ensures forall j :: 0 <= j < i ==> !(tokens[j].op && tokens[j].text in ops)
  {
    if tokens == [] then 0 else if tokens[0].op && tokens[0].text in ops then 0 else 1 + FirstOf(tokens[1..], ops)
  }

  ghost function PipeFrom(p: Persona, s: Session, tokens: seq<Token>, stdin: string, combined: Result): (Session,
      Result)
    decreases |tokens|
  {
    var end := FirstOf(tokens, ["|"]);
    var (s1, staged) := Stage(p, s, tokens[..end], stdin);
    match staged
    case Broken(error) => (s1, error)
    case Staged(r) =>
      var next := Chain(combined, r);
      if end == |tokens| then (s1, next) else PipeFrom(p, s1, tokens[end + 1..], Lf(r.output), next)
  }

  ghost function Pipeline(p: Persona, s: Session, tokens: seq<Token>): (Session, Result) {
    PipeFrom(p, s, tokens, "", ZERO)
  }

  // ----------------------------------------------------------------- lists

  function Merge(a: Result, b: Result): Result {
    Chain(a, b).(output := a.output + b.output)
  }

  const LIST_OPS := [";", "&&", "||"]

  /** Whether the segment after `previous` runs, given the result so far. */
  predicate Runs(previous: string, total: Result) {
    previous == ";" || (previous == "&&" && total.exitStatus == 0) || (previous == "||" && total.exitStatus != 0)
  }

  /** The next segment runs and is merged into the result, or is skipped. */
  ghost function Segment(p: Persona, s: Session, tokens: seq<Token>, previous: string, total: Result): (Session,
      Result) {
    if !Runs(previous, total) then (s, total) else
      var (s1, r) := Pipeline(p, s, tokens);
      (s1, Merge(total, r))
  }

  ghost function EvalFrom(p: Persona, s: Session, tokens: seq<Token>, previous: string, total: Result): (Session,
      Result)
    decreases |tokens|
  {
    if tokens == [] then (s, total)
    else
      var end := FirstOf(tokens, LIST_OPS);
      var (s1, next) := Segment(p, s, tokens[..end], previous, total);
      if end == |tokens| then (s1, next) else EvalFrom(p, s1, tokens[end + 1..], tokens[end].text, next)
  }

  function TrimSpace(s: string): string {
    if s != "" && AsciiSpace(s[0]) then TrimSpace(s[1..])
    else if s != "" && AsciiSpace(s[|s| - 1]) then TrimSpace(s[..|s| - 1])
    else s
  }

  lemma {:induction false} TrimSpaceBytes(s: Str)
    ensures forall i :: 0 <= i < |TrimSpace(s)| ==> TrimSpace(s)[i] as int < 256
  {
    if s != "" && AsciiSpace(s[0]) {
      TrimSpaceBytes(s[1..]);
    } else if s != "" && AsciiSpace(s[|s| - 1]) {
      TrimSpaceBytes(s[..|s| - 1]);
    }
  }

  function ErrorText(e: LexError): string {
    match e
    case Unsupported => "syntax not supported"
    case BadSubstitution => "bad substitution"
    case JobControl => "job control is not supported"
    case UnclosedQuote => "unclosed quote"
  }

  /** Shell.Run: one submitted line. */
  ghost function RunLine(p: Persona, s: Session, input: Str): (Session, Result) {
    TrimSpaceBytes(input);
    var line: Str := TrimSpace(input);
    if line == "" then (s, ZERO.(exitStatus := s.lastStatus))
    else
      match LexSpec(VarsOf(p, s), line)
      case Rejected(e) =>
        (s.(lastStatus := 2), ZERO.(output := "-bash: " + ErrorText(e) + "\r\n", arguments := line,
            unsupported := true, exitStatus := 2, gap := "unsupported shell syntax"))
      case Tokens(tokens) =>
        var (s1, r) := EvalFrom(p, s, tokens, ";", ZERO);
        (s1.(lastStatus := r.exitStatus), if r.arguments == "" then r.(arguments := line) else r)
  }

  ghost function RunLines(p: Persona, s: Session, lines: seq<Str>): Session
    decreases |lines|
  {
    if lines == [] then s else RunLines(p, RunLine(p, s, lines[0]).0, lines[1..])
  }
}
