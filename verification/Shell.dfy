/** The shell object: the loops that update its directory, overlay, environment and status. */
module Shell {
  import opened Text
  import opened Paths
  import opened ShellLex
  import opened ShellModel

  class Shell {
    const p: Persona
    var cwd: string
    var overlay: map<string, Option<string>>
    var env: map<string, string>
    var lastStatus: int
    var writes: seq<Write>

    function State(): Session
      reads this
    {
      Session(cwd, overlay, env, lastStatus, writes)
    }

    constructor (p: Persona, env: map<string, string>)
      ensures this.p == p && State() == Initial(p, env)
    {
      this.p := p;
      cwd, overlay, this.env, lastStatus, writes := p.home, map[], env, 0, [];
    }

    method Store(path: string, body: Option<string>)
      modifies this`overlay, this`writes
      ensures State() == Put(old(State()), Write(path, body))
    {
      overlay, writes := overlay[path := body], writes + [Write(path, body)];
    }

    /** A persona rule's effects: its files, then its removals. */
    method ApplyRule(rule: Rule)
      modifies this`overlay, this`writes
      ensures State() == PutAll(old(State()), RuleWrites(rule))
    {
      hide Clean;
      ghost var s0, ws := old(State()), RuleWrites(rule);
      var n := |rule.setFiles|;
      for i := 0 to n
        invariant PutAll(s0, ws) == PutAll(State(), ws[i..])
      {
        assert ws[i..][0] == ws[i] && ws[i..][1..] == ws[i + 1..];
        Store(Clean(rule.setFiles[i].0), Some(rule.setFiles[i].1));
      }
      for i := 0 to |rule.removeFiles|
        invariant PutAll(s0, ws) == PutAll(State(), ws[n + i..])
      {
        assert ws[n + i..][0] == ws[n + i] && ws[n + i..][1..] == ws[n + i + 1..];
        Store(Clean(rule.removeFiles[i]), None);
      }
      assert ws[n + |rule.removeFiles|..] == [];
    }

    /** touch, mkdir and rm. */
    method WriteOperands(command: string, names: seq<string>)
      modifies this`overlay, this`writes
      ensures State() == PutAll(old(State()), OperandWrites(p, old(State()), command, names))
    {
      hide Clean, Resolve;
      ghost var s0 := old(State());
      for i := 0 to |names|
        invariant cwd == s0.cwd && env == s0.env && lastStatus == s0.lastStatus
        invariant PutAll(s0, OperandWrites(p, s0, command, names))
                    == PutAll(State(), OperandWrites(p, s0, command, names[i..]))
      {
        assert names[i..][0] == names[i] && names[i..][1..] == names[i + 1..];
        var path := Resolve(p.home, cwd, names[i]);
        ghost var ws := OperandWrites(p, s0, command, names[i..]);
        assert ws[1..] == OperandWrites(p, s0, command, names[i + 1..]);
        if command == "rm" {
          Store(path, None);
        } else if command == "mkdir" {
          Store(Clean(path) + "/", Some(""));
        } else {
          Store(path, Some(""));
        }
      }
    }

    method SetVariables(items: seq<string>)
      modifies this`env
      ensures State() == Export(old(State()), VarsOf(p, old(State())), items)
    {
      hide ValidEnv, Itoa;
      var v := VarsOf(p, State());
      for i := 0 to |items|
        invariant Export(old(State()), v, items) == Export(State(), v, items[i..])
      {
        assert items[i..][0] == items[i] && items[i..][1..] == items[i + 1..];
        var eq := IndexByte(items[i], '=');
        if eq >= 0 && ValidEnv(v, items[i][..eq]) { env := env[items[i][..eq] := items[i][eq + 1..]]; }
      }
    }

    method UnsetVariables(names: seq<string>)
      modifies this`env
      ensures State() == Unset(old(State()), names)
    {
      for i := 0 to |names|
        invariant Unset(old(State()), names) == Unset(State(), names[i..])
      {
        assert names[i..][0] == names[i] && names[i..][1..] == names[i + 1..];
        env := env - {names[i]};
      }
    }

    /** The operands that are URLs, and the last of them. */
    method FindUrls(args: seq<string>) returns (url: string, urls: seq<string>)
      ensures urls == Urls(args) && url == if urls == [] then "" else urls[|urls| - 1]
    {
      hide IsUrl, Urls;
      url, urls := "", [];
      assert args[0..] == args && [] + Urls(args) == Urls(args);
      for i := 0 to |args|
        invariant urls + Urls(args[i..]) == Urls(args)
        invariant url == if urls == [] then "" else urls[|urls| - 1]
      {
        UrlsFrom(args, i);
        if IsUrl(args[i]) {
          url, urls := args[i], urls + [args[i]];
          assert urls + Urls(args[i + 1..]) == Urls(args);
        }
      }
      UrlsFrom(args, |args|);
      assert urls + [] == Urls(args);
    }

    method Fetch(r: Result, args: seq<string>) returns (out: Result)
      modifies this`overlay, this`writes
      ensures (State(), out) == Network(p, old(State()), r, args)
    {
      hide Resolve, Base, Crlf, HasPrefix, Urls, FirstNetwork;
      var url, urls := FindUrls(args);
      out := r.(urls := urls);
      var rule := FirstNetwork(p.network, url);
      if rule == None { return out.(output := r.command + ": unable to resolve host address\r\n", exitStatus := 6); }
      if !rule.value.success {
        return out.(output := r.command + ": unable to resolve host address\r\n",
                 exitStatus := if rule.value.exitStatus == 0 then 6 else rule.value.exitStatus);
      }
      out := out.(output := Crlf(rule.value.body), exitStatus := rule.value.exitStatus);
      var filename := rule.value.filename;
      if filename == "" && r.command == "wget" { filename := Base(url); }
      if filename != "" {
        Store(Resolve(p.home, cwd, filename), Some(rule.value.body));
        out := out.(output := "--2026-01-01--  " + url + "\r\nSaving to: '" + filename + "'\r\n");
      }
    }

    /** cat, head and tail: each operand's file, its last line ended, or the text fed if there is no operand. */
    method ReadFiles(r: Result, args: seq<string>, stdin: string) returns (out: Result)
      ensures var names := NonOptions(args);
              out == if names == [] then r.(output := Crlf(stdin)) else Cat(p, State(), r, names)
    {
      hide Resolve, Crlf, HasSuffix, Read, NonOptions;
      var names := NonOptions(args);
      if names == [] { return r.(output := Crlf(stdin)); }
      out := r;
      for i := 0 to |names|
        invariant Cat(p, State(), r, names) == Cat(p, State(), out, names[i..])
      {
        assert names[i..][0] == names[i] && names[i..][1..] == names[i + 1..];
        var body := Read(p, State(), Resolve(p.home, cwd, names[i]));
        if body == None {
          out := out.(output := out.output + out.command + ": " + names[i] + ": No such file or directory\r\n",
              exitStatus := 1);
          continue;
        }
        var text := out.output + Crlf(body.value);
        out := out.(output := if HasSuffix(text, "\r\n") then text else text + "\r\n");
      }
    }

    method Exec(args: seq<string>, stdin: string) returns (r: Result)
      modifies this
      ensures (State(), r) == Command(p, old(State()), args, stdin)
    {
      hide Resolve, Base, Crlf, IsDir, FirstRule, JoinWith, Cat, NonOptions, Network, Export, Unset, PutAll,
           RuleWrites, OperandWrites;
      if args == [] { return ZERO; }
      var name, rest := Base(args[0]), args[1..];
      r := ZERO.(command := name, arguments := JoinWith(rest, " "));
      var rule := FirstRule(p.rules, name, rest);
      if rule.Some? {
        ApplyRule(rule.value);
        return r.(output := Crlf(rule.value.output), exitStatus := rule.value.exitStatus,
                 observation := rule.value.observation, delayMS := rule.value.delayMS);
      }
      if name == "exit" || name == "logout" {
        r := r.(exit := true);
      } else if name == "pwd" {
        r := r.(output := cwd + "\r\n");
      } else if name == "cd" {
        var target := if rest == [] then p.home else Resolve(p.home, cwd, rest[0]);
        if IsDir(p, State(), target) {
          cwd, env := target, env["PWD" := target];
        } else {
          r := r.(output := "-bash: cd: " + (if rest == [] then "" else p.quoted(rest[0]))
              + ": No such file or directory\r\n", exitStatus := 1);
        }
      } else if name == "cat" || name == "head" || name == "tail" {
        r := ReadFiles(r, rest, stdin);
      } else if name == "touch" || name == "mkdir" || name == "rm" {
        WriteOperands(name, NonOptions(rest));
      } else if name == "echo" {
        r := r.(output := JoinWith(rest, " ") + "\r\n");
      } else if name == "export" {
        SetVariables(rest);
      } else if name == "unset" {
        UnsetVariables(rest);
      } else if name == "curl" || name == "wget" {
        r := Fetch(r, rest);
      } else {
        r := p.canned(View(State()), args, stdin);
      }
    }

    method List(dir: string) returns (names: seq<string>)
      ensures names == Listing(p, State(), dir)
    {
      hide Clean, IsDir, HasPrefix;
      var d := Clean(dir);
      if !IsDir(p, State(), d) { return []; }
      var prefix := TrimSlash(d) + "/";
      names := SortNames(set k | k in Visible(p, State()) && HasPrefix(k, prefix) :: FirstPart(k, prefix));
    }

    /** The names that match, joined to their directory if the pattern was a path. */
    method MatchNames(names: seq<string>, pattern: string, dir: string, joined: bool) returns (words: seq<string>)
      ensures words == Matching(p, names, pattern, dir, joined)
    {
      hide Join;
      words := [];
      for i := 0 to |names|
        invariant words + Matching(p, names[i..], pattern, dir, joined) == Matching(p, names, pattern, dir, joined)
      {
        assert names[i..][0] == names[i] && names[i..][1..] == names[i + 1..];
        if p.globs(pattern, names[i]) { words := words + [if joined then Join(dir, names[i]) else names[i]]; }
      }
    }

    method Expand(v: string) returns (words: seq<string>)
      ensures words == Glob(p, State(), v)
    {
      hide Resolve, Listing, Matching, TrimSlash;
      if '*' !in v && '?' !in v { return [v]; }
      var full := Resolve(p.home, cwd, v);
      var cut := LastSlash(full);
      var names := List(TrimSlash(full[..cut]));
      words := MatchNames(names, full[cut..], full[..cut], '/' in v);
      if words == [] { words := [v]; }
    }

    /** Separate words from redirections; the last redirection of each kind wins. */
    method ParseArgs(tokens: seq<Token>) returns (r: Redirected)
      ensures r == Argv(p, State(), tokens, NO_ARGS)
    {
      hide Glob;
      r := NO_ARGS;
      var i := 0;
      while i < |tokens|
        invariant 0 <= i <= |tokens| && r.Redirected?
        invariant Argv(p, State(), tokens, NO_ARGS) == Argv(p, State(), tokens[i..], r)
      {
        ghost var rest := tokens[i..];
        assert rest[0] == tokens[i] && rest[1..] == tokens[i + 1..];
        if tokens[i].op {
          if tokens[i].text !in ["<", ">", ">>"] { return BadSyntax("syntax not supported"); }
          if i + 1 >= |tokens| || tokens[i + 1].op { return BadSyntax("missing redirection target"); }
          assert rest[1] == tokens[i + 1] && rest[2..] == tokens[i + 2..];
          r := if tokens[i].text == "<" then r.(input := tokens[i + 1].text)
               else r.(output := tokens[i + 1].text, append := tokens[i].text == ">>");
          i := i + 2;
          continue;
        }
        var words := Expand(tokens[i].text);
        r, i := r.(argv := r.argv + words), i + 1;
      }
    }

    /** One stage: parse, feed, run and redirect. */
    method RunStage(tokens: seq<Token>, stdin: string) returns (out: Staged)
      modifies this
      ensures (State(), out) == Stage(p, old(State()), tokens, stdin)
    {
      hide Argv, Command, Resolve, Lf, Read;
      var a := ParseArgs(tokens);
      if a.BadSyntax? {
        return Broken(ZERO.(output := "-bash: " + a.why + "\r\n", unsupported := true, exitStatus := 2,
                 gap := "invalid redirection"));
      }
      var fed := stdin;
      if a.input != "" {
        var body := Read(p, State(), Resolve(p.home, cwd, a.input));
        if body == None {
          return Broken(ZERO.(output := "-bash: " + a.input + ": No such file or directory\r\n", exitStatus := 1));
        }
        fed := body.value;
      }
      var r := Exec(a.argv, fed);
      if a.output != "" {
        var path := Resolve(p.home, cwd, a.output);
        var before := if a.append && Read(p, State(), path).Some? then Read(p, State(), path).value else "";
        Store(path, Some(before + Lf(r.output)));
        r := r.(output := "");
      }
      return Staged(r);
    }

    method RunPipeline(tokens: seq<Token>) returns (combined: Result)
      modifies this
      ensures (State(), combined) == Pipeline(p, old(State()), tokens)
    {
      hide Stage, Chain, Lf, FirstOf;
      combined := ZERO;
      var start, stdin := 0, "";
      assert tokens[0..] == tokens;
      while start <= |tokens|
        invariant 0 <= start <= |tokens|
        invariant Pipeline(p, old(State()), tokens) == PipeFrom(p, State(), tokens[start..], stdin, combined)
        decreases |tokens| - start
      {
        var end := NextOf(tokens, start, ["|"]);
        assert tokens[start..][..end - start] == tokens[start..end];
        assert end < |tokens| ==> tokens[start..][end - start + 1..] == tokens[end + 1..];
        var staged := RunStage(tokens[start..end], stdin);
        if staged.Broken? { return staged.error; }
        combined := Chain(combined, staged.result);
        stdin := Lf(staged.result.output);
        if end == |tokens| { return; }
        start := end + 1;
      }
    }

    /** The inner scan for the end of a segment. */
    method NextOf(tokens: seq<Token>, start: nat, ops: seq<string>) returns (end: nat)
      requires start <= |tokens|
      ensures end == start + FirstOf(tokens[start..], ops)
    {
      end := start;
      while end < |tokens| && !(tokens[end].op && tokens[end].text in ops)
        invariant start <= end <= |tokens|
        invariant start + FirstOf(tokens[start..], ops) == end + FirstOf(tokens[end..], ops)
      {
        assert tokens[end..][0] == tokens[end] && tokens[end..][1..] == tokens[end + 1..];
        end := end + 1;
      }
      if end < |tokens| { assert tokens[end..][0] == tokens[end]; }
    }

    method Eval(tokens: seq<Token>) returns (total: Result)
      modifies this
      ensures (State(), total) == EvalFrom(p, old(State()), tokens, ";", ZERO)
    {
      hide Pipeline, Merge, FirstOf, EvalFrom;
      total := ZERO;
      var start, previous := 0, ";";
      assert tokens[0..] == tokens;
      while start < |tokens|
        invariant 0 <= start <= |tokens|
        invariant EvalFrom(p, old(State()), tokens, ";", ZERO) == EvalFrom(p, State(), tokens[start..], previous, total)
        decreases |tokens| - start
      {
        EvalSegment(p, State(), tokens, start, previous, total);
        var end := NextOf(tokens, start, LIST_OPS);
        if Runs(previous, total) {
          var r := RunPipeline(tokens[start..end]);
          total := Merge(total, r);
        }
        if end == |tokens| { return; }
        previous, start := tokens[end].text, end + 1;
      }
      assert tokens[start..] == [];
      EvalNothing(p, State(), previous, total);
    }

    method Run(input: Str) returns (r: Result)
      modifies this
      ensures (State(), r) == RunLine(p, old(State()), input)
    {
      hide TrimSpace, EvalFrom, LexSpec;
      TrimSpaceBytes(input);
      var line: Str := TrimSpace(input);
      if line == "" { return ZERO.(exitStatus := lastStatus); }
      var lexed := Lex(VarsOf(p, State()), line);
      if lexed.Rejected? {
        lastStatus := 2;
        return ZERO.(output := "-bash: " + ErrorText(lexed.error) + "\r\n", arguments := line, unsupported := true,
                 exitStatus := 2, gap := "unsupported shell syntax");
      }
      r := Eval(lexed.tokens);
      lastStatus := r.exitStatus;
      if r.arguments == "" { r := r.(arguments := line); }
    }
  }

  lemma UrlsFrom(args: seq<string>, i: nat)
    requires i <= |args|
    ensures i == |args| ==> Urls(args[i..]) == []
    ensures i < |args| ==>
              Urls(args[i..]) == if IsUrl(args[i]) then [args[i]] + Urls(args[i + 1..]) else Urls(args[i + 1..])
  {
    hide IsUrl;
    if i < |args| {
      assert args[i..][0] == args[i] && args[i..][1..] == args[i + 1..];
      assert [] + Urls(args[i + 1..]) == Urls(args[i + 1..]);
    }
  }

  lemma EvalNothing(p: Persona, s: Session, previous: string, total: Result)
    ensures EvalFrom(p, s, [], previous, total) == (s, total)
  {
  }

  /** One segment of the list, over an index into the tokens. */
  lemma EvalSegment(p: Persona, s: Session, tokens: seq<Token>, start: nat, previous: string, total: Result)
    requires start < |tokens|
    ensures var end := start + FirstOf(tokens[start..], LIST_OPS);
            var (s1, next) := Segment(p, s, tokens[start..end], previous, total);
            EvalFrom(p, s, tokens[start..], previous, total)
            == if end == |tokens| then (s1, next) else EvalFrom(p, s1, tokens[end + 1..], tokens[end].text, next)
  {
    hide Segment, FirstOf;
    var rest := tokens[start..];
    var n := FirstOf(rest, LIST_OPS);
    assert rest[..n] == tokens[start..start + n];
    assert n < |rest| ==> rest[n + 1..] == tokens[start + n + 1..] && rest[n] == tokens[start + n];
  }
}
