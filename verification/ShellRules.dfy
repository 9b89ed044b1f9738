/** What a persona's rules and its network do, and what reading commands print. */
module ShellRules {
  import opened Text
  import opened Paths
  import opened ShellLex
  import opened ShellModel
  import opened ShellLaws
  import opened ShellCommands

  // ----------------------------------------------------------- which rule

  /** t stands somewhere in s. */
  ghost predicate Occurs(s: string, t: string) {
    exists i: nat :: OccursAt(s, t, i)
  }

  predicate OccursAt(s: string, t: string, i: nat) {
    i + |t| <= |s| && s[i..i + |t|] == t
  }

  lemma {:induction false} ContainsIff(s: string, t: string)
    ensures Contains(s, t) <==> Occurs(s, t)
  {
    if HasPrefix(s, t) {
      assert OccursAt(s, t, 0);
    } else if s != "" {
      ContainsIff(s[1..], t);
      if Occurs(s[1..], t) {
        var i: nat :| OccursAt(s[1..], t, i);
        assert s[i + 1..i + 1 + |t|] == s[1..][i..i + |t|];
        assert OccursAt(s, t, i + 1);
      }
      if i: nat :| OccursAt(s, t, i) {
        assert s[1..][i - 1..i - 1 + |t|] == s[i..i + |t|];
        assert OccursAt(s[1..], t, i - 1);
      }
    }
  }

  /** The rule asks for this command, and for these arguments exactly, at their front and somewhere in them. */
  ghost predicate Fits(r: Rule, command: string, args: seq<string>) {
    && r.command == command
    && (r.argsExact == [] || r.argsExact == args || (r.argsExact == [""] && args == []))
    && r.argsPrefix <= args
    && forall t :: t in r.argsContains ==> Occurs(JoinWith(args, " "), t)
  }

  predicate NoNul(ws: seq<string>) {
    forall w :: w in ws ==> '\0' !in w
  }

  lemma JoinZero(a: seq<string>, b: seq<string>)
    requires NoNul(a) && NoNul(b) && a != []
    ensures JoinWith(a, "\0") == JoinWith(b, "\0") <==> a == b || (a == [""] && b == [])
  {
    JoinSplits(a, '\0');
    assert ['\0'] == "\0";
    if b != [] {
      JoinSplits(b, '\0');
    } else if JoinWith(a, "\0") == "" {
      assert Split("", '\0') == [""];
    }
  }

  /** Unless a NUL is involved, comparing the joined arguments is comparing the arguments, one empty one aside. */
  lemma FitsIff(r: Rule, command: string, args: seq<string>)
    requires NoNul(r.argsExact) && NoNul(args)
    ensures RuleMatches(r, command, args) <==> Fits(r, command, args)
  {
    if r.argsExact != [] { JoinZero(r.argsExact, args); }
    forall t { ContainsIff(JoinWith(args, " "), t); }
    hide JoinWith, Contains, Occurs;
    assert (forall i :: 0 <= i < |r.argsContains| ==> Contains(JoinWith(args, " "), r.argsContains[i]))
        <==> (forall t :: t in r.argsContains ==> Contains(JoinWith(args, " "), t));
    assert |r.argsPrefix| <= |args| ==>
        ((forall i :: 0 <= i < |r.argsPrefix| ==> args[i] == r.argsPrefix[i])
         <==> r.argsPrefix == args[..|r.argsPrefix|]);
  }

  /** The first rule that matches answers. */
  lemma {:induction false} FirstRuleIff(rules: seq<Rule>, command: string, args: seq<string>)
    ensures match FirstRule(rules, command, args)
            case None => forall i :: 0 <= i < |rules| ==> !RuleMatches(rules[i], command, args)
            case Some(r) =>
              exists i :: 0 <= i < |rules| && rules[i] == r && RuleMatches(r, command, args)
                          && forall j :: 0 <= j < i ==> !RuleMatches(rules[j], command, args)
  {
    hide RuleMatches;
    if rules != [] && !RuleMatches(rules[0], command, args) {
      FirstRuleIff(rules[1..], command, args);
      if FirstRule(rules[1..], command, args).Some? {
        var r := FirstRule(rules[1..], command, args).value;
        var i :| 0 <= i < |rules[1..]| && rules[1..][i] == r && RuleMatches(r, command, args)
            && forall j :: 0 <= j < i ==> !RuleMatches(rules[1..][j], command, args);
        assert rules[i + 1] == r && forall j :: 1 <= j < i + 1 ==> rules[j] == rules[1..][j - 1];
      }
    }
  }

  // ------------------------------------------------------- what a rule does

  /** The last write to a path is what it reads as; without one it reads as before. */
  lemma {:induction false} LastWriteReads(p: Persona, s: Session, ws: seq<Write>, path: string)
    ensures !WritesTo(ws, path) ==> Read(p, PutAll(s, ws), path) == Read(p, s, path)
    ensures forall i :: 0 <= i < |ws| && ws[i].path == path && (forall j :: i < j < |ws| ==> ws[j].path != path) ==>
              Read(p, PutAll(s, ws), path) == ws[i].body
    decreases |ws|
  {
    if ws != [] {
      LastWriteReads(p, Put(s, ws[0]), ws[1..], path);
      assert forall j :: 0 < j < |ws| ==> ws[j] == ws[1..][j - 1];
      assert WritesTo(ws[1..], path) <==> exists j :: 0 < j < |ws| && ws[j].path == path by {
        if j :| 0 < j < |ws| && ws[j].path == path { assert ws[1..][j - 1].path == path; }
      }
    }
  }

  predicate Removes(r: Rule, path: string) {
    exists k :: 0 <= k < |r.removeFiles| && Clean(r.removeFiles[k]) == path
  }

  /** The rule's i-th file is the last one it sets at the path. */
  predicate SetsLast(r: Rule, path: string, i: nat) {
    i < |r.setFiles| && Clean(r.setFiles[i].0) == path
    && forall j :: i < j < |r.setFiles| ==> Clean(r.setFiles[j].0) != path
  }

  /** Files a rule removes are gone, even if it sets them too; other files it sets read as set; the rest stays. */
  lemma RuleLeaves(p: Persona, s: Session, r: Rule, path: string)
    ensures var after := Read(p, PutAll(s, RuleWrites(r)), path);
            if Removes(r, path) then after == None
            else
              && (forall i: nat :: SetsLast(r, path, i) ==> after == Some(r.setFiles[i].1))
              && ((forall i: nat :: !SetsLast(r, path, i)) ==> after == Read(p, s, path))
  {
    var ws, n := RuleWrites(r), |r.setFiles|;
    LastWriteReads(p, s, ws, path);
    if Removes(r, path) {
      var k := LastRemoval(r, path, |r.removeFiles|);
      RuleWriteAt(r, n + k);
      assert forall j :: n + k < j < |ws| ==> ws[j].path != path by { RulePaths(r); }
    } else {
      RulePaths(r);
      forall i: nat | SetsLast(r, path, i)
        ensures Read(p, PutAll(s, ws), path) == Some(r.setFiles[i].1)
      {
        RuleWriteAt(r, i);
      }
      hide Clean, Read, PutAll, RuleWrites;
      if WritesTo(ws, path) { var i := LastSet(r, path, n); }
    }
  }

  lemma RuleWriteAt(r: Rule, i: nat)
    requires i < |r.setFiles| + |r.removeFiles|
    ensures var w := RuleWrites(r)[i];
            if i < |r.setFiles| then w == Write(Clean(r.setFiles[i].0), Some(r.setFiles[i].1))
            else w == Write(Clean(r.removeFiles[i - |r.setFiles|]), None)
  {
    hide Clean;
  }

  lemma RulePaths(r: Rule)
    ensures var (ws, n) := (RuleWrites(r), |r.setFiles|);
            && |ws| == n + |r.removeFiles| && (forall i :: 0 <= i < n ==> ws[i].path == Clean(r.setFiles[i].0))
            && (forall i :: n <= i < |ws| ==> ws[i].path == Clean(r.removeFiles[i - n]))
  {
    hide Clean;
  }

  lemma LastRemoval(r: Rule, path: string, n: nat) returns (k: nat)
    requires n <= |r.removeFiles| && exists k :: 0 <= k < n && Clean(r.removeFiles[k]) == path
    ensures k < n && Clean(r.removeFiles[k]) == path
    ensures forall j :: k < j < n ==> Clean(r.removeFiles[j]) != path
  {
    hide Clean;
    k := n - 1;
    while Clean(r.removeFiles[k]) != path
      invariant k < n && forall j :: k < j < n ==> Clean(r.removeFiles[j]) != path
      invariant exists i :: 0 <= i <= k && Clean(r.removeFiles[i]) == path
      decreases k
    {
      k := k - 1;
    }
  }

  lemma LastSet(r: Rule, path: string, n: nat) returns (k: nat)
    requires n == |r.setFiles| && !Removes(r, path) && WritesTo(RuleWrites(r), path)
    ensures SetsLast(r, path, k)
  {
    hide Clean;
    var ws := RuleWrites(r);
    assert forall j :: n <= j < |ws| ==> ws[j].path == Clean(r.removeFiles[j - n]);
    var i :| 0 <= i < |ws| && ws[i].path == path;
    assert i < n && Clean(r.setFiles[i].0) == path;
    k := n - 1;
    while Clean(r.setFiles[k].0) != path
      invariant i <= k < n && forall j :: k < j < n ==> Clean(r.setFiles[j].0) != path
      decreases k
    {
      k := k - 1;
    }
  }

  /** A rule's answer: its text with CR LF line ends, its status, observation and delay. Only files change. */
  lemma RuleAnswers(p: Persona, s: Session, name: string, args: seq<string>, stdin: string, rule: Rule)
    requires name != "" && '/' !in name && FirstRule(p.rules, name, args) == Some(rule)
    ensures var (after, r) := Command(p, s, [name] + args, stdin);
            && after == PutAll(s, RuleWrites(rule)) && after.cwd == s.cwd && after.env == s.env
            && r.command == name && r.arguments == JoinWith(args, " ")
            && Lf(r.output) == Lf(rule.output) && r.exitStatus == rule.exitStatus && r.delayMS == rule.delayMS
            && r.observation == rule.observation && Says(r.(observation := "", delayMS := 0), r.output, r.exitStatus)
  {
    CommandOf(p, s, name, args, stdin);
    PutAllFrame(s, RuleWrites(rule));
    LfOfCrlf(Lf(rule.output));
    hide Base, JoinWith, FirstRule, PutAll, RuleWrites, Lf, ToCrlf;
  }

  // ---------------------------------------------------------------- the network

  predicate HasUrlScheme(a: string) {
    (|a| >= 7 && a[..7] == "http://") || (|a| >= 8 && a[..8] == "https://")
  }

  /** The URLs among the arguments. */
  lemma {:induction false} UrlsAre(args: seq<string>)
    ensures forall a :: a in Urls(args) <==> a in args && HasUrlScheme(a)
  {
    hide HasUrlScheme, IsUrl;
    if args != [] {
      UrlsAre(args[1..]);
      SchemeIff(args[0]);
      assert args == [args[0]] + args[1..];
    }
  }

  /** They are in order, so that the last of them is the last argument that is one. */
  lemma {:induction false} LastUrl(args: seq<string>, i: nat)
    requires i < |args| && HasUrlScheme(args[i]) && forall j :: i < j < |args| ==> !HasUrlScheme(args[j])
    ensures Urls(args) != [] && Urls(args)[|Urls(args)| - 1] == args[i]
  {
    hide HasUrlScheme, IsUrl;
    SchemeIff(args[0]);
    if i > 0 {
      assert forall j :: 0 < j < |args| ==> args[j] == args[1..][j - 1];
      LastUrl(args[1..], i - 1);
    } else {
      NoUrls(args[1..]);
    }
  }

  lemma {:induction false} NoUrls(args: seq<string>)
    requires forall j :: 0 <= j < |args| ==> !HasUrlScheme(args[j])
    ensures Urls(args) == []
  {
    hide HasUrlScheme, IsUrl;
    if args != [] {
      SchemeIff(args[0]);
      NoUrls(args[1..]);
    }
  }

  lemma SchemeIff(a: string)
    ensures IsUrl(a) <==> HasUrlScheme(a)
  {
  }

  lemma {:induction false} FirstNetworkIff(rules: seq<NetworkRule>, url: string)
    ensures match FirstNetwork(rules, url)
            case None => forall i :: 0 <= i < |rules| ==> !(rules[i].urlPrefix <= url)
            case Some(r) =>
              exists i :: 0 <= i < |rules| && rules[i] == r && r.urlPrefix <= url
                          && forall j :: 0 <= j < i ==> !(rules[j].urlPrefix <= url)
  {
    if rules != [] && !HasPrefix(url, rules[0].urlPrefix) {
      FirstNetworkIff(rules[1..], url);
      if FirstNetwork(rules[1..], url).Some? {
        var r := FirstNetwork(rules[1..], url).value;
        var i :| 0 <= i < |rules[1..]| && rules[1..][i] == r && r.urlPrefix <= url
            && forall j :: 0 <= j < i ==> !(rules[1..][j].urlPrefix <= url);
        assert rules[i + 1] == r && forall j :: 1 <= j < i + 1 ==> rules[j] == rules[1..][j - 1];
      }
    }
  }

  /** Where a download is saved: the rule's file name, or for wget alone the last element of the URL. */
  function SavedAs(r: Result, rule: NetworkRule, url: string): string {
    if rule.filename != "" then rule.filename else if r.command == "wget" then Base(url) else ""
  }

  /**
   A download: all URLs are recorded, and the last decides. Without a rule for it, or with one that fails, nothing is
   saved and the status is 6 or the rule's own; a success is printed, or saved where it reads back as the rule's body.
   */
  lemma FetchMeans(p: Persona, s: Session, r: Result, args: seq<string>, url: string, path: string)
    requires url == if Urls(args) == [] then "" else Urls(args)[|Urls(args)| - 1]
    ensures var (after, out) := Network(p, s, r, args);
            var rule := FirstNetwork(p.network, url);
            && out == r.(urls := Urls(args), output := out.output, exitStatus := out.exitStatus)
            && after.cwd == s.cwd && after.env == s.env
            && (rule.None? ==> after == s && out.exitStatus == 6)
            && (rule.None? || !rule.value.success ==> out.output == r.command + ": unable to resolve host address\r\n")
            && (rule.Some? && !rule.value.success ==>
                  after == s && out.exitStatus != 0
                  && (rule.value.exitStatus != 0 ==> out.exitStatus == rule.value.exitStatus)
                  && (rule.value.exitStatus == 0 ==> out.exitStatus == 6))
            && (rule.Some? && rule.value.success ==>
                  var name := SavedAs(r, rule.value, url);
                  && out.exitStatus == rule.value.exitStatus
                  && (name == "" ==> after == s && out.output == Crlf(rule.value.body))
                  && (name != "" ==>
                        out.output == "--2026-01-01--  " + url + "\r\nSaving to: '" + name + "'\r\n")
                  && (name != "" ==> Read(p, after, path) == if path == Resolve(p.home, s.cwd, name)
                        then Some(rule.value.body) else Read(p, s, path)))
  {
    hide Resolve, Crlf, Base, Urls, FirstNetwork;
    hide Read;
    forall w ensures Read(p, Put(s, w), path) == if path == w.path then w.body else Read(p, s, path) {
      PutReads(p, s, w, path);
    }
    hide Put;
  }

  lemma PutReads(p: Persona, s: Session, w: Write, path: string)
    ensures Read(p, Put(s, w), path) == if path == w.path then w.body else Read(p, s, path)
    ensures Put(s, w).cwd == s.cwd && Put(s, w).env == s.env && Put(s, w).lastStatus == s.lastStatus
  {
  }

  // ------------------------------------------------------------ reading files

  /** Files are read one after the other. */
  lemma {:induction false} CatConcat(p: Persona, s: Session, r: Result, a: seq<string>, b: seq<string>)
    ensures Cat(p, s, r, a + b) == Cat(p, s, Cat(p, s, r, a), b)
    decreases |a|
  {
    hide Resolve, Crlf, HasSuffix, Read;
    if a == [] {
      assert a + b == b;
    } else {
      assert (a + b)[0] == a[0] && (a + b)[1..] == a[1..] + b;
      forall next: Result { CatConcat(p, s, next, a[1..], b); }
    }
  }

  /** Reading fails exactly when some file cannot be read, and whatever it prints ends its last line. */
  lemma {:induction false} CatStatusIff(p: Persona, s: Session, r: Result, names: seq<string>)
    ensures var out := Cat(p, s, r, names);
            && out.exitStatus == (if forall a :: a in names ==> Read(p, s, Resolve(p.home, s.cwd, a)).Some?
                 then r.exitStatus else 1)
            && out == r.(output := out.output, exitStatus := out.exitStatus) && r.output <= out.output
            && (names != [] ==> HasSuffix(out.output, "\r\n"))
    decreases |names|
  {
    hide Resolve, Crlf, Read;
    if names != [] {
      assert names == [names[0]] + names[1..];
      CatOne(p, s, r, names[0]);
      var next := Cat(p, s, r, [names[0]]);
      CatConcat(p, s, r, [names[0]], names[1..]);
      CatStatusIff(p, s, next, names[1..]);
      if names[1..] == [] { assert Cat(p, s, next, []) == next; }
      hide Cat, HasSuffix;
      assert next.exitStatus == 1 || next.exitStatus == r.exitStatus;
    }
  }

  lemma CatOne(p: Persona, s: Session, r: Result, a: string)
    ensures var out := Cat(p, s, r, [a]);
            && out.exitStatus == (if Read(p, s, Resolve(p.home, s.cwd, a)).Some? then r.exitStatus else 1)
            && out == r.(output := out.output, exitStatus := out.exitStatus) && r.output <= out.output
            && HasSuffix(out.output, "\r\n")
            && (Read(p, s, Resolve(p.home, s.cwd, a)) == None ==>
                  out.output == r.output + r.command + ": " + a + ": No such file or directory\r\n")
  {
    hide Resolve, Crlf, Read;
    assert [a][1..] == [];
    forall t: string ensures HasSuffix(t + "\r\n", "\r\n") {
    }
    var missing := r.output + r.command + ": " + a + ": No such file or directory\r\n";
    assert missing == (r.output + r.command + ": " + a + ": No such file or directory") + "\r\n";
  }

  /** The operands' files are printed whole, or what the command is fed if it has none. */
  ghost predicate ReadsFiles(p: Persona, s: Session, name: string, args: seq<string>, stdin: string,
      x: (Session, Result)) {
    var names := NonOptions(args);
    && x.0 == s && (names == [] ==> Says(x.1, ToCrlf(Lf(stdin)), 0))
    && (names != [] ==> x.1 == Cat(p, s, Started(name, args), names))
  }

  /** cat, head and tail do the same. */
  lemma CatRuns(p: Persona, s: Session, args: seq<string>, stdin: string)
    requires Builtin(p, "cat", args)
    ensures ReadsFiles(p, s, "cat", args, stdin, Command(p, s, ["cat"] + args, stdin))
  {
    CommandOf(p, s, "cat", args, stdin);
    hide Base, JoinWith, FirstRule, Resolve, IsDir, Crlf, Cat, NonOptions, RuleWrites, OperandWrites, Export, Unset;
    hide Network, PutAll, VarsOf;
  }

  lemma HeadRuns(p: Persona, s: Session, args: seq<string>, stdin: string)
    requires Builtin(p, "head", args)
    ensures ReadsFiles(p, s, "head", args, stdin, Command(p, s, ["head"] + args, stdin))
  {
    CommandOf(p, s, "head", args, stdin);
    hide Base, JoinWith, FirstRule, Resolve, IsDir, Crlf, Cat, NonOptions, RuleWrites, OperandWrites, Export, Unset;
    hide Network, PutAll, VarsOf;
  }

  lemma TailRuns(p: Persona, s: Session, args: seq<string>, stdin: string)
    requires Builtin(p, "tail", args)
    ensures ReadsFiles(p, s, "tail", args, stdin, Command(p, s, ["tail"] + args, stdin))
  {
    CommandOf(p, s, "tail", args, stdin);
    hide Base, JoinWith, FirstRule, Resolve, IsDir, Crlf, Cat, NonOptions, RuleWrites, OperandWrites, Export, Unset;
    hide Network, PutAll, VarsOf;
  }

  /** curl and wget are both downloads. */
  lemma CurlDownloads(p: Persona, s: Session, args: seq<string>, stdin: string)
    requires Builtin(p, "curl", args)
    ensures Command(p, s, ["curl"] + args, stdin) == Network(p, s, Started("curl", args), args)
  {
    LateCommands(p, s, "curl", args, stdin);
    hide Command, Network, Builtin;
  }

  lemma WgetDownloads(p: Persona, s: Session, args: seq<string>, stdin: string)
    requires Builtin(p, "wget", args)
    ensures Command(p, s, ["wget"] + args, stdin) == Network(p, s, Started("wget", args), args)
  {
    LateCommands(p, s, "wget", args, stdin);
    hide Command, Network, Builtin;
  }
}
