/** What redirections write, what patterns become, what a whole line reports, and which status it leaves. */
module ShellRuns {
  import opened Text
  import opened Paths
  import opened ShellLex
  import opened ShellLexLaws
  import opened ShellModel
  import opened ShellLaws
  import opened ShellLines
  import opened ShellCommands
  import opened ShellRules

  // ------------------------------------------------------------ redirections

  /** Words without a pattern among them. */
  predicate NoPatterns(ws: seq<string>) {
    forall w :: w in ws ==> '*' !in w && '?' !in w
  }

  /** A redirection: its operator and its target. */
  function To(op: string, target: string): seq<Token> {
    [Token(op, true), Token(target, false)]
  }

  lemma {:induction false} ArgvAfterWords(p: Persona, s: Session, ws: seq<string>, rest: seq<Token>, sofar: Redirected)
    requires sofar.Redirected? && NoPatterns(ws)
    ensures Argv(p, s, AsTokens(ws) + rest, sofar) == Argv(p, s, rest, sofar.(argv := sofar.argv + ws))
  {
    if ws == [] {
      assert AsTokens(ws) + rest == rest && sofar.argv + ws == sofar.argv;
    } else {
      assert (AsTokens(ws) + rest)[1..] == AsTokens(ws[1..]) + rest && (AsTokens(ws) + rest)[0] == Token(ws[0], false);
      assert (sofar.argv + [ws[0]]) + ws[1..] == sofar.argv + ws;
      assert Glob(p, s, ws[0]) == [ws[0]];
      hide Glob;
      ArgvAfterWords(p, s, ws[1..], rest, sofar.(argv := sofar.argv + [ws[0]]));
    }
  }

  /** One redirection after the words. */
  lemma ArgvTo(p: Persona, s: Session, ws: seq<string>, op: string, target: string, rest: seq<Token>)
    requires NoPatterns(ws) && op in ["<", ">", ">>"]
    ensures Argv(p, s, AsTokens(ws) + (To(op, target) + rest), NO_ARGS)
         == Argv(p, s, rest, if op == "<" then Redirected(ws, target, "", false)
                             else Redirected(ws, "", target, op == ">>"))
  {
    ArgvAfterWords(p, s, ws, To(op, target) + rest, NO_ARGS);
    assert (To(op, target) + rest)[2..] == rest && [] + ws == ws;
    hide Glob;
  }

  /**
   `>` leaves the command's output, with LF line ends, as the whole of the file and `>>` adds it to what the file
   reads as after the command; nothing is printed, and no other file differs from what the command left.
   */
  lemma OutputGoesTo(p: Persona, s: Session, ws: seq<string>, op: string, target: string, stdin: string, path: string)
    requires NoPatterns(ws) && (op == ">" || op == ">>") && target != ""
    ensures var (s1, r) := Command(p, s, ws, stdin);
            var (after, out) := Stage(p, s, AsTokens(ws) + To(op, target), stdin);
            && out == Staged(r.(output := "")) && after.cwd == s1.cwd && after.env == s1.env
            && Read(p, after, path)
               == if path != Resolve(p.home, s1.cwd, target) then Read(p, s1, path)
                  else if op == ">" || Read(p, s1, path) == None then Some(Lf(r.output))
                  else Some(Read(p, s1, path).value + Lf(r.output))
  {
    ArgvTo(p, s, ws, op, target, []);
    assert To(op, target) + [] == To(op, target);
    var none: seq<Token> := [];
    assert Argv(p, s, none, Redirected(ws, "", target, op == ">>")) == Redirected(ws, "", target, op == ">>");
    assert forall t: string :: "" + t == t;
    hide Argv, Command, Resolve, Lf, AsTokens;
  }

  /** `<` feeds the file to the command; if it cannot be read, nothing runs and the status is 1. */
  lemma InputComesFrom(p: Persona, s: Session, ws: seq<string>, target: string, stdin: string)
    requires NoPatterns(ws) && target != ""
    ensures var (after, out) := Stage(p, s, AsTokens(ws) + To("<", target), stdin);
            var body := Read(p, s, Resolve(p.home, s.cwd, target));
            if body == None then
              && after == s && out.Broken?
              && Says(out.error, "-bash: " + target + ": No such file or directory\r\n", 1)
            else (after, out) == (Command(p, s, ws, body.value).0, Staged(Command(p, s, ws, body.value).1))
  {
    ArgvTo(p, s, ws, "<", target, []);
    assert To("<", target) + [] == To("<", target);
    var none: seq<Token> := [];
    assert Argv(p, s, none, Redirected(ws, target, "", false)) == Redirected(ws, target, "", false);
    hide Argv, Command, Resolve, Read, AsTokens;
  }

  /** Of two redirections of one kind the second holds, and only its target is written. */
  lemma LastTargetWins(p: Persona, s: Session, ws: seq<string>, op: string, a: string, b: string, stdin: string)
    requires NoPatterns(ws) && (op == ">" || op == "<")
    ensures Stage(p, s, AsTokens(ws) + (To(op, a) + To(op, b)), stdin) == Stage(p, s, AsTokens(ws) + To(op, b), stdin)
  {
    ArgvTo(p, s, ws, op, a, To(op, b));
    ArgvTo(p, s, ws, op, b, []);
    ArgvLast(p, s, ws, op, a, b);
    assert To(op, b) + [] == To(op, b);
    hide Argv, Command, Resolve, Read, Lf, AsTokens, To;
  }

  lemma ArgvLast(p: Persona, s: Session, ws: seq<string>, op: string, a: string, b: string)
    requires op == ">" || op == "<"
    ensures Argv(p, s, To(op, b), if op == "<" then Redirected(ws, a, "", false) else Redirected(ws, "", a, false))
         == Argv(p, s, [], if op == "<" then Redirected(ws, b, "", false) else Redirected(ws, "", b, false))
  {
    assert To(op, b)[2..] == [];
    hide Glob;
  }

  /** A redirection without a target runs nothing, changes nothing and ends with status 2. */
  lemma TargetMissing(p: Persona, s: Session, ws: seq<string>, op: string, stdin: string)
    requires NoPatterns(ws) && op in ["<", ">", ">>"]
    ensures var (after, out) := Stage(p, s, AsTokens(ws) + [Token(op, true)], stdin);
            && after == s && out.Broken? && out.error.unsupported && out.error.gap != ""
            && Says(out.error.(unsupported := false, gap := ""), "-bash: missing redirection target\r\n", 2)
  {
    ArgvAfterWords(p, s, ws, [Token(op, true)], NO_ARGS);
    NoTarget(p, s, op, NO_ARGS.(argv := [] + ws));
    hide Argv, Command, Resolve, Read, Lf, AsTokens;
    var why := "missing redirection target";
    assert "-bash: " + why + "\r\n" == "-bash: missing redirection target\r\n";
  }

  lemma NoTarget(p: Persona, s: Session, op: string, sofar: Redirected)
    requires op in ["<", ">", ">>"] && sofar.Redirected?
    ensures Argv(p, s, [Token(op, true)], sofar) == BadSyntax("missing redirection target")
  {
  }

  lemma {:induction false} LfPlain(x: string)
    requires '\r' !in x
    ensures Lf(x + "\r\n") == x + "\n"
  {
    var s := x + "\r\n";
    if x == "" {
      assert s == "\r\n" && s[..2] == "\r\n" && s[2..] == "";
    } else {
      assert s[..2][0] == x[0] && s[1..] == x[1..] + "\r\n";
      LfPlain(x[1..]);
      assert [x[0]] + (x[1..] + "\n") == x + "\n";
    }
  }

  /** `echo words > file` leaves the words, separated by spaces, as the file's one line. */
  lemma EchoToFile(p: Persona, s: Session, ws: seq<string>, target: string, stdin: string)
    requires NoPatterns(ws) && target != "" && Builtin(p, "echo", ws) && '\r' !in JoinWith(ws, " ")
    ensures var (after, out) := Stage(p, s, AsTokens(["echo"] + ws) + To(">", target), stdin);
            && out.Staged? && out.result.exitStatus == 0 && after.cwd == s.cwd
            && Read(p, after, Resolve(p.home, s.cwd, target)) == Some(JoinWith(ws, " ") + "\n")
  {
    assert '*' !in "echo" && '?' !in "echo";
    EchoPrints(p, s, ws, stdin);
    LfPlain(JoinWith(ws, " "));
    hide Command, Resolve, Read, Stage, AsTokens, JoinWith, Lf, Builtin;
    OutputGoesTo(p, s, ["echo"] + ws, ">", target, stdin, Resolve(p.home, s.cwd, target));
  }

  // ---------------------------------------------------------------- patterns

  /** x is the name of something in the directory with this prefix: a file, or a directory on the way to one. */
  ghost predicate IsEntry(p: Persona, s: Session, prefix: string, x: string) {
    '/' !in x && exists k :: k in Visible(p, s) && (k == prefix + x || prefix + x + "/" <= k)
  }

  lemma {:induction false} FirstOfSplit(t: string, x: string)
    ensures Split(t, '/')[0] == x <==> '/' !in x && (t == x || x + "/" <= t)
  {
    if t != "" {
      if t[0] == '/' {
        assert x + "/" <= t ==> x == "" || x[0] == '/';
      } else {
        assert t == [t[0]] + t[1..];
        if x != "" && x[0] == t[0] {
          FirstOfSplit(t[1..], x[1..]);
          assert x == [x[0]] + x[1..] && x + "/" == [x[0]] + (x[1..] + "/");
          assert Split(t, '/')[0] == [t[0]] + Split(t[1..], '/')[0];
        } else {
          assert Split(t, '/')[0][0] == t[0];
          assert x + "/" <= t ==> x == "";
        }
      }
    }
  }

  lemma EntryIff(k: string, prefix: string, x: string)
    ensures HasPrefix(k, prefix) && FirstPart(k, prefix) == x <==>
              '/' !in x && (k == prefix + x || prefix + x + "/" <= k)
  {
    hide Split;
    if HasPrefix(k, prefix) {
      var t := k[|prefix|..];
      assert k == prefix + t;
      FirstOfSplit(t, x);
      assert prefix + x + "/" == prefix + (x + "/");
      assert prefix + (x + "/") <= prefix + t <==> x + "/" <= t by {
        if prefix + (x + "/") <= prefix + t { assert (prefix + (x + "/"))[|prefix|..] <= (prefix + t)[|prefix|..]; }
      }
    } else {
      assert prefix <= prefix + x && prefix + x <= prefix + x + "/";
    }
  }

  /** A directory's listing is its entries, each once and in increasing order; without the directory there are none. */
  lemma ListingIs(p: Persona, s: Session, dir: string)
    ensures var names := Listing(p, s, dir);
            && Sorted(names)
            && forall x :: x in names <==> IsDir(p, s, Clean(dir)) && IsEntry(p, s, TrimSlash(Clean(dir)) + "/", x)
  {
    hide Clean, FirstPart, HasPrefix, IsDir, TrimSlash, Sorted, SortedNames;
    var prefix := TrimSlash(Clean(dir)) + "/";
    forall k, x { EntryIff(k, prefix, x); }
    assert Sorted([]) by { NoneSorted(); }
  }

  lemma TrimSlashOnce(d: string)
    ensures TrimSlash(d + "/") == d && (d == "" || d[|d| - 1] != '/' ==> TrimSlash(d) == d)
  {
    assert (d + "/")[..|d|] == d;
  }

  /** What the keys below a normal directory begin with. */
  function Below(d: string): string {
    if d == "/" then "/" else d + "/"
  }

  lemma NormalEnd(d: string)
    requires Normal(d) && d != "/"
    ensures d != "" && d[|d| - 1] != '/'
  {
    var parts :| IsNormalOf(d, parts);
    LastPartEnds(parts);
  }

  lemma {:induction false} LastPartEnds(parts: seq<string>)
    requires forall i :: 0 <= i < |parts| ==> Element(parts[i])
    ensures parts != [] ==> JoinSlash(parts) != "" && JoinSlash(parts)[|JoinSlash(parts)| - 1] != '/'
  {
    if |parts| > 1 { LastPartEnds(parts[1..]); }
  }

  /** A normal directory exists if it is the root or has something below it, and it lists just what is there. */
  lemma ListingOf(p: Persona, s: Session, d: string)
    requires Normal(d)
    ensures IsDir(p, s, d) <==> d == "/" || exists k :: k in Visible(p, s) && Below(d) <= k
    ensures forall x :: x in Listing(p, s, d) <==> IsDir(p, s, d) && IsEntry(p, s, Below(d), x)
  {
    assert Rooted(d) by { var parts :| IsNormalOf(d, parts); }
    CleanFixed(d);
    ListingIs(p, s, d);
    TrimSlashOnce("");
    assert "" + "/" == "/";
    if d != "/" {
      NormalEnd(d);
      TrimSlashOnce(d);
    }
    hide Clean, Normal, TrimSlash, Listing, IsEntry;
    assert d != "/" ==> d + "/" != "//" && d + "/" != "/";
    assert forall k :: HasPrefix(k, Below(d)) <==> Below(d) <= k;
  }

  /** A pattern in the root directory is never replaced: its directory is looked up as the empty path. */
  lemma RootPatternStays(p: Persona, s: Session, v: string)
    requires forall k :: k in Visible(p, s) ==> Rooted(k)
    requires var full := Resolve(p.home, s.cwd, v); full[..LastSlash(full)] == "/"
    ensures Glob(p, s, v) == [v]
  {
    var full := Resolve(p.home, s.cwd, v);
    TrimSlashOnce("");
    assert "" + "/" == "/";
    assert Listing(p, s, "") == [] by { EmptyPathListsNothing(p, s); }
    hide Resolve, LastSlash, Listing, Visible, TrimSlash;
  }

  lemma EmptyPathListsNothing(p: Persona, s: Session)
    requires forall k :: k in Visible(p, s) ==> Rooted(k)
    ensures Listing(p, s, "") == []
  {
    SplitWhole(".", '/');
    assert Clean("") == "." && TrimSlash(".") == ".";
    assert Clean(".") == "." by { assert ["."][1..] == []; }
    hide Clean, TrimSlash, Visible;
    forall k | k in Visible(p, s)
      ensures !HasPrefix(k, "./")
    {
      assert |k| >= 2 ==> k[..2][0] == '/';
    }
    assert "." + "/" == "./";
  }

  lemma NoneSorted()
    ensures Sorted([])
  {
  }

  lemma {:induction false} LastSlashAt(v: string)
    ensures var i := LastSlash(v); (i == 0 || v[i - 1] == '/') && '/' !in v[i..]
  {
    if v != "" && v[|v| - 1] != '/' {
      var w := v[..|v| - 1];
      LastSlashAt(w);
      assert v[LastSlash(w)..] == w[LastSlash(w)..] + [v[|v| - 1]];
    }
  }

  /** The word is that of a name that the pattern matches: the name, or its path in the directory. */
  ghost predicate IsMatch(p: Persona, names: seq<string>, pattern: string, dir: string, joined: bool, w: string) {
    exists x :: x in names && p.globs(pattern, x) && w == if joined then Join(dir, x) else x
  }

  ghost predicate AnyMatch(p: Persona, names: seq<string>, pattern: string) {
    exists x :: x in names && p.globs(pattern, x)
  }

  lemma {:induction false} MatchingIs(p: Persona, names: seq<string>, pattern: string, dir: string, joined: bool)
    ensures var words := Matching(p, names, pattern, dir, joined);
            && (forall w :: w in words <==> IsMatch(p, names, pattern, dir, joined, w))
            && (words == [] <==> !AnyMatch(p, names, pattern)) && (!joined && Sorted(names) ==> Sorted(words))
  {
    hide Join, Less;
    if names != [] {
      MatchingIs(p, names[1..], pattern, dir, joined);
      assert names == [names[0]] + names[1..];
      var rest := Matching(p, names[1..], pattern, dir, joined);
      if !joined && Sorted(names) {
        forall i | 0 <= i < |rest|
          ensures Less(names[0], rest[i])
        {
          assert rest[i] in rest;
          var j :| 0 <= j < |names[1..]| && names[1..][j] == rest[i];
          assert Less(names[0], names[j + 1]);
        }
      }
    }
  }

  /**
   A word without `*` and `?` is itself. A pattern becomes the matching names of its directory, in increasing order
   if it has no slash and as paths if it has one; or itself if nothing matches.
   */
  lemma GlobIs(p: Persona, s: Session, v: string)
    ensures '*' !in v && '?' !in v ==> Glob(p, s, v) == [v]
    ensures '*' in v || '?' in v ==>
              var full := Resolve(p.home, s.cwd, v);
              var (cut, joined, words) := (LastSlash(full), '/' in v, Glob(p, s, v));
              var names := Listing(p, s, TrimSlash(full[..cut]));
              if !AnyMatch(p, names, full[cut..]) then words == [v]
              else
                && (!joined ==> Sorted(words))
                && forall w :: w in words <==> IsMatch(p, names, full[cut..], full[..cut], joined, w)
  {
    hide Resolve, Listing, Matching, TrimSlash, LastSlash, IsMatch, AnyMatch, Sorted;
    if '*' in v || '?' in v {
      var full := Resolve(p.home, s.cwd, v);
      var cut := LastSlash(full);
      var names := Listing(p, s, TrimSlash(full[..cut]));
      ListingIs(p, s, TrimSlash(full[..cut]));
      MatchingIs(p, names, full[cut..], full[..cut], '/' in v);
    }
  }
}
