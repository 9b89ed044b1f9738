/** What single commands of the emulated shell print, change and leave alone. */
module ShellCommands {
  import opened Text
  import opened Paths
  import opened ShellLex
  import opened ShellModel
  import opened ShellReads

  /** No rule of the persona answers the command. */
  ghost predicate Builtin(p: Persona, name: string, args: seq<string>) {
    FirstRule(p.rules, name, args) == None
  }

  /** A result that says nothing but what was run, what it printed and how it ended. */
  predicate Says(r: Result, output: string, status: int) {
    && r.output == output && r.exitStatus == status
    && !r.unsupported && r.urls == [] && !r.exit && r.gap == "" && r.observation == "" && r.delayMS == 0
  }

  /** The words separated by single spaces. */
  lemma {:induction false} JoinSplits(ws: seq<string>, c: char)
    requires ws != [] && forall w :: w in ws ==> c !in w
    ensures Split(JoinWith(ws, [c]), c) == ws
  {
    assert ws == [ws[0]] + ws[1..] && ws[0] in ws;
    if |ws| == 1 {
      SplitWhole(ws[0], c);
    } else {
      forall w | w in ws[1..]
        ensures w in ws
      {
      }
      JoinSplits(ws[1..], c);
      SplitAt(ws[0], c, JoinWith(ws[1..], [c]));
    }
  }

  lemma CommandOf(p: Persona, s: Session, name: string, args: seq<string>, stdin: string)
    requires name != "" && '/' !in name
    ensures Base(name) == name && ([name] + args)[0] == name && ([name] + args)[1..] == args
  {
    BaseIsLast("", name);
  }

  /** The result that a command starts from. */
  function Started(name: string, args: seq<string>): Result {
    ZERO.(command := name, arguments := JoinWith(args, " "))
  }

  /** None of the names that the command's switch asks for first. */
  predicate IsLate(name: string) {
    && name != "exit" && name != "logout" && name != "pwd" && name != "cd"
    && name != "cat" && name != "head" && name != "tail" && name != "touch" && name != "mkdir" && name != "rm"
  }

  /** The rest of the switch. */
  lemma LateCommands(p: Persona, s: Session, name: string, args: seq<string>, stdin: string)
    requires Builtin(p, name, args) && name != "" && '/' !in name && IsLate(name)
    ensures var (x, r) := (Command(p, s, [name] + args, stdin), Started(name, args));
            && (name == "echo" ==> x == (s, r.(output := r.arguments + "\r\n")))
            && (name == "export" ==> x == (Export(s, VarsOf(p, s), args), r))
            && (name == "unset" ==> x == (Unset(s, args), r))
            && (name in ["curl", "wget"] ==> x == Network(p, s, r, args))
  {
    CommandOf(p, s, name, args, stdin);
    hide Base, JoinWith, FirstRule, Resolve, IsDir, Crlf, Cat, NonOptions, RuleWrites, OperandWrites, Export, Unset;
    hide Network, PutAll, VarsOf;
  }

  // ------------------------------------------------------- printing commands

  /** echo prints its words, separated by spaces. */
  lemma EchoPrints(p: Persona, s: Session, args: seq<string>, stdin: string)
    requires Builtin(p, "echo", args)
    ensures var (after, r) := Command(p, s, ["echo"] + args, stdin);
            after == s && Says(r, JoinWith(args, " ") + "\r\n", 0)
  {
    LateCommands(p, s, "echo", args, stdin);
    hide Command, JoinWith, Builtin;
  }

  /** pwd prints the working directory. */
  lemma PwdPrints(p: Persona, s: Session, args: seq<string>, stdin: string)
    requires Builtin(p, "pwd", args)
    ensures var (after, r) := Command(p, s, ["pwd"] + args, stdin);
            after == s && Says(r, s.cwd + "\r\n", 0)
  {
    CommandOf(p, s, "pwd", args, stdin);
    hide Base, JoinWith, FirstRule, Resolve, IsDir, Crlf, Cat, NonOptions, RuleWrites, OperandWrites, Export, Unset;
    hide Network, PutAll, VarsOf;
  }

  /** exit and logout ask for the end of the session, with status 0 whatever their arguments. */
  lemma ExitEnds(p: Persona, s: Session, args: seq<string>, stdin: string)
    ensures Builtin(p, "exit", args) ==>
              var (after, r) := Command(p, s, ["exit"] + args, stdin);
              after == s && r.exit && Says(r.(exit := false), "", 0)
    ensures Builtin(p, "logout", args) ==>
              var (after, r) := Command(p, s, ["logout"] + args, stdin);
              after == s && r.exit && Says(r.(exit := false), "", 0)
  {
    CommandOf(p, s, "exit", args, stdin);
    CommandOf(p, s, "logout", args, stdin);
    hide Base, JoinWith, FirstRule, Resolve, IsDir, Crlf, Cat, NonOptions, RuleWrites, OperandWrites, Export, Unset;
    hide Network, PutAll, VarsOf;
  }

  // ----------------------------------------------------------------- moving

  lemma CdOf(p: Persona, s: Session, args: seq<string>, stdin: string, target: string)
    requires Builtin(p, "cd", args) && target == if args == [] then p.home else Resolve(p.home, s.cwd, args[0])
    ensures var (after, r) := Command(p, s, ["cd"] + args, stdin);
            if IsDir(p, s, target) then
              after == s.(cwd := target, env := s.env["PWD" := target]) && Says(r, "", 0)
            else after == s && Says(r, NoDirectory(p, args), 1)
  {
    CommandOf(p, s, "cd", args, stdin);
    hide Base, JoinWith, FirstRule, Resolve, IsDir;
  }

  /**
   `cd x` enters the directory x of the working directory and `cd ..` returns to it, and $PWD follows; where
   there is no such directory nothing changes and the status is 1. `cd` alone goes home.
   */
  lemma CdMoves(p: Persona, s: Session, d: string, x: string, stdin: string)
    requires Normal(d) && Element(x) && x != "~"
    requires Builtin(p, "cd", [x]) && Builtin(p, "cd", [".."]) && Builtin(p, "cd", [])
    ensures s.cwd == d ==> Moved(p, s, [x], Command(p, s, ["cd"] + [x], stdin), Child(d, x))
    ensures s.cwd == Child(d, x) ==> Moved(p, s, [".."], Command(p, s, ["cd"] + [".."], stdin), d)
    ensures Moved(p, s, [], Command(p, s, ["cd"] + [], stdin), p.home)
  {
    ResolveChild(p.home, d, x);
    ResolveParent(p.home, d, x);
    hide Command, Resolve, Child, Normal, Builtin, Says, IsDir;
    CdOf(p, s, [x], stdin, Resolve(p.home, s.cwd, x));
    CdOf(p, s, [".."], stdin, Resolve(p.home, s.cwd, ".."));
    CdOf(p, s, [], stdin, p.home);
  }

  ghost predicate Moved(p: Persona, s: Session, args: seq<string>, x: (Session, Result), target: string) {
    if IsDir(p, s, target) then x.0 == s.(cwd := target, env := s.env["PWD" := target]) && Says(x.1, "", 0)
    else x.0 == s && Says(x.1, NoDirectory(p, args), 1)
  }

  function NoDirectory(p: Persona, args: seq<string>): string {
    "-bash: cd: " + (if args == [] then "" else p.quoted(args[0])) + ": No such file or directory\r\n"
  }

  // ----------------------------------------------------------------- writing

  /** A word that a command takes as an operand: it does not begin with a dash. */
  predicate IsOperand(a: string) {
    a == "" || a[0] != '-'
  }

  lemma {:induction false} NonOptionsIff(args: seq<string>)
    ensures forall a :: a in NonOptions(args) <==> a in args && IsOperand(a)
  {
    if args != [] {
      NonOptionsIff(args[1..]);
      assert HasPrefix(args[0], "-") <==> !IsOperand(args[0]) by {
        assert args[0] != "" ==> args[0][..1] == [args[0][0]];
      }
      assert args == [args[0]] + args[1..];
    }
  }

  /** Some write of the list is to the path. */
  ghost predicate WritesTo(ws: seq<Write>, path: string) {
    exists i :: 0 <= i < |ws| && ws[i].path == path
  }

  /** After writes of one body, the paths written to read as that body and all others as before. */
  lemma {:induction false} PutAllReads(p: Persona, s: Session, ws: seq<Write>, body: Option<string>, path: string)
    requires forall i :: 0 <= i < |ws| ==> ws[i].body == body
    ensures Read(p, PutAll(s, ws), path) == if WritesTo(ws, path) then body else Read(p, s, path)
    decreases |ws|
  {
    if ws != [] {
      PutAllReads(p, Put(s, ws[0]), ws[1..], body, path);
      assert WritesTo(ws, path) <==> ws[0].path == path || WritesTo(ws[1..], path) by {
        if WritesTo(ws[1..], path) {
          var i :| 0 <= i < |ws[1..]| && ws[1..][i].path == path;
          assert ws[i + 1].path == path;
        }
        if i :| 0 <= i < |ws| && ws[i].path == path { assert i > 0 ==> ws[1..][i - 1].path == path; }
      }
    }
  }

  /** Only files change. */
  lemma {:induction false} PutAllFrame(s: Session, ws: seq<Write>)
    ensures var after := PutAll(s, ws);
            after.cwd == s.cwd && after.env == s.env && after.lastStatus == s.lastStatus
    decreases |ws|
  {
    if ws != [] { PutAllFrame(Put(s, ws[0]), ws[1..]); }
  }

  /** Where a command writes for an operand: a directory is a key that ends in a slash. */
  function PathOf(p: Persona, s: Session, command: string, a: string): string {
    var path := Resolve(p.home, s.cwd, a);
    if command == "mkdir" then Clean(path) + "/" else path
  }

  lemma {:induction false} OperandsAre(p: Persona, s: Session, command: string, names: seq<string>)
    ensures var ws := OperandWrites(p, s, command, names);
            |ws| == |names| && forall i :: 0 <= i < |names| ==>
              ws[i] == Write(PathOf(p, s, command, names[i]), if command == "rm" then None else Some(""))
  {
    hide Resolve, Clean;
    if names != [] { OperandsAre(p, s, command, names[1..]); }
  }

  /**
   touch makes each operand an empty file, rm makes it unreadable and mkdir makes an empty entry for it; every
   other path reads as before, and nothing is printed.
   */
  lemma WritingCommands(p: Persona, s: Session, name: string, args: seq<string>, stdin: string, path: string)
    requires name in ["touch", "mkdir", "rm"] && Builtin(p, name, args)
    ensures var (after, r) := Command(p, s, [name] + args, stdin);
            && Says(r, "", 0) && after.cwd == s.cwd && after.env == s.env && after.lastStatus == s.lastStatus
            && Read(p, after, path)
               == if exists a :: a in args && IsOperand(a) && PathOf(p, s, name, a) == path
                  then (if name == "rm" then None else Some("")) else Read(p, s, path)
  {
    var names := NonOptions(args);
    var ws := OperandWrites(p, s, name, names);
    NonOptionsIff(args);
    OperandsAre(p, s, name, names);
    PutAllReads(p, s, ws, if name == "rm" then None else Some(""), path);
    PutAllFrame(s, ws);
    WritingRuns(p, s, name, args, stdin);
    hide *;
    assert forall i :: 0 <= i < |names| ==> names[i] in names;
    assert WritesTo(ws, path) <==> exists a :: a in args && IsOperand(a) && PathOf(p, s, name, a) == path by {
      if a :| a in args && IsOperand(a) && PathOf(p, s, name, a) == path {
        var i :| 0 <= i < |names| && names[i] == a;
        assert ws[i].path == path;
      }
    }
  }

  lemma WritingRuns(p: Persona, s: Session, name: string, args: seq<string>, stdin: string)
    requires name in ["touch", "mkdir", "rm"] && Builtin(p, name, args)
    ensures var (after, r) := Command(p, s, [name] + args, stdin);
            Says(r, "", 0) && after == PutAll(s, OperandWrites(p, s, name, NonOptions(args)))
  {
    if name == "touch" { TouchRuns(p, s, args, stdin); }
    if name == "mkdir" { MkdirRuns(p, s, args, stdin); }
    if name == "rm" { RmRuns(p, s, args, stdin); }
    hide *;
  }

  lemma TouchRuns(p: Persona, s: Session, args: seq<string>, stdin: string)
    requires Builtin(p, "touch", args)
    ensures var (after, r) := Command(p, s, ["touch"] + args, stdin);
            Says(r, "", 0) && after == PutAll(s, OperandWrites(p, s, "touch", NonOptions(args)))
  {
    CommandOf(p, s, "touch", args, stdin);
    hide Base, JoinWith, FirstRule, Resolve, IsDir, Crlf, Cat, NonOptions, RuleWrites, OperandWrites, Export, Unset;
    hide Network, PutAll, VarsOf;
  }

  lemma MkdirRuns(p: Persona, s: Session, args: seq<string>, stdin: string)
    requires Builtin(p, "mkdir", args)
    ensures var (after, r) := Command(p, s, ["mkdir"] + args, stdin);
            Says(r, "", 0) && after == PutAll(s, OperandWrites(p, s, "mkdir", NonOptions(args)))
  {
    CommandOf(p, s, "mkdir", args, stdin);
    hide Base, JoinWith, FirstRule, Resolve, IsDir, Crlf, Cat, NonOptions, RuleWrites, OperandWrites, Export, Unset;
    hide Network, PutAll, VarsOf;
  }

  lemma RmRuns(p: Persona, s: Session, args: seq<string>, stdin: string)
    requires Builtin(p, "rm", args)
    ensures var (after, r) := Command(p, s, ["rm"] + args, stdin);
            Says(r, "", 0) && after == PutAll(s, OperandWrites(p, s, "rm", NonOptions(args)))
  {
    CommandOf(p, s, "rm", args, stdin);
    hide Base, JoinWith, FirstRule, Resolve, IsDir, Crlf, Cat, NonOptions, RuleWrites, OperandWrites, Export, Unset;
    hide Network, PutAll, VarsOf;
  }

  // ------------------------------------------------------------- variables

  /** Items are taken one after the other. */
  lemma {:induction false} ExportConcat(s: Session, v: Vars, a: seq<string>, b: seq<string>)
    ensures Export(s, v, a + b) == Export(Export(s, v, a), v, b)
    decreases |a|
  {
    hide ValidEnv;
    if a == [] {
      assert a + b == b;
    } else {
      assert (a + b)[0] == a[0] && (a + b)[1..] == a[1..] + b;
      var i := IndexByte(a[0], '=');
      ExportConcat(if i >= 0 && ValidEnv(v, a[0][..i]) then s.(env := s.env[a[0][..i] := a[0][i + 1..]]) else s, v,
          a[1..], b);
    }
  }

  /** `name=value` sets the name to all that follows the first equals sign; without a name nothing is set. */
  lemma ExportSets(s: Session, v: Vars, name: string, value: string)
    requires '=' !in name
    ensures IsName(name) ==> Export(s, v, [name + "=" + value]) == s.(env := s.env[name := value])
    ensures name == "" || (name[0] in "0123456789" && Ascii(name)) ==> Export(s, v, [name + "=" + value]) == s
    ensures Export(s, v, [name]) == s
  {
    var item := name + "=" + value;
    assert item[|name|] == '=' && forall j :: 0 <= j < |name| ==> item[j] == name[j];
    assert IndexByte(item, '=') == |name| && item[..|name|] == name && item[|name| + 1..] == value;
    assert [item][1..] == [] && [name][1..] == [];
    hide IndexByte;
    assert IndexByte(name, '=') == -1 by { NoByte(name, '='); }
    if IsName(name) { assert forall k :: 0 <= k < |name| ==> NameByte(name[k]); }
  }

  lemma NoByte(s: string, c: char)
    requires c !in s
    ensures IndexByte(s, c) == -1
  {
  }

  lemma {:induction false} UnsetIff(s: Session, names: seq<string>)
    ensures var after := Unset(s, names);
            after == s.(env := after.env) && after.env == s.env - (set n | n in names)
    decreases |names|
  {
    if names != [] {
      UnsetIff(s.(env := s.env - {names[0]}), names[1..]);
      assert (set n | n in names) == {names[0]} + set n | n in names[1..];
    }
  }

  /** export prints nothing and changes the variables alone. */
  lemma ExportRuns(p: Persona, s: Session, args: seq<string>, stdin: string)
    requires Builtin(p, "export", args)
    ensures var (after, r) := Command(p, s, ["export"] + args, stdin);
            Says(r, "", 0) && after == Export(s, VarsOf(p, s), args) && after == s.(env := after.env)
  {
    ExportIs(p, s, args, stdin);
    ExportFrame(s, VarsOf(p, s), args);
    hide *;
  }

  lemma ExportIs(p: Persona, s: Session, args: seq<string>, stdin: string)
    requires Builtin(p, "export", args)
    ensures var (after, r) := Command(p, s, ["export"] + args, stdin);
            Says(r, "", 0) && after == Export(s, VarsOf(p, s), args)
  {
    LateCommands(p, s, "export", args, stdin);
    hide Command, JoinWith, Builtin, Export, VarsOf;
  }

  /** unset prints nothing and forgets the names. */
  lemma UnsetRuns(p: Persona, s: Session, args: seq<string>, stdin: string)
    requires Builtin(p, "unset", args)
    ensures var (after, r) := Command(p, s, ["unset"] + args, stdin);
            Says(r, "", 0) && after == s.(env := s.env - set n | n in args)
  {
    UnsetIff(s, args);
    LateCommands(p, s, "unset", args, stdin);
    hide Command, JoinWith, Builtin, Unset;
  }

  lemma {:induction false} ExportFrame(s: Session, v: Vars, items: seq<string>)
    ensures Export(s, v, items) == s.(env := Export(s, v, items).env)
    decreases |items|
  {
    hide ValidEnv;
    if items != [] {
      var i := IndexByte(items[0], '=');
      ExportFrame(if i >= 0 && ValidEnv(v, items[0][..i]) then s.(env := s.env[items[0][..i] := items[0][i + 1..]])
          else s, v, items[1..]);
    }
  }
}
