/** What a whole session of the emulated shell keeps, and what its lists and pipelines mean. */
module ShellLaws {
  import opened Text
  import opened Paths
  import opened ShellLex
  import opened ShellModel

  // -------------------------------------------------- one plain file map

  /** The files as a single map, updated directly by the same writes. */
  function Plain(files: map<string, string>, writes: seq<Write>): map<string, string> {
    if writes == [] then files
    else
      var before, w := Plain(files, writes[..|writes| - 1]), writes[|writes| - 1];
      match w.body
      case Some(body) => before[w.path := body]
      case None => before - {w.path}
  }

  function Get(files: map<string, string>, path: string): Option<string> {
    if path in files then Some(files[path]) else None
  }

  /** Reading through overlay, tombstones and persona agrees with the plain map. */
  ghost predicate ReadsPlain(p: Persona, s: Session) {
    forall path :: Read(p, s, path) == Get(Plain(p.files, s.writes), path)
  }

  /** The working directory is absolute, and normal unless it is the home directory itself. */
  ghost predicate InPlace(p: Persona, s: Session) {
    Rooted(s.cwd) && (s.cwd == p.home || Normal(s.cwd))
  }

  ghost predicate Sane(p: Persona, s: Session) {
    ReadsPlain(p, s) && InPlace(p, s)
  }

  lemma PutSane(p: Persona, s: Session, w: Write)
    requires Sane(p, s)
    ensures Sane(p, Put(s, w))
  {
    hide Normal;
    var after := Put(s, w);
    assert after.writes[..|after.writes| - 1] == s.writes;
    forall path
      ensures Read(p, after, path) == Get(Plain(p.files, after.writes), path)
    {
      assert Read(p, s, path) == Get(Plain(p.files, s.writes), path);
    }
  }

  lemma {:induction false} PutAllSane(p: Persona, s: Session, ws: seq<Write>)
    requires Sane(p, s)
    ensures Sane(p, PutAll(s, ws))
    decreases |ws|
  {
    hide Sane;
    if ws != [] {
      PutSane(p, s, ws[0]);
      PutAllSane(p, Put(s, ws[0]), ws[1..]);
    }
  }

  /** Only the environment and the status differ. */
  ghost predicate SameFiles(a: Session, b: Session) {
    a.cwd == b.cwd && a.overlay == b.overlay && a.writes == b.writes
  }

  lemma SameFilesSane(p: Persona, a: Session, b: Session)
    requires Sane(p, a) && SameFiles(a, b)
    ensures Sane(p, b)
  {
    hide Normal, Plain;
    forall path
      ensures Read(p, b, path) == Get(Plain(p.files, b.writes), path)
    {
      assert Read(p, a, path) == Get(Plain(p.files, a.writes), path);
    }
  }

  lemma {:induction false} ExportSameFiles(s: Session, v: Vars, items: seq<string>)
    ensures SameFiles(s, Export(s, v, items))
    decreases |items|
  {
    hide ValidEnv;
    if items != [] {
      var i := IndexByte(items[0], '=');
      var next := if i >= 0 && ValidEnv(v, items[0][..i]) then s.(env := s.env[items[0][..i] := items[0][i + 1..]])
          else s;
      ExportSameFiles(next, v, items[1..]);
    }
  }

  lemma {:induction false} UnsetSameFiles(s: Session, names: seq<string>)
    ensures SameFiles(s, Unset(s, names))
    decreases |names|
  {
    if names != [] { UnsetSameFiles(s.(env := s.env - {names[0]}), names[1..]); }
  }

  lemma NetworkSane(p: Persona, s: Session, r: Result, args: seq<string>)
    requires Sane(p, s)
    ensures Sane(p, Network(p, s, r, args).0)
  {
    hide Sane, Resolve, Crlf, Urls, Base, HasPrefix;
    forall w { PutSane(p, s, w); }
  }

  lemma ChangeDirSane(p: Persona, s: Session, target: string)
    requires Sane(p, s) && Rooted(target) && (target == p.home || Normal(target))
    ensures Sane(p, s.(cwd := target, env := s.env["PWD" := target]))
  {
    hide Normal, Plain;
    var after := s.(cwd := target, env := s.env["PWD" := target]);
    forall path
      ensures Read(p, after, path) == Get(Plain(p.files, after.writes), path)
    {
      assert Read(p, s, path) == Get(Plain(p.files, s.writes), path);
    }
  }

  lemma CommandSane(p: Persona, s: Session, args: seq<string>, stdin: string)
    requires Rooted(p.home) && Sane(p, s)
    ensures Sane(p, Command(p, s, args, stdin).0)
  {
    hide Sane, Resolve, Base, IsDir, Crlf, JoinWith, Cat, NonOptions, RuleWrites, OperandWrites, FirstRule, Export,
         Unset, Network, PutAll, Rooted, Normal;
    if args != [] {
      var name, rest := Base(args[0]), args[1..];
      var r := ZERO.(command := name, arguments := JoinWith(rest, " "));
      forall ws { PutAllSane(p, s, ws); }
      var target := if rest == [] then p.home else Resolve(p.home, s.cwd, rest[0]);
      if rest != [] { ResolvePlace(p, s, rest[0]); }
      ChangeDirSane(p, s, target);
      NetworkSane(p, s, r, rest);
      ExportSameFiles(s, VarsOf(p, s), rest);
      SameFilesSane(p, s, Export(s, VarsOf(p, s), rest));
      UnsetSameFiles(s, rest);
      SameFilesSane(p, s, Unset(s, rest));
    }
  }

  lemma ResolvePlace(p: Persona, s: Session, v: string)
    requires Rooted(p.home) && Sane(p, s)
    ensures var t := Resolve(p.home, s.cwd, v); Rooted(t) && (t == p.home || Normal(t))
  {
    hide Clean, Normal, Plain, ReadsPlain;
    ResolveRooted(p.home, s.cwd, v);
  }

  lemma StageSane(p: Persona, s: Session, tokens: seq<Token>, stdin: string)
    requires Rooted(p.home) && Sane(p, s)
    ensures Sane(p, Stage(p, s, tokens, stdin).0)
  {
    hide Sane, Argv, Command, Resolve, Lf, Read;
    var a := Argv(p, s, tokens, NO_ARGS);
    if a.Redirected? {
      forall fed: string
        ensures Sane(p, Command(p, s, a.argv, fed).0)
        ensures forall w :: Sane(p, Put(Command(p, s, a.argv, fed).0, w))
      {
        CommandSane(p, s, a.argv, fed);
        forall w { PutSane(p, Command(p, s, a.argv, fed).0, w); }
      }
    }
  }

  lemma {:induction false} PipeSane(p: Persona, s: Session, tokens: seq<Token>, stdin: string, combined: Result)
    requires Rooted(p.home) && Sane(p, s)
    ensures Sane(p, PipeFrom(p, s, tokens, stdin, combined).0)
    decreases |tokens|
  {
    hide Sane, Stage, Chain, Lf;
    var end := FirstOf(tokens, ["|"]);
    StageSane(p, s, tokens[..end], stdin);
    var (s1, staged) := Stage(p, s, tokens[..end], stdin);
    if staged.Staged? && end < |tokens| {
      PipeSane(p, s1, tokens[end + 1..], Lf(staged.result.output), Chain(combined, staged.result));
    }
  }

  lemma {:induction false} EvalSane(p: Persona, s: Session, tokens: seq<Token>, previous: string, total: Result)
    requires Rooted(p.home) && Sane(p, s)
    ensures Sane(p, EvalFrom(p, s, tokens, previous, total).0)
    decreases |tokens|
  {
    if tokens != [] {
      var end := FirstOf(tokens, LIST_OPS);
      SegmentSane(p, s, tokens[..end], previous, total);
      hide Sane, Segment, Merge;
      if end < |tokens| {
        var (s1, next) := Segment(p, s, tokens[..end], previous, total);
        EvalSane(p, s1, tokens[end + 1..], tokens[end].text, next);
      }
    }
  }

  lemma SegmentSane(p: Persona, s: Session, tokens: seq<Token>, previous: string, total: Result)
    requires Rooted(p.home) && Sane(p, s)
    ensures Sane(p, Segment(p, s, tokens, previous, total).0)
  {
    hide Sane, PipeFrom, Merge;
    PipeSane(p, s, tokens, "", ZERO);
  }

  lemma LineSane(p: Persona, s: Session, input: Str)
    requires Rooted(p.home) && Sane(p, s)
    ensures Sane(p, RunLine(p, s, input).0)
  {
    hide Sane, EvalFrom, TrimSpace, LexSpec;
    TrimSpaceBytes(input);
    var line: Str := TrimSpace(input);
    var lexed := LexSpec(VarsOf(p, s), line);
    SameFilesSane(p, s, s.(lastStatus := 2));
    if lexed.Tokens? {
      EvalSane(p, s, lexed.tokens, ";", ZERO);
      var (s1, r) := EvalFrom(p, s, lexed.tokens, ";", ZERO);
      SameFilesSane(p, s1, s1.(lastStatus := r.exitStatus));
    }
  }

  lemma {:induction false} LinesSane(p: Persona, s: Session, lines: seq<Str>)
    requires Rooted(p.home) && Sane(p, s)
    ensures Sane(p, RunLines(p, s, lines))
    decreases |lines|
  {
    hide Sane, RunLine;
    if lines != [] {
      LineSane(p, s, lines[0]);
      LinesSane(p, RunLine(p, s, lines[0]).0, lines[1..]);
    }
  }

  /** Over every session: reads agree with one plain map, and the working directory stays in place. */
  lemma SessionSane(p: Persona, env: map<string, string>, lines: seq<Str>)
    requires Rooted(p.home)
    ensures var s := RunLines(p, Initial(p, env), lines);
            && (forall path :: Read(p, s, path) == Get(Plain(p.files, s.writes), path))
            && Rooted(s.cwd) && (s.cwd == p.home || Normal(s.cwd))
            && (Normal(p.home) ==> forall v :: Normal(Resolve(p.home, s.cwd, v)))
  {
    hide RunLines, Normal;
    assert Sane(p, Initial(p, env));
    LinesSane(p, Initial(p, env), lines);
    var s := RunLines(p, Initial(p, env), lines);
    if Normal(p.home) { ResolveNormalIff(p.home, s.cwd); }
  }

  // ------------------------------------------- tombstones and directories

  /** isDir as it would be over the plain map. */
  ghost predicate PlainIsDir(files: map<string, string>, dir: string) {
    var d := TrimSlash(Clean(dir)) + "/";
    d == "//" || d == "/" || exists k :: k in files && HasPrefix(k, d)
  }

  /** isDir disagrees with what can be read exactly when all the readable files below are removed persona files. */
  lemma IsDirIff(p: Persona, s: Session, dir: string)
    requires ReadsPlain(p, s)
    ensures var d := TrimSlash(Clean(dir)) + "/";
            (IsDir(p, s, dir) <==> PlainIsDir(Plain(p.files, s.writes), dir))
            <==> (PlainIsDir(Plain(p.files, s.writes), dir)
                  || forall k :: k in p.files && HasPrefix(k, d) ==> !(k in s.overlay && s.overlay[k] == None))
  {
    hide Clean, HasPrefix, Plain;
    var files := Plain(p.files, s.writes);
    forall k
      ensures k in files <==>
                || (k in s.overlay && s.overlay[k].Some?)
                || (k in p.files && !(k in s.overlay && s.overlay[k] == None))
    {
      assert Read(p, s, k) == Get(files, k);
    }
  }

  /** After `rm` of a directory's only file, the file is gone but `cd` still enters the directory. */
  lemma RemovedFileKeepsDirectory(p: Persona, s: Session)
    requires p.files == map["/a/b" := "x"] && s.overlay == map["/a/b" := None]
    ensures Read(p, s, "/a/b") == None && IsDir(p, s, "/a")
  {
    assert IsNormalOf("/a", ["a"]) by { assert "/a" == "/" + JoinSlash(["a"]); }
    CleanFixed("/a");
    hide Clean, Normal, JoinSlash, IsNormalOf, Plain;
    assert "/a/b" in Visible(p, s);
    assert TrimSlash("/a") + "/" == "/a/" && "/a/b"[..3] == "/a/";
  }

  // ----------------------------------------------------------- AND-OR lists

  /** The grammar of POSIX.1-2017 section 2.9.3: operators of equal rank, grouped to the left. */
  datatype AndOr = Pipe(tokens: seq<Token>) | And(left: AndOr, right: seq<Token>) | Or(left: AndOr, right: seq<Token>)

  /** The right-hand pipeline runs according to the status the left-hand list ended with. */
  ghost function Meaning(p: Persona, s: Session, t: AndOr): (Session, Result) {
    match t
    case Pipe(tokens) => Pipeline(p, s, tokens)
    case And(left, right) =>
      var (s1, a) := Meaning(p, s, left);
      if a.exitStatus != 0 then (s1, a) else var (s2, b) := Pipeline(p, s1, right); (s2, Merge(a, b))
    case Or(left, right) =>
      var (s1, a) := Meaning(p, s, left);
      if a.exitStatus == 0 then (s1, a) else var (s2, b) := Pipeline(p, s1, right); (s2, Merge(a, b))
  }

  /** A list runs its members in order, whatever their status and even after `exit`. */
  ghost function MeaningAll(p: Persona, s: Session, list: seq<AndOr>): (Session, Result) {
    if list == [] then (s, ZERO)
    else
      var (s1, a) := MeaningAll(p, s, list[..|list| - 1]);
      var (s2, b) := Meaning(p, s1, list[|list| - 1]);
      (s2, Merge(a, b))
  }

  /** Extend the list with the segment that follows `previous`. */
  function Attach(list: seq<AndOr>, previous: string, segment: seq<Token>): seq<AndOr> {
    if list == [] || previous == ";" then list + [Pipe(segment)]
    else
      var last := list[|list| - 1];
      list[..|list| - 1] + [if previous == "&&" then And(last, segment) else Or(last, segment)]
  }

  function ParseFrom(tokens: seq<Token>, previous: string, list: seq<AndOr>): seq<AndOr>
    decreases |tokens|
  {
    if tokens == [] then list
    else
      var end := FirstOf(tokens, LIST_OPS);
      var next := Attach(list, previous, tokens[..end]);
      if end == |tokens| then next else ParseFrom(tokens[end + 1..], tokens[end].text, next)
  }

  lemma MergeLaws(a: Result, b: Result, c: Result)
    ensures Merge(Merge(a, b), c) == Merge(a, Merge(b, c))
    ensures Merge(ZERO, a) == a
    ensures Merge(a, b).exitStatus == b.exitStatus
  {
    assert (a.output + b.output) + c.output == a.output + (b.output + c.output);
    assert (a.urls + b.urls) + c.urls == a.urls + (b.urls + c.urls);
    assert "" + a.output == a.output && [] + a.urls == a.urls;
  }

  /** One segment: the loop's decision and merge are the meaning of the list with it attached. */
  lemma SegmentMeaning(p: Persona, s: Session, list: seq<AndOr>, previous: string, segment: seq<Token>)
    requires previous in LIST_OPS && (list == [] ==> previous == ";")
    ensures var (s1, total) := MeaningAll(p, s, list);
            MeaningAll(p, s, Attach(list, previous, segment)) == Segment(p, s1, segment, previous, total)
  {
    hide Pipeline, Merge;
    var next := Attach(list, previous, segment);
    if previous == ";" {
      assert next[..|next| - 1] == list;
    } else {
      assert next[..|next| - 1] == list[..|list| - 1];
      var (s0, before) := MeaningAll(p, s, list[..|list| - 1]);
      var (s1, a) := Meaning(p, s0, list[|list| - 1]);
      MergeLaws(before, a, a);
      MergeLaws(before, a, Pipeline(p, s1, segment).1);
    }
  }

  lemma {:induction false} EvalMeaning(p: Persona, s: Session, tokens: seq<Token>, previous: string, list: seq<AndOr>)
    requires previous in LIST_OPS && (list == [] ==> previous == ";")
    ensures var (s1, total) := MeaningAll(p, s, list);
            EvalFrom(p, s1, tokens, previous, total) == MeaningAll(p, s, ParseFrom(tokens, previous, list))
    decreases |tokens|
  {
    hide Segment, MeaningAll, FirstOf;
    if tokens != [] {
      var end := FirstOf(tokens, LIST_OPS);
      SegmentMeaning(p, s, list, previous, tokens[..end]);
      AttachNotEmpty(list, previous, tokens[..end]);
      hide Attach;
      var (s1, total) := MeaningAll(p, s, list);
      var (s2, next) := Segment(p, s1, tokens[..end], previous, total);
      assert EvalFrom(p, s1, tokens, previous, total)
               == if end == |tokens| then (s2, next) else EvalFrom(p, s2, tokens[end + 1..], tokens[end].text, next);
      if end < |tokens| {
        hide EvalFrom;
        EvalMeaning(p, s, tokens[end + 1..], tokens[end].text, Attach(list, previous, tokens[..end]));
      }
    }
  }

  lemma AttachNotEmpty(list: seq<AndOr>, previous: string, segment: seq<Token>)
    ensures Attach(list, previous, segment) != []
  {
  }

  /** The evaluation loop computes the meaning of the left-associative parse, on every token list. */
  lemma EvalIsAndOr(p: Persona, s: Session, tokens: seq<Token>)
    ensures EvalFrom(p, s, tokens, ";", ZERO) == MeaningAll(p, s, ParseFrom(tokens, ";", []))
  {
    hide EvalFrom, Pipeline;
    EvalMeaning(p, s, tokens, ";", []);
  }

  /** What ran before only adds to the result; it decides nothing beyond its last status. */
  lemma {:induction false} EvalAccumulates(p: Persona, s: Session, tokens: seq<Token>, previous: string,
      total: Result, more: Result)
    ensures var (s1, r) := EvalFrom(p, s, tokens, previous, more);
            EvalFrom(p, s, tokens, previous, Merge(total, more)) == (s1, Merge(total, r))
    decreases |tokens|
  {
    hide Segment, FirstOf, Merge, EvalFrom;
    EvalUnfold(p, s, tokens, previous, more);
    EvalUnfold(p, s, tokens, previous, Merge(total, more));
    if tokens != [] {
      var end := FirstOf(tokens, LIST_OPS);
      SegmentAccumulates(p, s, tokens[..end], previous, total, more);
      if end < |tokens| {
        var (s1, next) := Segment(p, s, tokens[..end], previous, more);
        EvalAccumulates(p, s1, tokens[end + 1..], tokens[end].text, total, next);
      }
    }
  }

  lemma EvalUnfold(p: Persona, s: Session, tokens: seq<Token>, previous: string, total: Result)
    ensures EvalFrom(p, s, tokens, previous, total)
         == if tokens == [] then (s, total)
            else
              var end := FirstOf(tokens, LIST_OPS);
              var (s1, next) := Segment(p, s, tokens[..end], previous, total);
              if end == |tokens| then (s1, next) else EvalFrom(p, s1, tokens[end + 1..], tokens[end].text, next)
  {
    hide Segment, FirstOf;
  }

  lemma SegmentAccumulates(p: Persona, s: Session, tokens: seq<Token>, previous: string, total: Result, more: Result)
    ensures var (s1, r) := Segment(p, s, tokens, previous, more);
            Segment(p, s, tokens, previous, Merge(total, more)) == (s1, Merge(total, r))
  {
    MergeLaws(total, more, Pipeline(p, s, tokens).1);
    MergeLaws(total, more, ZERO);
    hide Pipeline, Merge;
  }

  /** `a ; rest` runs the rest from the state a left behind, whatever its status and even if a was `exit`. */
  lemma SequenceContinues(p: Persona, s: Session, tokens: seq<Token>)
    requires var end := FirstOf(tokens, LIST_OPS); end + 1 < |tokens| && tokens[end].text == ";"
    ensures var end := FirstOf(tokens, LIST_OPS);
            var (s1, a) := Pipeline(p, s, tokens[..end]);
            var (s2, b) := EvalFrom(p, s1, tokens[end + 1..], ";", ZERO);
            EvalFrom(p, s, tokens, ";", ZERO) == (s2, Merge(a, b))
  {
    hide Pipeline, FirstOf, Merge;
    var end := FirstOf(tokens, LIST_OPS);
    var (s1, a) := Pipeline(p, s, tokens[..end]);
    MergeLaws(ZERO, a, a);
    MergeLaws(a, a, a);
    FreshStart(p, s1, tokens[end + 1..], a);
  }

  /** After `;` the status so far does not matter. */
  lemma FreshStart(p: Persona, s: Session, tokens: seq<Token>, total: Result)
    requires tokens != []
    ensures var (s1, r) := EvalFrom(p, s, tokens, ";", ZERO);
            EvalFrom(p, s, tokens, ";", total) == (s1, Merge(total, r))
  {
    hide Pipeline, FirstOf, Merge;
    var end := FirstOf(tokens, LIST_OPS);
    var (s1, r) := Pipeline(p, s, tokens[..end]);
    MergeLaws(r, r, r);
    if end < |tokens| { EvalAccumulates(p, s1, tokens[end + 1..], tokens[end].text, total, r); }
  }

  // -------------------------------------------------------------- pipelines

  lemma ChainLaws(a: Result, b: Result, c: Result)
    ensures Chain(Chain(a, b), c) == Chain(a, Chain(b, c))
    ensures Chain(ZERO, a) == a
  {
    assert (a.urls + b.urls) + c.urls == a.urls + (b.urls + c.urls);
    assert [] + a.urls == a.urls;
  }

  lemma {:induction false} PipeAccumulates(p: Persona, s: Session, tokens: seq<Token>, stdin: string, a: Result)
    ensures var (s1, r) := PipeFrom(p, s, tokens, stdin, ZERO);
            PipeFrom(p, s, tokens, stdin, a) == (s1, if PipeBreaks(p, s, tokens, stdin) then r else Chain(a, r))
    decreases |tokens|
  {
    hide Stage, Chain, Lf;
    var end := FirstOf(tokens, ["|"]);
    var (s1, staged) := Stage(p, s, tokens[..end], stdin);
    if staged.Staged? {
      ChainLaws(a, staged.result, ZERO);
      ChainLaws(staged.result, ZERO, ZERO);
      if end < |tokens| {
        var rest, fed := tokens[end + 1..], Lf(staged.result.output);
        PipeAccumulates(p, s1, rest, fed, Chain(a, staged.result));
        PipeAccumulates(p, s1, rest, fed, staged.result);
        ChainLaws(a, staged.result, PipeFrom(p, s1, rest, fed, ZERO).1);
      }
    }
  }

  /** Some stage of the pipeline has a bad redirection. */
  ghost predicate PipeBreaks(p: Persona, s: Session, tokens: seq<Token>, stdin: string)
    decreases |tokens|
  {
    var end := FirstOf(tokens, ["|"]);
    var (s1, staged) := Stage(p, s, tokens[..end], stdin);
    staged.Broken? || (end < |tokens| && PipeBreaks(p, s1, tokens[end + 1..], Lf(staged.result.output)))
  }

  /** `first | rest` runs the first stage, feeds its output with LF line ends to the rest, and chains the results. */
  lemma PipelineFeeds(p: Persona, s: Session, tokens: seq<Token>, stdin: string)
    requires FirstOf(tokens, ["|"]) < |tokens|
    ensures var end := FirstOf(tokens, ["|"]);
            var (s1, staged) := Stage(p, s, tokens[..end], stdin);
            PipeFrom(p, s, tokens, stdin, ZERO)
            == match staged
               case Broken(error) => (s1, error)
               case Staged(r) =>
                 var (s2, last) := PipeFrom(p, s1, tokens[end + 1..], Lf(r.output), ZERO);
                 (s2, if PipeBreaks(p, s1, tokens[end + 1..], Lf(r.output)) then last else Chain(r, last))
  {
    hide Stage, Chain, Lf;
    var end := FirstOf(tokens, ["|"]);
    var (s1, staged) := Stage(p, s, tokens[..end], stdin);
    if staged.Staged? {
      ChainLaws(staged.result, ZERO, ZERO);
      PipeAccumulates(p, s1, tokens[end + 1..], Lf(staged.result.output), staged.result);
    }
  }

  // ---------------------------------------------------------- line endings

  lemma {:induction false} ToCrlfConcat(a: string, b: string)
    ensures ToCrlf(a + b) == ToCrlf(a) + ToCrlf(b)
  {
    if a == "" {
      assert a + b == b;
    } else {
      assert (a + b)[1..] == a[1..] + b;
      ToCrlfConcat(a[1..], b);
    }
  }

  /** Undoing CRLF line ends gives back exactly the text, carriage returns of its own included. */
  lemma {:induction false} LfOfCrlf(s: string)
    ensures Lf(ToCrlf(s)) == s
  {
    if s != "" {
      var t := ToCrlf(s[1..]);
      LfOfCrlf(s[1..]);
      assert s == [s[0]] + s[1..];
      assert t != "" ==> t[0] != '\n';
      if s[0] == '\n' {
        assert ToCrlf(s) == "\r\n" + t && ("\r\n" + t)[2..] == t && ("\r\n" + t)[..2] == "\r\n";
      } else {
        assert ToCrlf(s) == [s[0]] + t && ([s[0]] + t)[1..] == t;
        assert |t| > 0 ==> ([s[0]] + t)[..2][1] == t[0];
      }
    }
  }

  predicate EndsLine(s: string) {
    s != "" && s[|s| - 1] == '\n'
  }

  lemma CrlfEnds(s: string)
    ensures HasSuffix(ToCrlf(s), "\r\n") <==> EndsLine(s)
    ensures ToCrlf(s) + "\r\n" == ToCrlf(s + "\n")
  {
    assert "\n"[1..] == "" && ToCrlf("\n") == "\r\n";
    ToCrlfConcat(s, "\n");
    if s != "" {
      var head, last := s[..|s| - 1], s[|s| - 1];
      assert s == head + [last];
      ToCrlfConcat(head, [last]);
      assert ToCrlf([last]) == if last == '\n' then "\r\n" else [last];
      var t := ToCrlf(s);
      assert t[|t| - 1] == last;
      if last == '\n' {
        assert t[|t| - 2..] == "\r\n";
      } else {
        assert |t| >= 2 ==> t[|t| - 2..][1] == t[|t| - 1];
      }
    }
  }

  lemma {:induction false} LfKeepsEnd(s: string)
    requires EndsLine(s)
    ensures EndsLine(Lf(s))
  {
    if HasPrefix(s, "\r\n") {
      if |s| > 2 { LfKeepsEnd(s[2..]); }
    } else if |s| > 1 {
      LfKeepsEnd(s[1..]);
    }
  }

  /** What a file copied with `cat a > b` holds: LF line ends, the last line ended. */
  function Copied(body: string): string {
    if EndsLine(Lf(body)) then Lf(body) else Lf(body) + "\n"
  }

  lemma CatContent(p: Persona, s: Session, r: Result, name: string, body: string)
    requires r.output == "" && Read(p, s, Resolve(p.home, s.cwd, name)) == Some(body)
    ensures Lf(Cat(p, s, r, [name]).output) == Copied(body)
  {
    hide Lf, ToCrlf, Read, Resolve, HasSuffix;
    var u := Lf(body);
    CrlfEnds(u);
    LfOfCrlf(u);
    LfOfCrlf(u + "\n");
    assert "" + Crlf(body) == ToCrlf(u);
    assert [name][1..] == [];
  }

  lemma CopiedIff(body: string)
    ensures Copied(body) == body <==> Lf(body) == body && EndsLine(body)
  {
    hide Lf;
    if Copied(body) == body && !EndsLine(Lf(body)) {
      assert body[|body| - 1] == '\n';
      LfKeepsEnd(body);
    }
  }

  lemma CatArgv(p: Persona, s: Session, a: string, b: string)
    requires '*' !in a && '?' !in a
    ensures Argv(p, s, [Token("cat", false), Token(a, false), Token(">", true), Token(b, false)], NO_ARGS)
         == Redirected(["cat", a], "", b, false)
  {
    var t := [Token("cat", false), Token(a, false), Token(">", true), Token(b, false)];
    var r1 := NO_ARGS.(argv := ["cat"]);
    var r2 := r1.(argv := ["cat", a]);
    assert '*' !in "cat" && '?' !in "cat";
    assert t[1..][1..] == t[2..] && t[2..][2..] == [];
    assert [] + ["cat"] == ["cat"] && ["cat"] + [a] == ["cat", a];
    assert Argv(p, s, t, NO_ARGS) == Argv(p, s, t[1..], r1);
    assert Argv(p, s, t[1..], r1) == Argv(p, s, t[2..], r2);
    assert Argv(p, s, t[2..], r2) == Argv(p, s, [], r2.(output := b, append := false));
  }

  lemma CatBase()
    ensures Base("cat") == "cat"
  {
    SplitWhole("cat", '/');
  }

  lemma CatCommand(p: Persona, s: Session, a: string)
    requires !HasPrefix(a, "-") && FirstRule(p.rules, "cat", [a]) == None
    ensures Command(p, s, ["cat", a], "")
              == (s, Cat(p, s, ZERO.(command := "cat", arguments := JoinWith([a], " ")), [a]))
  {
    hide FirstRule, JoinWith, Cat;
    CatBase();
    hide Base;
    assert ["cat", a][1..] == [a] && [a][1..] == [] && NonOptions([a]) == [a];
  }

  lemma CatStatus(p: Persona, s: Session, r: Result, a: string)
    requires Read(p, s, Resolve(p.home, s.cwd, a)).Some?
    ensures Cat(p, s, r, [a]).exitStatus == r.exitStatus
  {
    hide Resolve, Crlf, HasSuffix, Read;
    assert [a][1..] == [];
  }

  /** `cat a > b` makes b read back as a exactly when a's lines end in LF, the last one included. */
  lemma CatCopiesIff(p: Persona, s: Session, a: string, b: string, body: string)
    requires '*' !in a && '?' !in a && !HasPrefix(a, "-") && b != ""
    requires FirstRule(p.rules, "cat", [a]) == None && Read(p, s, Resolve(p.home, s.cwd, a)) == Some(body)
    ensures var (after, out) :=
              Stage(p, s, [Token("cat", false), Token(a, false), Token(">", true), Token(b, false)], "");
            && out.Staged? && out.result.output == "" && out.result.exitStatus == 0
            && (Read(p, after, Resolve(p.home, after.cwd, b)) == Some(body) <==> Lf(body) == body && EndsLine(body))
  {
    CatArgv(p, s, a, b);
    CopiedIff(body);
    CatCommand(p, s, a);
    var r := ZERO.(command := "cat", arguments := JoinWith([a], " "));
    CatContent(p, s, r, a, body);
    CatStatus(p, s, r, a);
    hide Argv, Command, Cat, Lf, Resolve, Copied, EndsLine, JoinWith;
    assert "" + Lf(Cat(p, s, r, [a]).output) == Copied(body);
  }
}
