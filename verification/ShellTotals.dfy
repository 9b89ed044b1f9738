/** What a line's result says about the parts that ran, and what it leaves for the next line. */
module ShellTotals {
  import opened Text
  import opened ShellLex
  import opened ShellModel
  import opened ShellLaws
  import opened ShellLines

  // ----------------------------------------------------------------- reports

  function Outputs(rs: seq<Result>): string {
    if rs == [] then "" else Outputs(rs[..|rs| - 1]) + rs[|rs| - 1].output
  }

  function AllUrls(rs: seq<Result>): seq<string> {
    if rs == [] then [] else AllUrls(rs[..|rs| - 1]) + rs[|rs| - 1].urls
  }

  function Delays(rs: seq<Result>): int {
    if rs == [] then 0 else Delays(rs[..|rs| - 1]) + rs[|rs| - 1].delayMS
  }

  /** `text` is what the last of the parts that say anything says. */
  ghost predicate LastSaid(said: seq<string>, text: string) {
    if forall i :: 0 <= i < |said| ==> said[i] == "" then text == ""
    else exists i :: 0 <= i < |said| && said[i] == text != "" && forall j :: i < j < |said| ==> said[j] == ""
  }

  function Gaps(rs: seq<Result>): (gaps: seq<string>)
    ensures |gaps| == |rs| && forall i :: 0 <= i < |rs| ==> gaps[i] == rs[i].gap
  {
    seq(|rs|, i requires 0 <= i < |rs| => rs[i].gap)
  }

  function Observations(rs: seq<Result>): (seen: seq<string>)
    ensures |seen| == |rs| && forall i :: 0 <= i < |rs| ==> seen[i] == rs[i].observation
  {
    seq(|rs|, i requires 0 <= i < |rs| => rs[i].observation)
  }

  /** What any part can set, and what adds up. */
  ghost predicate Sums(rs: seq<Result>, t: Result) {
    && (t.exit <==> exists i :: 0 <= i < |rs| && rs[i].exit)
    && (t.unsupported <==> exists i :: 0 <= i < |rs| && rs[i].unsupported)
    && t.urls == AllUrls(rs) && t.delayMS == Delays(rs)
  }

  /** What the last part decides. */
  predicate EndsAs(rs: seq<Result>, t: Result) {
    if rs == [] then t.exitStatus == 0 && t.command == "" && t.arguments == ""
    else var last := rs[|rs| - 1];
         t.exitStatus == last.exitStatus && t.command == last.command && t.arguments == last.arguments
  }

  /**
   The session ends if any part says so, and the same goes for unsupported syntax; URLs and delays add up; gap and
   observation are the last ones reported; command, arguments and status are those of the last part.
   */
  ghost predicate Reports(rs: seq<Result>, t: Result) {
    Sums(rs, t) && EndsAs(rs, t) && LastSaid(Gaps(rs), t.gap) && LastSaid(Observations(rs), t.observation)
  }

  lemma SaidNext(said: seq<string>, text: string, next: string)
    requires LastSaid(said, text)
    ensures LastSaid(said + [next], if next != "" then next else text)
  {
    var more := said + [next];
    assert more[|said|] == next && forall i :: 0 <= i < |said| ==> more[i] == said[i];
    if next == "" && text != "" {
      var i :| 0 <= i < |said| && said[i] == text != "" && forall j :: i < j < |said| ==> said[j] == "";
      assert more[i] == text;
    }
  }

  lemma SumsNext(rs: seq<Result>, t: Result, r: Result)
    requires Sums(rs, t)
    ensures Sums(rs + [r], Chain(t, r)) && Sums(rs + [r], Merge(t, r))
    ensures Outputs(rs + [r]) == Outputs(rs) + r.output
  {
    var more := rs + [r];
    assert more[..|more| - 1] == rs && more[|rs|] == r;
    assert forall i :: 0 <= i < |rs| ==> more[i] == rs[i];
  }

  lemma ReportsNext(rs: seq<Result>, t: Result, r: Result)
    requires Reports(rs, t)
    ensures Reports(rs + [r], Chain(t, r)) && Reports(rs + [r], Merge(t, r))
    ensures Outputs(rs + [r]) == Outputs(rs) + r.output
  {
    hide LastSaid, Sums, Outputs, Gaps, Observations;
    SumsNext(rs, t, r);
    SaidNext(Gaps(rs), t.gap, r.gap);
    SaidNext(Observations(rs), t.observation, r.observation);
    PartsNext(rs, r);
  }

  lemma PartsNext(rs: seq<Result>, r: Result)
    ensures Gaps(rs + [r]) == Gaps(rs) + [r.gap] && Observations(rs + [r]) == Observations(rs) + [r.observation]
  {
  }

  lemma NothingReported()
    ensures Reports([], ZERO) && Outputs([]) == ""
  {
  }

  // ------------------------------------------------------------------- lists

  /** The results of the pipelines of a list that ran, in order. */
  ghost function Ran(p: Persona, s: Session, tokens: seq<Token>, previous: string, total: Result): seq<Result>
    decreases |tokens|
  {
    if tokens == [] then []
    else
      var end := FirstOf(tokens, LIST_OPS);
      var mine := if Runs(previous, total) then [Pipeline(p, s, tokens[..end]).1] else [];
      var (s1, next) := Segment(p, s, tokens[..end], previous, total);
      if end == |tokens| then mine else mine + Ran(p, s1, tokens[end + 1..], tokens[end].text, next)
  }

  lemma {:induction false} EvalReports(p: Persona, s: Session, tokens: seq<Token>, previous: string, total: Result,
      past: seq<Result>)
    requires Reports(past, total) && total.output == Outputs(past)
    ensures var (r, all) := (EvalFrom(p, s, tokens, previous, total).1, past + Ran(p, s, tokens, previous, total));
            Reports(all, r) && r.output == Outputs(all)
    decreases |tokens|
  {
    hide Pipeline, Reports, Outputs, Merge, FirstOf, Runs;
    if tokens == [] {
      assert past + [] == past;
    } else {
      var end := FirstOf(tokens, LIST_OPS);
      var mine := if Runs(previous, total) then [Pipeline(p, s, tokens[..end]).1] else [];
      var (s1, next) := Segment(p, s, tokens[..end], previous, total);
      assert past + [] == past;
      SegmentReports(p, s, tokens[..end], previous, total, past);
      hide Segment;
      if end < |tokens| {
        EvalReports(p, s1, tokens[end + 1..], tokens[end].text, next, past + mine);
        var rest := Ran(p, s1, tokens[end + 1..], tokens[end].text, next);
        assert past + (mine + rest) == (past + mine) + rest;
      }
    }
  }

  lemma SegmentReports(p: Persona, s: Session, tokens: seq<Token>, previous: string, total: Result, past: seq<Result>)
    requires Reports(past, total) && total.output == Outputs(past)
    ensures var all := past + if Runs(previous, total) then [Pipeline(p, s, tokens).1] else [];
            var r := Segment(p, s, tokens, previous, total).1;
            Reports(all, r) && r.output == Outputs(all)
  {
    ReportsNext(past, total, Pipeline(p, s, tokens).1);
    assert past + [] == past;
    hide Pipeline, Reports, Outputs, Runs;
  }

  /** A list prints what its pipelines that ran print, one after the other, and reports what they report. */
  lemma ListReports(p: Persona, s: Session, tokens: seq<Token>)
    ensures var (r, ran) := (EvalFrom(p, s, tokens, ";", ZERO).1, Ran(p, s, tokens, ";", ZERO));
            Reports(ran, r) && r.output == Outputs(ran)
  {
    hide EvalFrom, Reports, Ran;
    NothingReported();
    EvalReports(p, s, tokens, ";", ZERO, []);
    assert [] + Ran(p, s, tokens, ";", ZERO) == Ran(p, s, tokens, ";", ZERO);
  }

  // --------------------------------------------------------------- pipelines

  /** The results of a pipeline's stages, up to one with a bad redirection. */
  ghost function Staging(p: Persona, s: Session, tokens: seq<Token>, stdin: string): seq<Result>
    decreases |tokens|
  {
    var end := FirstOf(tokens, ["|"]);
    var (s1, staged) := Stage(p, s, tokens[..end], stdin);
    if staged.Broken? then []
    else
      [staged.result] + if end == |tokens| then [] else Staging(p, s1, tokens[end + 1..], Lf(staged.result.output))
  }

  /** The first stage of a pipeline without a bad redirection, and the rest. */
  lemma PipeUnfold(p: Persona, s: Session, tokens: seq<Token>, stdin: string, combined: Result)
    requires !PipeBreaks(p, s, tokens, stdin)
    ensures var end := FirstOf(tokens, ["|"]);
            var (s1, staged) := Stage(p, s, tokens[..end], stdin);
            && staged.Staged?
            && var (r, next) := (staged.result, Chain(combined, staged.result));
               if end == |tokens| then
                 PipeFrom(p, s, tokens, stdin, combined) == (s1, next) && Staging(p, s, tokens, stdin) == [r]
               else
                 var (rest, fed) := (tokens[end + 1..], Lf(r.output));
                 && !PipeBreaks(p, s1, rest, fed)
                 && PipeFrom(p, s, tokens, stdin, combined) == PipeFrom(p, s1, rest, fed, next)
                 && Staging(p, s, tokens, stdin) == [r] + Staging(p, s1, rest, fed)
  {
    hide Stage, Chain, Lf, FirstOf;
    var end := FirstOf(tokens, ["|"]);
    var (s1, staged) := Stage(p, s, tokens[..end], stdin);
    assert staged.Staged?;
    var r := staged.result;
    assert [r] + [] == [r];
    if end < |tokens| {
      var rest, fed := tokens[end + 1..], Lf(r.output);
      assert PipeFrom(p, s, tokens, stdin, combined) == PipeFrom(p, s1, rest, fed, Chain(combined, r));
      assert Staging(p, s, tokens, stdin) == [r] + Staging(p, s1, rest, fed);
    }
  }

  lemma {:induction false} PipeReports(p: Persona, s: Session, tokens: seq<Token>, stdin: string, combined: Result,
      past: seq<Result>)
    requires Reports(past, combined) && !PipeBreaks(p, s, tokens, stdin)
    ensures var (r, all) := (PipeFrom(p, s, tokens, stdin, combined).1, past + Staging(p, s, tokens, stdin));
            Reports(all, r) && all != [] && r.output == all[|all| - 1].output
    decreases |tokens|
  {
    hide Stage, Reports, Chain, Lf, FirstOf, PipeFrom, PipeBreaks, Staging;
    var end := FirstOf(tokens, ["|"]);
    PipeUnfold(p, s, tokens, stdin, combined);
    var (s1, staged) := Stage(p, s, tokens[..end], stdin);
    var r := staged.result;
    ReportsNext(past, combined, r);
    ChainOutput(combined, r);
    if end < |tokens| {
      var rest, fed := tokens[end + 1..], Lf(r.output);
      PipeReports(p, s1, rest, fed, Chain(combined, r), past + [r]);
      assert past + ([r] + Staging(p, s1, rest, fed)) == (past + [r]) + Staging(p, s1, rest, fed);
    }
  }

  lemma ChainOutput(a: Result, b: Result)
    ensures Chain(a, b).output == b.output
  {
  }

  /** A pipeline without a bad redirection prints what its last stage prints and reports what all of them report. */
  lemma PipelineReports(p: Persona, s: Session, tokens: seq<Token>)
    requires !PipeBreaks(p, s, tokens, "")
    ensures var (r, all) := (Pipeline(p, s, tokens).1, Staging(p, s, tokens, ""));
            Reports(all, r) && all != [] && r.output == all[|all| - 1].output
  {
    hide PipeFrom, Reports, Staging, PipeBreaks;
    NothingReported();
    PipeReports(p, s, tokens, "", ZERO, []);
    assert [] + Staging(p, s, tokens, "") == Staging(p, s, tokens, "");
  }

  // -------------------------------------------------------------------- lines

  predicate IsBlank(c: char) {
    c == ' ' || '\t' <= c <= '\r'
  }

  /** A line is trimmed of all white space at either end, and of nothing else. */
  lemma {:induction false} TrimIs(s: string) returns (i: nat, j: nat)
    ensures i <= j <= |s| && TrimSpace(s) == s[i..j]
    ensures forall k :: 0 <= k < i || j <= k < |s| ==> IsBlank(s[k])
    ensures i < j ==> !IsBlank(s[i]) && !IsBlank(s[j - 1])
    decreases |s|
  {
    if s != "" && AsciiSpace(s[0]) {
      i, j := TrimIs(s[1..]);
      assert s[1..][i..j] == s[i + 1..j + 1];
      assert forall k :: 0 < k < |s| ==> s[k] == s[1..][k - 1];
      i, j := i + 1, j + 1;
    } else if s != "" && AsciiSpace(s[|s| - 1]) {
      i, j := TrimIs(s[..|s| - 1]);
      assert s[..|s| - 1][i..j] == s[i..j];
    } else {
      i, j := 0, |s|;
      assert s[..] == s;
    }
  }

  /** Whatever the line, `$?` on the next one is the status this one ended with. */
  lemma StatusIsLast(p: Persona, s: Session, line: Str)
    ensures RunLine(p, s, line).0.lastStatus == RunLine(p, s, line).1.exitStatus
    ensures VarsOf(p, RunLine(p, s, line).0).lastStatus == Itoa(RunLine(p, s, line).1.exitStatus)
  {
    hide LexSpec, EvalFrom, TrimSpace, Itoa;
  }

  /** A blank line changes nothing and prints nothing. */
  lemma BlankLine(p: Persona, s: Session, line: Str)
    requires forall k :: 0 <= k < |line| ==> IsBlank(line[k])
    ensures RunLine(p, s, line) == (s, ZERO.(exitStatus := s.lastStatus))
  {
    var i, j := TrimIs(line);
    assert i == j;
    hide LexSpec, EvalFrom, TrimSpace;
  }

  /** A line that does not lex runs nothing: it only sets the status to 2 and is reported as unsupported. */
  lemma RejectedLine(p: Persona, s: Session, line: Str)
    requires IsTrim(line) && line != "" && LexSpec(VarsOf(p, s), line).Rejected?
    ensures var (after, r) := RunLine(p, s, line);
            && after == s.(lastStatus := 2) && r.exitStatus == 2 && r.unsupported && r.gap != "" && !r.exit
            && r.arguments == line
            && r.output == "-bash: " + (match LexSpec(VarsOf(p, s), line).error
                 case Unsupported => "syntax not supported"
                 case BadSubstitution => "bad substitution"
                 case JobControl => "job control is not supported"
                 case UnclosedQuote => "unclosed quote") + "\r\n"
  {
    Trimmed(line);
    hide LexSpec, EvalFrom, TrimSpace;
  }

  /** The decimal digits of a status, most significant first, after a minus sign if it is negative. */
  lemma {:induction false} ItoaValue(n: nat)
    ensures Itoa(n) != "" && (forall i :: 0 <= i < |Itoa(n)| ==> '0' <= Itoa(n)[i] <= '9')
    ensures Decimal(Itoa(n)) == n && (Itoa(n)[0] == '0' <==> n == 0)
    ensures n > 0 ==> Itoa(0 - n) == "-" + Itoa(n)
  {
    if n >= 10 {
      ItoaValue(n / 10);
      var s := Itoa(n);
      assert s[..|s| - 1] == Itoa(n / 10);
    } else {
      assert Itoa(n) == [('0' as int + n) as char];
    }
  }

  function Decimal(s: string): int {
    if s == "" then 0 else 10 * Decimal(s[..|s| - 1]) + (s[|s| - 1] as int - '0' as int)
  }
}
