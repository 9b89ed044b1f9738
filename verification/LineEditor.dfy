/** The SSH shell's line editor: a byte buffer with a cursor, and a bounded history. */
module LineEditor {
  import opened Text

  const MAX_LINE := 0x4000
  const MAX_HISTORY := 100

  /** A keystroke as the reader delivers it; `[` sequences carry their final byte. */
  datatype Key = Enter | CtrlC | CtrlD | CtrlU | CtrlW | Tab | Escape(first: char, last: char) | Erase | Typed(c: char)

  // ------------------------------------------------- the reference: a zipper

  /** The text on either side of the cursor. */
  datatype Zipper = Zipper(left: string, right: string)

  /** Everything before the last run of spaces and the word that precedes it. */
  function DropSpaces(s: string): (r: string)
    ensures r <= s && (r == "" || r[|r| - 1] != ' ')
  {
    if s != "" && s[|s| - 1] == ' ' then DropSpaces(s[..|s| - 1]) else s
  }

  function DropWord(s: string): (r: string)
    ensures r <= s && (r == "" || r[|r| - 1] == ' ')
    ensures forall i :: |r| <= i < |s| ==> s[i] != ' '
  {
    if s != "" && s[|s| - 1] != ' ' then DropWord(s[..|s| - 1]) else s
  }

  /** One step back over the first n bytes, for both. */
  lemma DropStep(s: string, n: nat)
    requires n <= |s|
    ensures n > 0 && s[n - 1] == ' ' ==> DropSpaces(s[..n]) == DropSpaces(s[..n - 1]) && DropWord(s[..n]) == s[..n]
    ensures n > 0 && s[n - 1] != ' ' ==> DropWord(s[..n]) == DropWord(s[..n - 1]) && DropSpaces(s[..n]) == s[..n]
    ensures n == 0 ==> DropWord(s[..n]) == DropSpaces(s[..n]) == s[..n]
  {
    if n > 0 { assert s[..n][..n - 1] == s[..n - 1] && s[..n][n - 1] == s[n - 1]; }
  }

  datatype Editor = Editor(z: Zipper, history: seq<string>, historyAt: nat)

  function Blank(s: string): bool {
    s == "" || (AsciiSpace(s[0]) && Blank(s[1..]))
  }

  function Remember(history: seq<string>, line: string): seq<string> {
    if Blank(line) then history
    else if |history| + 1 > MAX_HISTORY then (history + [line])[|history| + 1 - MAX_HISTORY..]
    else history + [line]
  }

  function AtEnd(line: string): Zipper {
    Zipper(line, "")
  }

  /** What each key means. `complete` is the shell's completion of the word before the cursor. */
  function Press(e: Editor, k: Key, complete: string -> string): Editor {
    var Zipper(left, right) := e.z;
    match k
    case Enter =>
      var history := Remember(e.history, left + right);
      Editor(Zipper("", ""), history, |history|)
    case CtrlC => e.(z := Zipper("", ""))
    case CtrlD => e
    case CtrlU => e.(z := Zipper("", ""))
    case CtrlW => e.(z := Zipper(DropWord(DropSpaces(left)), right))
    case Tab =>
      var start := DropWord(left);
      e.(z := Zipper(start + complete(left[|start|..]), right))
    case Escape(first, last) =>
      if first != '[' then e
      else if last == 'A' then
        if e.historyAt > 0 && e.historyAt <= |e.history|
          then e.(historyAt := e.historyAt - 1, z := AtEnd(e.history[e.historyAt - 1])) else e
      else if last == 'B' then
        if e.historyAt + 1 < |e.history| then e.(historyAt := e.historyAt + 1, z := AtEnd(e.history[e.historyAt + 1]))
        else e.(historyAt := |e.history|, z := AtEnd(""))
      else if last == 'C' && right != "" then e.(z := Zipper(left + [right[0]], right[1..]))
      else if last == 'D' && left != "" then e.(z := Zipper(left[..|left| - 1], [left[|left| - 1]] + right))
      else e
    case Erase => if left == "" then e else e.(z := Zipper(left[..|left| - 1], right))
    case Typed(c) => if |left| + |right| < MAX_LINE then e.(z := Zipper(left + [c], right)) else e
  }

  // --------------------------------------------------------------- object

  class Terminal {
    var line: string
    var cursor: nat
    var history: seq<string>
    var historyAt: nat

    predicate Valid()
      reads this
    {
      cursor <= |line| && historyAt <= |history| <= MAX_HISTORY
    }

    function State(): Editor
      requires Valid()
      reads this
    {
      Editor(Zipper(line[..cursor], line[cursor..]), history, historyAt)
    }

    constructor ()
      ensures Valid() && State() == Editor(Zipper("", ""), [], 0)
    {
      line, cursor, history, historyAt := "", 0, [], 0;
    }

    /** Remove the byte before the cursor. */
    method DeleteBefore()
      requires Valid() && cursor > 0
      modifies this`line, this`cursor
      ensures Valid() && cursor == old(cursor) - 1
      ensures line[..cursor] == old(line)[..cursor] && line[cursor..] == old(line)[old(cursor)..]
    {
      line := line[..cursor - 1] + line[cursor..];
      cursor := cursor - 1;
    }

    method DeleteSpaces()
      requires Valid()
      modifies this`line, this`cursor
      ensures Valid()
      ensures line[..cursor] == DropSpaces(old(line[..cursor])) && line[cursor..] == old(line[cursor..])
    {
      ghost var l0, r0 := line[..cursor], line[cursor..];
      hide DropSpaces;
      while cursor > 0 && line[cursor - 1] == ' '
        invariant Valid() && line[cursor..] == r0 && DropSpaces(line[..cursor]) == DropSpaces(l0)
        decreases cursor
      {
        DropStep(line, cursor);
        DeleteBefore();
      }
      DropStep(line, cursor);
    }

    method DeleteWordBefore()
      requires Valid()
      modifies this`line, this`cursor
      ensures Valid()
      ensures line[..cursor] == DropWord(old(line[..cursor])) && line[cursor..] == old(line[cursor..])
    {
      ghost var l0, r0 := line[..cursor], line[cursor..];
      hide DropWord;
      while cursor > 0 && line[cursor - 1] != ' '
        invariant Valid() && line[cursor..] == r0 && DropWord(line[..cursor]) == DropWord(l0)
        decreases cursor
      {
        DropStep(line, cursor);
        DeleteBefore();
      }
      DropStep(line, cursor);
    }

    /** The two loops of Ctrl-W. */
    method DeleteWord()
      requires Valid()
      modifies this`line, this`cursor
      ensures Valid()
      ensures State() == Press(old(State()), CtrlW, x => x)
    {
      hide DropSpaces, DropWord;
      DeleteSpaces();
      DeleteWordBefore();
    }

    /** Where the word before the cursor begins. */
    method WordStart() returns (start: nat)
      requires Valid()
      ensures start <= cursor <= |line| && line[..start] == DropWord(line[..cursor])
    {
      start := cursor;
      while start > 0 && line[start - 1] != ' '
        invariant start <= cursor <= |line| && DropWord(line[..start]) == DropWord(line[..cursor])
      {
        DropStep(line, start);
        start := start - 1;
      }
      DropStep(line, start);
    }

    method CompleteWord(complete: string -> string)
      requires Valid()
      modifies this`line, this`cursor
      ensures Valid()
      ensures State() == Press(old(State()), Tab, complete)
    {
      hide DropWord;
      ghost var l0, r0 := line[..cursor], line[cursor..];
      var start := WordStart();
      var prefix := line[start..cursor];
      assert prefix == l0[start..];
      var completed := complete(prefix);
      if completed != prefix {
        line := line[..start] + completed + line[cursor..];
        cursor := start + |completed|;
        assert line[..cursor] == DropWord(l0) + completed && line[cursor..] == r0;
      } else {
        assert l0 == line[..start] + prefix;
      }
    }

    method Submit()
      requires Valid()
      modifies this
      ensures Valid()
      ensures State() == Press(old(State()), Enter, x => x)
    {
      assert line == line[..cursor] + line[cursor..];
      if !Blank(line) {
        history := history + [line];
        if |history| > MAX_HISTORY { history := history[|history| - MAX_HISTORY..]; }
      }
      historyAt := |history|;
      line, cursor := "", 0;
    }

    method Feed(k: Key, complete: string -> string)
      requires Valid()
      modifies this
      ensures Valid()
      ensures State() == Press(old(State()), k, complete)
    {
      match k {
        case Enter => Submit();
        case CtrlC => line, cursor := "", 0;
        case CtrlD =>
        case CtrlU => line, cursor := "", 0;
        case CtrlW => DeleteWord();
        case Tab => CompleteWord(complete);
        case Escape(first, last) => if first == '[' { Arrow(last); }
        case Erase => if cursor > 0 { DeleteBefore(); }
        case Typed(c) => Insert(c);
      }
    }

    method Arrow(last: char)
      requires Valid()
      modifies this
      ensures Valid()
      ensures State() == Press(old(State()), Escape('[', last), x => x)
    {
      if last == 'A' && historyAt > 0 {
        historyAt := historyAt - 1;
        line := history[historyAt];
        cursor := |line|;
      } else if last == 'B' {
        if historyAt + 1 < |history| {
          historyAt := historyAt + 1;
          line := history[historyAt];
        } else {
          historyAt, line := |history|, "";
        }
        cursor := |line|;
      } else if last == 'C' && cursor < |line| {
        cursor := cursor + 1;
      } else if last == 'D' && cursor > 0 {
        cursor := cursor - 1;
      }
    }

    /** Grow by one, shift the tail up and write at the cursor. */
    method Insert(c: char)
      requires Valid()
      modifies this`line, this`cursor
      ensures Valid()
      ensures State() == Press(old(State()), Typed(c), x => x)
    {
      assert |line| == |line[..cursor]| + |line[cursor..]|;
      if |line| < MAX_LINE {
        line := line[..cursor] + [c] + line[cursor..];
        cursor := cursor + 1;
      }
    }
  }

  // ------------------------------------------------------------ whole runs

  /** A key with the shell's completion, and whether the session ends with the command that Enter runs. */
  datatype Stroke = Stroke(k: Key, complete: string -> string, leaves: bool)

  const START := Editor(Zipper("", ""), [], 0)

  ghost function PressAll(keys: seq<Stroke>): Editor {
    if keys == [] then START else Press(PressAll(keys[..|keys| - 1]), keys[|keys| - 1].k, keys[|keys| - 1].complete)
  }

  /** The lines entered that are not blank, in order. */
  ghost function Submitted(keys: seq<Stroke>): seq<string> {
    if keys == [] then []
    else
      var e := PressAll(keys[..|keys| - 1]);
      var text := e.z.left + e.z.right;
      Submitted(keys[..|keys| - 1]) + if keys[|keys| - 1].k == Enter && !Blank(text) then [text] else []
  }

  function LastLines(lines: seq<string>): (h: seq<string>)
    ensures |h| == if |lines| < 100 then |lines| else 100
  {
    if |lines| <= MAX_HISTORY then lines else lines[|lines| - MAX_HISTORY..]
  }

  /** Over every key sequence: the history is the last hundred lines entered, and the cursor into it stays in range. */
  lemma {:induction false} HistoryIsLastLines(keys: seq<Stroke>)
    ensures PressAll(keys).history == LastLines(Submitted(keys))
    ensures PressAll(keys).historyAt <= |PressAll(keys).history|
    decreases |keys|
  {
    if keys != [] {
      var before, last := keys[..|keys| - 1], keys[|keys| - 1];
      HistoryIsLastLines(before);
      PressHistory(PressAll(before), last.k, last.complete);
      hide Press, Remember, LastLines;
      var e := PressAll(before);
      var text := e.z.left + e.z.right;
      if last.k == Enter && !Blank(text) {
        LastLinesAppend(Submitted(before), text);
      } else {
        assert Submitted(before) + [] == Submitted(before);
      }
    }
  }

  /** Only Enter on a line that is not blank changes the history. */
  lemma PressHistory(e: Editor, k: Key, complete: string -> string)
    requires e.historyAt <= |e.history|
    ensures var text := e.z.left + e.z.right;
            Press(e, k, complete).history == if k == Enter && !Blank(text) then Remember(e.history, text) else e.history
    ensures Press(e, k, complete).historyAt <= |Press(e, k, complete).history|
  {
    hide Blank, DropWord, DropSpaces;
  }

  lemma LastLinesAppend(lines: seq<string>, text: string)
    requires !Blank(text)
    ensures Remember(LastLines(lines), text) == LastLines(lines + [text])
  {
    hide Blank;
  }

  /** The session ends at Ctrl-D on an empty line, or with the command of an Enter. */
  ghost predicate Ends(keys: seq<Stroke>, i: nat)
    requires i < |keys|
  {
    match keys[i].k
    case Enter => keys[i].leaves
    case CtrlD => PressAll(keys[..i]).z == AtEnd("")
    case _ => false
  }

  /** The array-and-cursor terminal is the zipper after the same keys, up to the key that ends the session. */
  method Session(keys: seq<Stroke>) returns (t: Terminal, read: nat)
    ensures read <= |keys| && t.Valid() && t.State() == PressAll(keys[..read])
    ensures forall i: nat :: i + 1 < read ==> !Ends(keys, i)
    ensures read < |keys| ==> read > 0 && Ends(keys, read - 1)
  {
    hide Press;
    read := 0;
    t := new Terminal();
    while read < |keys|
      invariant fresh(t) && read <= |keys| && t.Valid() && t.State() == PressAll(keys[..read])
      invariant forall i: nat :: i < read ==> !Ends(keys, i)
    {
      var stroke := keys[read];
      assert keys[..read + 1][..read] == keys[..read];
      var empty := |t.line| == 0;
      t.Feed(stroke.k, stroke.complete);
      read := read + 1;
      if (stroke.k == CtrlD && empty) || (stroke.k == Enter && stroke.leaves) { return; }
    }
  }

  // --------------------------------------- what each key does to line and cursor

  function Line(e: Editor): string {
    e.z.left + e.z.right
  }

  function Cursor(e: Editor): nat {
    |e.z.left|
  }

  /** From e to f the bytes from `at` to e's cursor became `text`, with the cursor after it; the history stays. */
  ghost predicate Edited(e: Editor, f: Editor, at: nat, text: string)
    requires at <= Cursor(e)
  {
    && Line(f) == Line(e)[..at] + text + Line(e)[Cursor(e)..] && Cursor(f) == at + |text|
    && f.history == e.history && f.historyAt == e.historyAt
  }

  /** The line is `line` with the cursor at its end, at place `at` of the history. */
  ghost predicate Shows(e: Editor, f: Editor, line: string, at: nat) {
    Line(f) == line && Cursor(f) == |line| && f.history == e.history && f.historyAt == at
  }

  /** The last word of s, if any, starts at `at`. */
  predicate WordAt(s: string, at: nat) {
    at <= |s| && (at == 0 || s[at - 1] == ' ') && ' ' !in s[at..]
  }

  /** Typing and deleting: below the limit a byte goes in at the cursor, and Erase takes the one before it. */
  lemma TypingEdits(e: Editor, c: char, complete: string -> string)
    ensures if |Line(e)| < 16384 then Edited(e, Press(e, Typed(c), complete), Cursor(e), [c])
            else Press(e, Typed(c), complete) == e
    ensures if Cursor(e) > 0 then Edited(e, Press(e, Erase, complete), Cursor(e) - 1, "")
            else Press(e, Erase, complete) == e
  {
  }

  /** Ctrl-W takes the spaces before the cursor and the word before them. */
  lemma CtrlWEdits(e: Editor, complete: string -> string)
    ensures exists at: nat, end: nat ::
              && at <= end <= Cursor(e) && WordAt(Line(e)[..end], at)
              && (forall i :: end <= i < Cursor(e) ==> Line(e)[i] == ' ') && (end > 0 ==> Line(e)[end - 1] != ' ')
              && Edited(e, Press(e, CtrlW, complete), at, "")
  {
    var left := e.z.left;
    var kept := DropSpaces(left);
    var at, end := |DropWord(kept)|, |kept|;
    DropSpacesOnly(left);
    assert Line(e)[..end] == kept && left[..at] == DropWord(kept);
    assert Edited(e, Press(e, CtrlW, complete), at, "");
    assert WordAt(Line(e)[..end], at);
  }

  lemma {:induction false} DropSpacesOnly(s: string)
    ensures forall i :: |DropSpaces(s)| <= i < |s| ==> s[i] == ' '
  {
    if s != "" && s[|s| - 1] == ' ' { DropSpacesOnly(s[..|s| - 1]); }
  }

  /** Tab puts the shell's completion in place of the word before the cursor. */
  lemma TabEdits(e: Editor, complete: string -> string)
    ensures exists at: nat :: WordAt(Line(e)[..Cursor(e)], at)
                && Edited(e, Press(e, Tab, complete), at, complete(Line(e)[at..Cursor(e)]))
  {
    var left := e.z.left;
    var at := |DropWord(left)|;
    assert Line(e)[..Cursor(e)] == left && left[..at] == DropWord(left) && Line(e)[at..Cursor(e)] == left[at..];
    assert WordAt(left, at);
  }

  /** Enter, Ctrl-C and Ctrl-U clear the line; Ctrl-D and other sequences leave it. */
  lemma LineKeys(e: Editor, complete: string -> string, first: char, last: char)
    ensures Line(Press(e, Enter, complete)) == "" && Cursor(Press(e, Enter, complete)) == 0
    ensures Press(e, Enter, complete).historyAt == |Press(e, Enter, complete).history|
    ensures Shows(e, Press(e, CtrlC, complete), "", e.historyAt)
    ensures Shows(e, Press(e, CtrlU, complete), "", e.historyAt)
    ensures Press(e, CtrlD, complete) == e
    ensures first != '[' || last !in "ABCD" ==> Press(e, Escape(first, last), complete) == e
  {
    hide Remember;
  }

  /** The arrows up and down walk the history to an empty line after its newest. */
  lemma HistoryKeys(e: Editor, complete: string -> string)
    requires e.historyAt <= |e.history|
    ensures var f := Press(e, UP, complete);
            if e.historyAt > 0 then Shows(e, f, e.history[e.historyAt - 1], e.historyAt - 1) else f == e
    ensures var f := Press(e, DOWN, complete);
            if e.historyAt + 1 < |e.history| then Shows(e, f, e.history[e.historyAt + 1], e.historyAt + 1)
            else Shows(e, f, "", |e.history|)
  {
  }

  /** The arrows to the side move the cursor by one, and nothing else. */
  lemma CursorKeys(e: Editor, complete: string -> string)
    ensures var f := Press(e, RIGHT, complete);
            if Cursor(e) < |Line(e)| then f == e.(z := f.z) && Line(f) == Line(e) && Cursor(f) == Cursor(e) + 1
            else f == e
    ensures var f := Press(e, LEFT, complete);
            if Cursor(e) > 0 then f == e.(z := f.z) && Line(f) == Line(e) && Cursor(f) == Cursor(e) - 1 else f == e
  {
  }

  /** Of what was entered, lines of ASCII white space alone are not remembered, and the last hundred others are. */
  lemma {:induction false} BlankIff(s: string)
    ensures Blank(s) <==> forall i :: 0 <= i < |s| ==> s[i] == ' ' || 9 <= s[i] as int <= 13
  {
    if s != "" {
      BlankIff(s[1..]);
      assert forall i :: 0 < i < |s| ==> s[i] == s[1..][i - 1];
    }
  }

  // ------------------------------------------------------- what undoes what

  const UP := Escape('[', 'A')
  const DOWN := Escape('[', 'B')
  const RIGHT := Escape('[', 'C')
  const LEFT := Escape('[', 'D')

  /** Erase undoes a typed byte; stepping right undoes stepping left. */
  lemma EditsUndo(e: Editor, c: char, complete: string -> string)
    ensures |e.z.left| + |e.z.right| < MAX_LINE ==> Press(Press(e, Typed(c), complete), Erase, complete) == e
    ensures e.z.left != "" ==> Press(Press(e, LEFT, complete), RIGHT, complete) == e
    ensures e.z.right != "" ==> Press(Press(e, RIGHT, complete), LEFT, complete) == e
  {
    var Zipper(left, right) := e.z;
    assert (left + [c])[..|left|] == left;
    if left != "" { assert left[..|left| - 1] + [left[|left| - 1]] == left; }
    if right != "" { assert [right[0]] + right[1..] == right && (left + [right[0]])[..|left|] == left; }
  }

  ghost function Repeat(e: Editor, k: Key, n: nat, complete: string -> string): Editor {
    if n == 0 then e else Press(Repeat(e, k, n - 1, complete), k, complete)
  }

  lemma {:induction false} UpTimes(e: Editor, n: nat, complete: string -> string)
    requires e.historyAt == |e.history| && 0 < n <= |e.history|
    ensures Repeat(e, UP, n, complete) == Editor(AtEnd(e.history[|e.history| - n]), e.history, |e.history| - n)
  {
    if n > 1 { UpTimes(e, n - 1, complete); }
  }

  lemma {:induction false} DownTimes(e: Editor, n: nat, complete: string -> string)
    requires e.historyAt + n <= |e.history| && n > 0
    ensures Repeat(e, DOWN, n, complete)
         == Editor(AtEnd(if e.historyAt + n < |e.history| then e.history[e.historyAt + n] else ""), e.history,
             e.historyAt + n)
  {
    if n > 1 { DownTimes(e, n - 1, complete); }
  }

  /** Browsing up and back down returns to the fresh line exactly when nothing had been typed on it. */
  lemma BrowsingIff(e: Editor, n: nat, complete: string -> string)
    requires e.historyAt == |e.history| && 0 < n <= |e.history|
    ensures Repeat(Repeat(e, UP, n, complete), DOWN, n, complete) == e <==> e.z == Zipper("", "")
  {
    UpTimes(e, n, complete);
    DownTimes(Repeat(e, UP, n, complete), n, complete);
  }
}
