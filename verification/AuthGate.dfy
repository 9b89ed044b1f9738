/** The authentication gate: honey credentials pass at once, others on the third failure of a window. */
module AuthGate {
  import opened Text

  /** Ten minutes in nanoseconds. */
  const WINDOW := 600_000_000_000

  type Key = (string, string)

  /**
   * One login attempt. `honey` is the persona's verdict on the credentials, `tested` the clock as read
   * against an open window, and `stamped` the clock as read again when a window opens.
   */
  datatype Attempt = Attempt(source: string, protocol: string, honey: bool, tested: int, stamped: int)

  datatype Window = Window(started: int, failures: nat)

  function KeyOf(a: Attempt): Key {
    (a.source, a.protocol)
  }

  predicate Lapsed(w: Option<Window>, a: Attempt) {
    w == None || a.tested - w.value.started > WINDOW
  }

  /** The window an attempt counts into, after counting it. */
  function Counted(w: Option<Window>, a: Attempt): Window {
    if Lapsed(w, a) then Window(a.stamped, 1) else Window(w.value.started, w.value.failures + 1)
  }

  predicate Accepts(w: Option<Window>, a: Attempt) {
    a.honey || Counted(w, a).failures >= 3
  }

  function Get(windows: map<Key, Window>, k: Key): Option<Window> {
    if k in windows then Some(windows[k]) else None
  }

  function Put(windows: map<Key, Window>, k: Key, w: Option<Window>): map<Key, Window> {
    if w == None then windows - {k} else windows[k := w.value]
  }

  function NextWindow(w: Option<Window>, a: Attempt): Option<Window> {
    if Accepts(w, a) then None else Some(Counted(w, a))
  }

  // ------------------------------------------------------- histories of the gate

  /** What the gate stores after a history of attempts on any keys. */
  function WindowsAfter(h: seq<Attempt>): map<Key, Window> {
    if h == [] then map[] else
      var (before, a) := (WindowsAfter(h[..|h| - 1]), h[|h| - 1]);
      Put(before, KeyOf(a), NextWindow(Get(before, KeyOf(a)), a))
  }

  /** The attempts on one key. */
  function Own(h: seq<Attempt>, k: Key): seq<Attempt> {
    if h == [] then [] else Own(h[..|h| - 1], k) + if KeyOf(h[|h| - 1]) == k then [h[|h| - 1]] else []
  }

  /** The window after a history of attempts on a single key. */
  function WindowAfter(h: seq<Attempt>): Option<Window> {
    if h == [] then None else NextWindow(WindowAfter(h[..|h| - 1]), h[|h| - 1])
  }

  /** A key's window depends only on that key's own attempts. */
  lemma {:induction false} KeysAreIndependent(h: seq<Attempt>, k: Key)
    ensures Get(WindowsAfter(h), k) == WindowAfter(Own(h, k))
  {
    hide NextWindow;
    if h != [] {
      KeysAreIndependent(h[..|h| - 1], k);
      var (own, a) := (Own(h[..|h| - 1], k), h[|h| - 1]);
      assert (own + [a])[..|own|] == own;
      assert own + [] == own;
    }
  }

  // ------------------------------------------------------------ the third failure

  /**
   * The attempt that opened the window attempt `i` counts into, found from the attempts alone: a window
   * ends with honey credentials, with its third attempt, or when a later attempt finds it lapsed.
   */
  function Opener(h: seq<Attempt>, i: nat): (o: nat)
    requires i < |h|
    ensures i - 2 <= o <= i
  {
    if i == 0 then 0 else
      var o := Opener(h, i - 1);
      if h[i - 1].honey || i - 1 - o == 2 || h[i].tested - h[o].stamped > WINDOW then i else o
  }

  /** Attempt `i` passes. */
  predicate Admitted(h: seq<Attempt>, i: nat)
    requires i < |h|
  {
    h[i].honey || i - Opener(h, i) == 2
  }

  /** The stored counter is the distance from the opener. */
  lemma {:induction false} WindowIsOpener(h: seq<Attempt>, n: nat)
    requires n <= |h|
    ensures WindowAfter(h[..n]) ==
            if n == 0 || Admitted(h, n - 1) then None
              else Some(Window(h[Opener(h, n - 1)].stamped, n - Opener(h, n - 1)))
  {
    if n > 0 {
      WindowIsOpener(h, n - 1);
      assert h[..n][..n - 1] == h[..n - 1];
    }
  }

  /** Attempt `i` passes exactly when it carries honey credentials or is the third of its own key's window. */
  lemma AcceptedIff(h: seq<Attempt>, i: nat)
    requires i < |h|
    ensures var own := Own(h[..i + 1], KeyOf(h[i]));
            && |own| > 0 && own[|own| - 1] == h[i]
            && (Accepts(Get(WindowsAfter(h[..i]), KeyOf(h[i])), h[i]) <==> Admitted(own, |own| - 1))
  {
    var k := KeyOf(h[i]);
    var own := Own(h[..i], k);
    KeysAreIndependent(h[..i], k);
    assert h[..i + 1][..i] == h[..i];
    assert Own(h[..i + 1], k) == own + [h[i]];
    OwnVerdict(own + [h[i]], |own|);
    assert (own + [h[i]])[..|own|] == own;
  }

  lemma OwnVerdict(h: seq<Attempt>, i: nat)
    requires i < |h|
    ensures Accepts(WindowAfter(h[..i]), h[i]) <==> Admitted(h, i)
  {
    hide WindowAfter;
    WindowIsOpener(h, i);
  }

  /** The documented promise: without honey credentials, three failures of one key within ten minutes. */
  lemma PassesOnlyOnThird(h: seq<Attempt>, i: nat)
    requires i < |h| && Admitted(h, i) && !h[i].honey
    ensures i >= 2 && !Admitted(h, i - 1) && !Admitted(h, i - 2)
    ensures h[i - 1].tested - h[i - 2].stamped <= 600_000_000_000
    ensures h[i].tested - h[i - 2].stamped <= 600_000_000_000
  {
    assert Opener(h, i - 1) == i - 2;
    assert i == 2 || Opener(h, i - 3) <= i - 3;
  }

  /**
   * The converse is not promised, because the window is anchored at its first failure and does not roll:
   * three failures within ten minutes pass if and only if the first of them found no open window.
   */
  lemma ThreeWithinTenPassIff(h: seq<Attempt>, i: nat)
    requires 2 <= i < |h| && !h[i].honey && !Admitted(h, i - 1) && !Admitted(h, i - 2)
    requires h[i - 1].tested - h[i - 2].stamped <= 600_000_000_000
    requires h[i].tested - h[i - 2].stamped <= 600_000_000_000
    ensures Admitted(h, i) <==> Lapsed(WindowAfter(h[..i - 2]), h[i - 2])
  {
    hide WindowAfter;
    WindowIsOpener(h, i - 2);
    assert Opener(h, i - 2) == i - 2 || Opener(h, i - 2) == i - 3;
  }

  function Minute(m: int): int {
    m * 60_000_000_000
  }

  /** Failures at minutes 0, 9, 11 and 12: the last three lie within ten minutes, yet the fourth fails. */
  lemma WindowDoesNotRoll()
    ensures var h := seq(4, (i: nat) requires i < 4 => var t := Minute([0, 9, 11, 12][i]);
              Attempt("192.0.2.1", "ssh", false, t, t));
            h[3].tested - h[1].stamped <= WINDOW && forall i: nat :: i < 4 ==> !Admitted(h, i)
  {
    var h := seq(4, (i: nat) requires i < 4 => var t := Minute([0, 9, 11, 12][i]);
        Attempt("192.0.2.1", "ssh", false, t, t));
    assert Opener(h, 0) == 0;
    assert Opener(h, 1) == 0;
    assert Opener(h, 2) == 2;
    assert Opener(h, 3) == 2;
  }

  // ------------------------------------------------------------------- the gate

  /** Stored counts are one or two. */
  ghost predicate Small(windows: map<Key, Window>) {
    forall k :: k in windows ==> 1 <= windows[k].failures <= 2
  }

  lemma StepSmall(windows: map<Key, Window>, k: Key, a: Attempt)
    requires Small(windows)
    ensures var next := if Accepts(Get(windows, k), a) then windows - {k}
              else windows[k := Counted(Get(windows, k), a)];
            Put(windows, k, NextWindow(Get(windows, k), a)) == next && Small(next)
  {
  }

  lemma LastAttempt(h: seq<Attempt>, a: Attempt)
    ensures WindowsAfter(h + [a]) == Put(WindowsAfter(h), KeyOf(a), NextWindow(Get(WindowsAfter(h), KeyOf(a)), a))
    ensures var own := Own(h + [a], KeyOf(a));
            |own| > 0 && (Accepts(Get(WindowsAfter(h), KeyOf(a)), a) <==> Admitted(own, |own| - 1))
  {
    hide Admitted, Opener, Accepts, NextWindow, Put;
    assert (h + [a])[..|h|] == h && (h + [a])[..|h| + 1] == h + [a];
    AcceptedIff(h + [a], |h|);
  }

  /** One attempt: the verdict, the stored windows, and their bounds. */
  lemma AttemptStep(h: seq<Attempt>, a: Attempt)
    requires Small(WindowsAfter(h))
    ensures var windows, k := WindowsAfter(h), KeyOf(a);
            var accepted := Accepts(Get(windows, k), a);
            var own := Own(h + [a], k);
            && |own| > 0 && accepted == Admitted(own, |own| - 1)
            && WindowsAfter(h + [a]) == (if accepted then windows - {k} else windows[k := Counted(Get(windows, k), a)])
            && Small(WindowsAfter(h + [a]))
  {
    LastAttempt(h, a);
    StepSmall(WindowsAfter(h), KeyOf(a), a);
    hide *;
  }

  /** The branches of one attempt in terms of the stored windows. */
  lemma Branches(windows: map<Key, Window>, k: Key, a: Attempt)
    ensures var lapsed := k !in windows || a.tested - windows[k].started > WINDOW;
            var next := if lapsed then Window(a.stamped, 1) else Window(windows[k].started, windows[k].failures + 1);
            && Counted(Get(windows, k), a) == next
            && (Accepts(Get(windows, k), a) <==> a.honey || next.failures >= 3)
  {
  }

  class Gate {
    var windows: map<Key, Window>
    /** Every attempt so far. */
    ghost var log: seq<Attempt>

    ghost predicate Valid()
      reads this
    {
      windows == WindowsAfter(log) && Small(windows)
    }

    constructor ()
      ensures Valid() && log == []
    {
      windows, log := map[], [];
    }

    method Accept(source: string, protocol: string, honey: bool, tested: int, stamped: int) returns (accepted: bool)
      requires Valid()
      modifies this
      ensures Valid() && log == old(log) + [Attempt(source, protocol, honey, tested, stamped)]
      ensures var own := Own(log, (source, protocol));
              |own| > 0 && accepted == Admitted(own, |own| - 1)
      ensures var (k, a) := ((source, protocol), Attempt(source, protocol, honey, tested, stamped));
              windows == if accepted then old(windows) - {k} else old(windows)[k := Counted(Get(old(windows), k), a)]
    {
      ghost var a := Attempt(source, protocol, honey, tested, stamped);
      hide Own, Admitted, Opener, WindowsAfter, Small, Accepts, Counted, Get, Put, NextWindow;
      AttemptStep(log, a);
      Branches(windows, (source, protocol), a);
      var k := (source, protocol);
      log := log + [a];
      if honey {
        windows := windows - {k};
        return true;
      }
      var w := if k in windows then windows[k] else Window(0, 0);
      if k !in windows || tested - w.started > WINDOW {
        w := Window(stamped, 0);
      }
      w := w.(failures := w.failures + 1);
      if w.failures >= 3 {
        windows := windows - {k};
        return true;
      }
      windows := windows[k := w];
      return false;
    }
  }
}
