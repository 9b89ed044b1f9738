/** Go's slash-separated path functions, as far as the emulated shell relies on them. */
module Paths {
  import opened Text

  function JoinSlash(parts: seq<string>): string {
    if parts == [] then "" else if |parts| == 1 then parts[0] else parts[0] + "/" + JoinSlash(parts[1..])
  }

  /** Process path elements from left to right over a stack of kept ones. */
  function Reduce(parts: seq<string>, rooted: bool, kept: seq<string>): seq<string> {
    if parts == [] then kept
    else
      var p := parts[0];
      var next :=
        if p == "" || p == "." then kept
        else if p == ".." then
          if kept != [] && kept[|kept| - 1] != ".." then kept[..|kept| - 1]
          else if rooted then kept
          else kept + [p]
        else kept + [p];
      Reduce(parts[1..], rooted, next)
  }

  predicate Rooted(p: string) {
    p != "" && p[0] == '/'
  }

  /** path.Clean */
  function Clean(p: string): string {
    if p == "" then "."
    else
      var body := JoinSlash(Reduce(Split(p, '/'), Rooted(p), []));
      if Rooted(p) then "/" + body else if body == "" then "." else body
  }

  /** path.Join of two elements. */
  function Join(a: string, b: string): string {
    if a == "" && b == "" then "" else if a == "" then Clean(b) else Clean(a + "/" + b)
  }

  /** path.Base */
  function Base(p: string): string {
    if p == "" then "."
    else
      var t := TrimSlashes(p);
      if t == "" then "/" else var parts := Split(t, '/'); parts[|parts| - 1]
  }

  function TrimSlashes(p: string): string {
    if p != "" && p[|p| - 1] == '/' then TrimSlashes(p[..|p| - 1]) else p
  }

  predicate Element(p: string) {
    p != "" && p != "." && p != ".." && '/' !in p
  }

  /** An absolute path with no empty, "." or ".." element and no trailing slash, except the root itself. */
  ghost predicate Normal(p: string) {
    exists parts :: IsNormalOf(p, parts)
  }

  predicate IsNormalOf(p: string, parts: seq<string>) {
    p == "/" + JoinSlash(parts) && forall i :: 0 <= i < |parts| ==> Element(parts[i])
  }

  lemma {:induction false} ReduceRooted(parts: seq<string>, kept: seq<string>)
    requires forall i :: 0 <= i < |parts| ==> '/' !in parts[i]
    requires forall i :: 0 <= i < |kept| ==> Element(kept[i])
    ensures forall i :: 0 <= i < |Reduce(parts, true, kept)| ==> Element(Reduce(parts, true, kept)[i])
  {
    if parts != [] {
      var p := parts[0];
      var next := if p == "" || p == "." then kept
                  else if p == ".." then (if kept != [] then kept[..|kept| - 1] else kept)
                  else kept + [p];
      assert kept != [] ==> Element(kept[|kept| - 1]);
      ReduceRooted(parts[1..], next);
    }
  }

  lemma CleanNormal(p: string)
    requires Rooted(p)
    ensures Normal(Clean(p)) && Rooted(Clean(p))
  {
    ReduceRooted(Split(p, '/'), []);
    assert IsNormalOf(Clean(p), Reduce(Split(p, '/'), true, []));
  }

  lemma {:induction false} SplitJoin(parts: seq<string>)
    requires parts != [] && forall i :: 0 <= i < |parts| ==> '/' !in parts[i]
    ensures Split(JoinSlash(parts), '/') == parts
  {
    if |parts| == 1 {
      SplitWhole(parts[0], '/');
      assert parts == [parts[0]];
    } else {
      SplitJoin(parts[1..]);
      SplitAt(parts[0], '/', JoinSlash(parts[1..]));
      assert JoinSlash(parts) == parts[0] + ['/'] + JoinSlash(parts[1..]);
      assert parts == [parts[0]] + parts[1..];
    }
  }

  lemma {:induction false} ReduceKeeps(parts: seq<string>, kept: seq<string>)
    requires forall i :: 0 <= i < |parts| ==> Element(parts[i])
    ensures Reduce(parts, true, kept) == kept + parts
  {
    if parts == [] {
      assert kept + [] == kept;
    } else {
      ReduceKeeps(parts[1..], kept + [parts[0]]);
      assert kept + [parts[0]] + parts[1..] == kept + parts;
    }
  }

  /** Clean leaves an absolute path alone exactly when it is normal. */
  lemma CleanFixed(p: string)
    requires Rooted(p)
    ensures Clean(p) == p <==> Normal(p)
  {
    CleanNormal(p);
    if Normal(p) {
      var parts :| IsNormalOf(p, parts);
      if p == "/" {
        SplitAt("", '/', "");
        SplitWhole("", '/');
        assert p == "" + ['/'] + "" && [""] + [""] == ["", ""] && ["", ""][1..] == [""] && [""][1..] == [];
        assert Reduce(["", ""], true, []) == Reduce([""], true, []) == [];
      } else {
        NormalParts(p, parts);
        assert ([""] + parts)[1..] == parts && [] + parts == parts;
        ReduceKeeps(parts, []);
        assert Reduce([""] + parts, true, []) == Reduce(parts, true, []) == parts;
      }
    }
  }

  /** The shell's resolve: `~`, `~/...`, absolute, or relative to the working directory. */
  function Resolve(home: string, cwd: string, v: string): string {
    if v == "~" then home
    else
      var v1 := if HasPrefix(v, "~/") then Join(home, v[2..]) else v;
      Clean(if HasPrefix(v1, "/") then v1 else Join(cwd, v1))
  }

  lemma JoinRooted(a: string, b: string)
    requires Rooted(a)
    ensures Rooted(Join(a, b))
  {
    CleanNormal(a + "/" + b);
  }

  lemma ResolveRooted(home: string, cwd: string, v: string)
    requires Rooted(home) && Rooted(cwd)
    ensures Rooted(Resolve(home, cwd, v))
    ensures v != "~" ==> Normal(Resolve(home, cwd, v))
  {
    hide Clean, Normal;
    if v != "~" {
      var v1 := if HasPrefix(v, "~/") then Join(home, v[2..]) else v;
      JoinRooted(cwd, v1);
      CleanNormal(if HasPrefix(v1, "/") then v1 else Join(cwd, v1));
    }
  }

  /** Every path the shell resolves is normal exactly when the home directory is. */
  lemma ResolveNormalIff(home: string, cwd: string)
    requires Rooted(home) && Rooted(cwd)
    ensures (forall v: string :: Normal(Resolve(home, cwd, v))) <==> Normal(home)
  {
    assert Resolve(home, cwd, "~") == home;
    forall v: string
      ensures v != "~" ==> Normal(Resolve(home, cwd, v))
    {
      ResolveRooted(home, cwd, v);
    }
  }

  lemma {:induction false} JoinSplit(s: string)
    ensures JoinSlash(Split(s, '/')) == s
  {
    if s != "" {
      JoinSplit(s[1..]);
      var rest, parts := Split(s[1..], '/'), Split(s, '/');
      assert s == [s[0]] + s[1..];
      if s[0] == '/' {
        assert parts[1..] == rest;
        assert JoinSlash(parts) == "/" + JoinSlash(rest);
      } else {
        assert parts[1..] == rest[1..];
        assert JoinSlash(parts) == [s[0]] + JoinSlash(rest);
      }
    }
  }

  lemma HomeParts(name: string)
    ensures Split("/home/" + name, '/') == [""] + (["home"] + Split(name, '/'))
    ensures "/home/" + name == "/" + JoinSlash(["home"] + Split(name, '/'))
  {
    assert "/home/" + name == "" + ['/'] + ("home" + ['/'] + name);
    SplitAt("home", '/', name);
    SplitAt("", '/', "home" + ['/'] + name);
    JoinSplit(name);
    assert (["home"] + Split(name, '/'))[1..] == Split(name, '/');
    hide Split;
  }

  /** The default home directory of a login name is normal exactly when every part of the name is a plain element. */
  lemma HomeNormalIff(name: string)
    ensures Normal("/home/" + name) <==> forall i :: 0 <= i < |Split(name, '/')| ==> Element(Split(name, '/')[i])
  {
    var p, parts := "/home/" + name, ["home"] + Split(name, '/');
    HomeParts(name);
    assert Element("home");
    hide JoinSlash, Split, Element;
    if forall i :: 0 <= i < |Split(name, '/')| ==> Element(Split(name, '/')[i]) {
      assert IsNormalOf(p, parts);
    }
    if Normal(p) {
      var others :| IsNormalOf(p, others);
      NormalParts(p, others);
      assert ([""] + others)[1..] == others && ([""] + parts)[1..] == parts;
      assert forall i :: 0 <= i < |Split(name, '/')| ==> Split(name, '/')[i] == others[i + 1];
    }
  }

  lemma NormalParts(p: string, parts: seq<string>)
    requires IsNormalOf(p, parts) && p != "/"
    ensures Split(p, '/') == [""] + parts
  {
    if parts != [] {
      SplitJoin(parts);
      SplitAt("", '/', JoinSlash(parts));
      assert p == "" + ['/'] + JoinSlash(parts);
    }
  }

  // ---------------------------------------------------- what cleaning means

  /** The path of x in the directory d. */
  function Child(d: string, x: string): string {
    if d == "/" then "/" + x else d + "/" + x
  }

  lemma {:induction false} SplitConcat(a: string, c: char, b: string)
    ensures Split(a + [c] + b, c) == Split(a, c) + Split(b, c)
  {
    if a == "" {
      assert (a + [c] + b)[1..] == b;
    } else {
      assert (a + [c] + b)[1..] == a[1..] + [c] + b;
      SplitConcat(a[1..], c, b);
    }
  }

  lemma {:induction false} ReduceConcat(a: seq<string>, b: seq<string>, rooted: bool, kept: seq<string>)
    ensures Reduce(a + b, rooted, kept) == Reduce(b, rooted, Reduce(a, rooted, kept))
    decreases |a|
  {
    if a == [] {
      assert a + b == b;
    } else {
      assert (a + b)[0] == a[0] && (a + b)[1..] == a[1..] + b;
      forall next { ReduceConcat(a[1..], b, rooted, next); }
    }
  }

  /** The elements that cleaning an absolute path leaves. */
  function Stack(p: string): seq<string> {
    Reduce(Split(p, '/'), true, [])
  }

  lemma StackSlash(a: string, b: string)
    ensures Stack(a + "/" + b) == Reduce(Split(b, '/'), true, Stack(a))
  {
    SplitConcat(a, '/', b);
    ReduceConcat(Split(a, '/'), Split(b, '/'), true, []);
  }

  lemma StackElements(p: string)
    ensures forall i :: 0 <= i < |Stack(p)| ==> Element(Stack(p)[i])
  {
    ReduceRooted(Split(p, '/'), []);
  }

  lemma StackRoot()
    ensures Stack("/") == []
  {
    SplitConcat("", '/', "");
    assert "" + ['/'] + "" == "/";
    assert [""] + [""] == ["", ""] && ["", ""][1..] == [""] && [""][1..] == [];
    assert Reduce(["", ""], true, []) == Reduce([""], true, []) == [];
  }

  lemma StackOf(parts: seq<string>)
    requires forall i :: 0 <= i < |parts| ==> Element(parts[i])
    ensures Stack("/" + JoinSlash(parts)) == parts
  {
    if parts == [] {
      StackRoot();
      assert "/" + JoinSlash(parts) == "/";
    } else {
      SplitJoin(parts);
      SplitAt("", '/', JoinSlash(parts));
      assert "/" + JoinSlash(parts) == "" + ['/'] + JoinSlash(parts);
      assert ([""] + parts)[1..] == parts && [] + parts == parts;
      ReduceKeeps(parts, []);
      assert Reduce([""] + parts, true, []) == Reduce(parts, true, []);
    }
  }

  lemma CleanStack(p: string)
    requires Rooted(p)
    ensures Clean(p) == "/" + JoinSlash(Stack(p)) && Stack(Clean(p)) == Stack(p)
  {
    StackElements(p);
    StackOf(Stack(p));
  }

  /** Cleaning the front of an absolute path first changes nothing. */
  lemma CleanFront(a: string, b: string)
    requires Rooted(a)
    ensures Clean(a + "/" + b) == Clean(Clean(a) + "/" + b)
  {
    CleanStack(a);
    CleanNormal(a);
    StackSlash(a, b);
    StackSlash(Clean(a), b);
    assert Rooted(a + "/" + b) && Rooted(Clean(a) + "/" + b);
    CleanStack(a + "/" + b);
    CleanStack(Clean(a) + "/" + b);
    hide Clean, Stack;
  }

  lemma {:induction false} JoinAppend(parts: seq<string>, x: string)
    requires parts != [] && parts[0] != ""
    requires forall i :: 0 <= i < |parts| ==> parts[i] != ""
    ensures JoinSlash(parts + [x]) == JoinSlash(parts) + "/" + x && JoinSlash(parts) != ""
  {
    assert (parts + [x])[0] == parts[0] && (parts + [x])[1..] == parts[1..] + [x];
    if |parts| == 1 {
      assert parts[1..] + [x] == [x];
    } else {
      JoinAppend(parts[1..], x);
      var (a, b) := (parts[0] + "/", JoinSlash(parts[1..]));
      assert a + (b + "/" + x) == (a + b) + "/" + x;
    }
  }

  lemma JoinLast(parts: seq<string>, x: string)
    requires forall i :: 0 <= i < |parts| ==> Element(parts[i])
    ensures "/" + JoinSlash(parts + [x]) == Child("/" + JoinSlash(parts), x)
  {
    if parts == [] {
      assert parts + [x] == [x];
    } else {
      JoinAppend(parts, x);
      Regroup(JoinSlash(parts), x);
      hide JoinSlash;
    }
  }

  lemma Regroup(s: string, x: string)
    ensures "/" + (s + "/" + x) == ("/" + s) + "/" + x && (s != "" ==> "/" + s != "/")
  {
    if s != "" { assert |"/" + s| > 1; }
  }

  /** One plain element goes down, ".." goes up again, and ".", a second slash and a trailing one stay. */
  lemma CleanSteps(d: string, x: string)
    requires Normal(d) && Element(x)
    ensures Clean(d + "/" + x) == Child(d, x)
    ensures Clean(d + "/" + x + "/" + "..") == d
    ensures Clean(d + "/" + ".") == d && Clean(d + "/" + "") == d && Clean(d + "//") == d
  {
    var parts :| IsNormalOf(d, parts);
    StackOf(parts);
    SplitWhole(x, '/');
    SplitWhole("..", '/');
    SplitWhole(".", '/');
    StackSlash(d, x);
    StackSlash(d + "/" + x, "..");
    StackSlash(d, ".");
    StackSlash(d, "");
    assert d + "//" == (d + "/" + "") + "/" + "";
    StackSlash(d + "/" + "", "");
    assert [x][1..] == [] && [".."][1..] == [] && ["."][1..] == [] && [""][1..] == [];
    assert Reduce([x], true, parts) == parts + [x];
    assert (parts + [x])[..|parts|] == parts;
    assert Reduce([".."], true, parts + [x]) == parts;
    JoinLast(parts, x);
    hide Split, Stack, Reduce;
  }

  lemma RootHasNoParent()
    ensures Clean("/..") == "/"
  {
    assert "/.." == "" + ['/'] + "..";
    SplitConcat("", '/', "..");
    SplitWhole("..", '/');
    assert [""] + [".."] == ["", ".."] && ["", ".."][1..] == [".."] && [".."][1..] == [];
    assert Reduce(["", ".."], true, []) == Reduce([".."], true, []) == [];
  }

  lemma TrimNone(p: string)
    requires p != "" && p[|p| - 1] != '/'
    ensures TrimSlashes(p) == p
  {
  }

  /** The base of a path is its last element, with or without a slash after it; a plain name is its own. */
  lemma BaseIsLast(d: string, x: string)
    requires x != "" && '/' !in x
    ensures Base(x) == x && Base(d + "/" + x) == x && Base(d + "/" + x + "/") == x
  {
    SplitWhole(x, '/');
    SplitConcat(d, '/', x);
    assert d + "/" + x == d + ['/'] + x;
    TrimNone(x);
    TrimNone(d + "/" + x);
    var p := d + "/" + x + "/";
    assert p[..|p| - 1] == d + "/" + x;
    assert TrimSlashes(p) == TrimSlashes(d + "/" + x);
    hide Split, TrimSlashes;
  }

  // -------------------------------------------------- cleaning relative paths

  /** Elements of a relative path with the ones that go up. */
  predicate Step(p: string) {
    Element(p) || p == ".."
  }

  lemma {:induction false} ReduceTwice(parts: seq<string>, kept: seq<string>, stack: seq<string>)
    requires forall i :: 0 <= i < |parts| ==> '/' !in parts[i]
    requires forall i :: 0 <= i < |kept| ==> Step(kept[i])
    requires forall i :: 0 <= i < |stack| ==> Element(stack[i])
    ensures Reduce(Reduce(parts, false, kept), true, stack) == Reduce(parts, true, Reduce(kept, true, stack))
    ensures forall i :: 0 <= i < |Reduce(parts, false, kept)| ==> Step(Reduce(parts, false, kept)[i])
    decreases |parts|
  {
    if parts != [] {
      var p := parts[0];
      if p == "" || p == "." {
        ReduceTwice(parts[1..], kept, stack);
      } else if p == ".." && kept != [] && kept[|kept| - 1] != ".." {
        var less, x := kept[..|kept| - 1], kept[|kept| - 1];
        assert kept == less + [x];
        ReduceConcat(less, [x], true, stack);
        assert [x][1..] == [];
        var below := Reduce(less, true, stack);
        StackStays(less, stack);
        assert Reduce([x], true, below) == below + [x] && (below + [x])[..|below|] == below;
        ReduceTwice(parts[1..], less, stack);
      } else {
        ReduceConcat(kept, [p], true, stack);
        assert [p][1..] == [];
        ReduceTwice(parts[1..], kept + [p], stack);
      }
    }
  }

  lemma {:induction false} StackStays(parts: seq<string>, stack: seq<string>)
    requires forall i :: 0 <= i < |parts| ==> Step(parts[i])
    requires forall i :: 0 <= i < |stack| ==> Element(stack[i])
    ensures forall i :: 0 <= i < |Reduce(parts, true, stack)| ==> Element(Reduce(parts, true, stack)[i])
  {
    ReduceRooted(parts, stack);
  }

  /** A relative path and its cleaned form lead from every directory to the same place. */
  lemma CleanRelative(d: string, p: string)
    requires Rooted(d) && !Rooted(p)
    ensures Clean(d + "/" + Clean(p)) == Clean(d + "/" + p)
  {
    var parts := Split(p, '/');
    var r := Reduce(parts, false, []);
    StackElements(d);
    ReduceTwice(parts, [], Stack(d));
    assert Reduce([], true, Stack(d)) == Stack(d);
    StackSlash(d, p);
    StackSlash(d, Clean(p));
    SplitWhole(".", '/');
    SplitWhole("", '/');
    assert [""][1..] == [] && ["."][1..] == [];
    if p == "" || r == [] {
      assert Clean(p) == ".";
    } else {
      SplitJoin(r);
      JoinNotEmpty(r);
    }
    CleanStack(d + "/" + p);
    CleanStack(d + "/" + Clean(p));
    hide Split, Reduce, Clean;
  }

  lemma JoinNotEmpty(r: seq<string>)
    requires r != [] && r[0] != ""
    ensures JoinSlash(r) != ""
  {
  }

  // --------------------------------------------------------- resolved paths

  lemma ChildNormal(d: string, x: string)
    requires Normal(d) && Element(x)
    ensures Normal(Child(d, x)) && Clean(Child(d, x)) == Child(d, x) && Clean(d) == d
    ensures Rooted(d) && Rooted(Child(d, x))
  {
    CleanSteps(d, x);
    CleanNormal(d + "/" + x);
    hide Clean, Normal;
    CleanFixed(Child(d, x));
    CleanFixed(d);
  }

  lemma ChildParent(d: string, x: string)
    requires Normal(d) && Element(x)
    ensures Clean(Child(d, x) + "/" + "..") == d
  {
    CleanSteps(d, x);
    CleanFront(d + "/" + x, "..");
  }

  lemma RootParent()
    ensures Clean("/" + "/" + "..") == "/"
  {
    StackRoot();
    SplitWhole("..", '/');
    StackSlash("/", "..");
    assert [".."][1..] == [];
    assert Reduce([".."], true, []) == [] && "/" + JoinSlash([]) == "/";
    hide Clean, Stack;
    CleanStack("/" + "/" + "..");
  }

  lemma PlainName(x: string)
    requires Element(x)
    ensures !HasPrefix(x, "~/") && !HasPrefix(x, "/")
  {
    assert |x| >= 2 ==> x[..2][1] == x[1];
    assert |x| >= 1 ==> x[..1][0] == x[0];
  }

  lemma ResolveRelative(home: string, d: string, v: string)
    requires Rooted(d) && !HasPrefix(v, "~/") && !HasPrefix(v, "/") && v != "~"
    ensures Resolve(home, d, v) == Clean(d + "/" + v)
  {
    CleanNormal(d + "/" + v);
    var p := Clean(d + "/" + v);
    assert Join(d, v) == p && p[..1] == "/";
    CleanFixed(p);
    hide Clean, Normal;
  }

  /** A plain name resolves to that name below the working directory. */
  lemma ResolveChild(home: string, d: string, x: string)
    requires Normal(d) && Element(x) && x != "~"
    ensures Resolve(home, d, x) == Child(d, x)
  {
    PlainName(x);
    ResolveRelative(home, d, x);
    CleanSteps(d, x);
    hide *;
  }

  /** ".." resolves to the parent, which the root does not have, and "." or nothing to the directory itself. */
  lemma ResolveParent(home: string, d: string, x: string)
    requires Normal(d) && Element(x)
    ensures Resolve(home, Child(d, x), "..") == d && Resolve(home, "/", "..") == "/"
    ensures Resolve(home, d, ".") == d && Resolve(home, d, "") == d
  {
    ChildNormal(d, x);
    ChildParent(d, x);
    RootParent();
    CleanSteps(d, x);
    hide Clean, Normal, Element, Resolve;
    assert ".."[..2][0] == '.' && ".."[..1][0] == '.' && "."[..1][0] == '.';
    ResolveRelative(home, Child(d, x), "..");
    ResolveRelative(home, "/", "..");
    ResolveRelative(home, d, ".");
    ResolveRelative(home, d, "");
  }

  /** "~" is the home directory, and what follows "~/" is below it. */
  lemma ResolveHome(home: string, cwd: string, x: string)
    requires Normal(home) && Element(x)
    ensures Resolve(home, cwd, "~") == home && Resolve(home, cwd, "~/" + x) == Child(home, x)
  {
    var v := "~/" + x;
    assert v[..2] == "~/" && v[2..] == x;
    CleanSteps(home, x);
    ChildNormal(home, x);
    var p := Child(home, x);
    assert Join(home, x) == p && p[..1] == "/";
    hide Clean, Normal, Element;
  }

  /** An absolute path resolves to itself cleaned, from everywhere. */
  lemma ResolveAbsolute(home: string, cwd: string, v: string)
    requires Rooted(v)
    ensures Resolve(home, cwd, v) == Clean(v)
  {
    hide Clean;
    assert v[..1] == "/";
    assert |v| >= 2 ==> v[..2][0] == v[0];
  }
}
