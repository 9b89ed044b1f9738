/**
 Exporting every matching event that existed when the export began, by paging on
 rowid below a high-water mark while other connections insert and delete.
 */
module Snapshot {
  import opened Model

  type Table = map<int, Event>

  const PAGE_SIZE := 500

  datatype Visit = Visit(rowid: int, row: Event)

  function MaxId(t: Table): (m: int)
    ensures m == 0 || m in t
    ensures m >= 0 && forall k :: k in t ==> k <= m
  {
    MaxOf(t.Keys)
  }

  function MaxOf(ids: set<int>): (m: int)
    ensures m == 0 || m in ids
    ensures m >= 0 && forall k :: k in ids ==> k <= m
  {
    if ids == {} then 0 else
      LargestExists(ids);
      var k :| k in ids && forall j :: j in ids ==> j <= k;
      if k < 0 then 0 else k
  }

  lemma Member<T>(s: set<T>) returns (x: T)
    requires s != {}
    ensures x in s
  {
    x :| x in s;
  }

  lemma {:induction false} LargestExists(ids: set<int>)
    requires ids != {}
    ensures exists k :: k in ids && forall j :: j in ids ==> j <= k
  {
    var k := Member(ids);
    var rest := ids - {k};
    if rest != {} {
      LargestExists(rest);
      var r :| r in rest && forall j :: j in rest ==> j <= r;
      var top := if r > k then r else k;
      assert forall j :: j in ids ==> j == k || j in rest;
      assert top in ids && forall j :: j in ids ==> j <= top;
    } else {
      assert forall j :: j in ids ==> j == k || j in rest;
    }
  }

  /** SELECT ... WHERE matches AND rowid>=lo AND rowid<=hi ORDER BY rowid LIMIT limit */
  function Page(t: Table, matches: Event -> bool, lo: int, hi: int, limit: nat): (p: seq<Visit>)
    decreases hi - lo
  {
    if lo > hi || limit == 0 then []
    else if lo in t && matches(t[lo]) then [Visit(lo, t[lo])] + Page(t, matches, lo + 1, hi, limit - 1)
    else Page(t, matches, lo + 1, hi, limit)
  }

  ghost predicate Ascending(v: seq<Visit>) {
    forall i, j :: 0 <= i < j < |v| ==> v[i].rowid < v[j].rowid
  }

  lemma {:induction false} PageSound(t: Table, matches: Event -> bool, lo: int, hi: int, limit: nat)
    ensures var p := Page(t, matches, lo, hi, limit);
            && Ascending(p) && |p| <= limit
            && forall v :: v in p ==> lo <= v.rowid <= hi && v.rowid in t && t[v.rowid] == v.row && matches(v.row)
    decreases hi - lo
  {
    if lo <= hi && limit > 0 {
      PageSound(t, matches, lo + 1, hi, if lo in t && matches(t[lo]) then limit - 1 else limit);
    }
  }

  /** A matching row is missing from its page only because the page was filled before it. */
  lemma {:induction false} PageComplete(t: Table, matches: Event -> bool, lo: int, hi: int, limit: nat, k: int)
    requires lo <= k <= hi && k in t && matches(t[k])
    ensures var p := Page(t, matches, lo, hi, limit);
            Visit(k, t[k]) in p || (|p| == limit && forall v :: v in p ==> v.rowid < k)
    decreases hi - lo
  {
    if lo < k && limit > 0 {
      PageComplete(t, matches, lo + 1, hi, if lo in t && matches(t[lo]) then limit - 1 else limit, k);
    }
  }

  /** What the rest of the system does meanwhile: the table at each query, and which calls fail. */
  datatype World = World(table: nat -> Table, queryFails: nat -> bool, refFails: nat -> bool, visitFails: nat -> bool)

  /** From the first query on, rows up to the mark are only ever removed. */
  ghost predicate OnlyShrinks(w: World, mark: int) {
    forall i: nat, j: nat, k :: i <= j && k <= mark && k in w.table(j) ==>
        k in w.table(i) && w.table(i)[k] == w.table(j)[k]
  }

  ghost predicate NeverDeleted(w: World, k: int) {
    forall i: nat :: k in w.table(i)
  }

  ghost predicate InFirst(w: World, visits: seq<Visit>) {
    forall v :: v in visits ==> v.rowid in w.table(0) && w.table(0)[v.rowid] == v.row
  }

  ghost predicate CompleteTo(w: World, matches: Event -> bool, visits: seq<Visit>, cursor: int) {
    forall k :: 0 < k <= cursor && NeverDeleted(w, k) && matches(w.table(0)[k]) ==> Visit(k, w.table(0)[k]) in visits
  }

  /** Visiting the first n rows of the page after `cursor` keeps what the export promises. */
  lemma PageStep(w: World, matches: Event -> bool, visits: seq<Visit>, cursor: int, mark: int, now: nat, n: nat)
    requires 0 <= cursor < mark && OnlyShrinks(w, mark)
    requires InFirst(w, visits) && CompleteTo(w, matches, visits, cursor)
    requires n <= |Page(w.table(now), matches, cursor + 1, mark, PAGE_SIZE)|
    ensures var page := Page(w.table(now), matches, cursor + 1, mark, PAGE_SIZE);
            && InFirst(w, visits + page[..n])
            && (n > 0 ==> CompleteTo(w, matches, visits + page[..n], page[n - 1].rowid))
            && (page == [] ==> CompleteTo(w, matches, visits, mark))
  {
    hide Page;
    var page := Page(w.table(now), matches, cursor + 1, mark, PAGE_SIZE);
    PageSound(w.table(now), matches, cursor + 1, mark, PAGE_SIZE);
    forall v | v in page[..n]
      ensures v.rowid in w.table(0) && w.table(0)[v.rowid] == v.row
    {
      assert v in page;
    }
    forall k | cursor < k <= (if n > 0 then page[n - 1].rowid else mark) && NeverDeleted(w, k)
        && matches(w.table(0)[k]) && (n > 0 || page == [])
      ensures Visit(k, w.table(0)[k]) in page[..n]
    {
      assert k in w.table(now) && k in w.table(0);
      PageComplete(w.table(now), matches, cursor + 1, mark, PAGE_SIZE, k);
      if n > 0 { InPrefix(page, n, Visit(k, w.table(0)[k])); }
    }
  }

  lemma InPrefix(page: seq<Visit>, n: nat, v: Visit)
    requires Ascending(page) && 0 < n <= |page| && v.rowid <= page[n - 1].rowid
    requires v in page || forall u :: u in page ==> u.rowid < v.rowid
    ensures v in page[..n]
  {
    assert page[n - 1] in page;
    var i :| 0 <= i < |page| && page[i] == v;
    assert page[..n][i] == v;
  }

  lemma AscendingJoin(a: seq<Visit>, b: seq<Visit>, n: nat, cursor: int)
    requires Ascending(a) && Ascending(b) && n <= |b|
    requires forall v :: v in a ==> v.rowid <= cursor
    requires forall v :: v in b ==> cursor < v.rowid
    ensures Ascending(a + b[..n])
  {
    forall i, j | 0 <= i < j < |a + b[..n]|
      ensures (a + b[..n])[i].rowid < (a + b[..n])[j].rowid
    {
      if i < |a| <= j { assert a[i] in a && b[j - |a|] in b; }
    }
  }

  /** No call for the records numbered from a up to b fails. */
  ghost predicate Unfailed(w: World, a: nat, b: nat) {
    forall i :: a <= i < b ==> !w.refFails(i) && !w.visitFails(i)
  }

  /** How many of the next n records are visited before a call fails. */
  function Passed(w: World, visited: nat, n: nat): (m: nat)
    ensures m <= n
    ensures m < n ==> w.refFails(visited + m) || w.visitFails(visited + m)
    ensures Unfailed(w, visited, visited + m)
    decreases n
  {
    if n == 0 || w.refFails(visited) || w.visitFails(visited) then 0 else 1 + Passed(w, visited + 1, n - 1)
  }

  /** The records visited after `cursor`, page by page, and whether no call failed. */
  function Export(w: World, matches: Event -> bool, cursor: int, mark: int, now: nat, visited: nat): (seq<Visit>, bool)
    decreases mark - cursor
  {
    if cursor >= mark then ([], true)
    else if w.queryFails(now) then ([], false)
    else
      var page := Page(w.table(now), matches, cursor + 1, mark, PAGE_SIZE);
      PageSound(w.table(now), matches, cursor + 1, mark, PAGE_SIZE);
      var n := Passed(w, visited, |page|);
      if page == [] then ([], true)
      else if n < |page| then (page[..n], false)
      else
        assert page[n - 1] in page;
        var (more, ok) := Export(w, matches, page[n - 1].rowid, mark, now + 1, visited + n);
        (page + more, ok)
  }

  /** Every record visited was visited without an error. */
  lemma {:induction false} ExportUnfailed(w: World, matches: Event -> bool, cursor: int, mark: int, now: nat,
      visited: nat)
    ensures Unfailed(w, visited, visited + |Export(w, matches, cursor, mark, now, visited).0|)
    decreases mark - cursor
  {
    hide Passed;
    if cursor < mark && !w.queryFails(now) {
      var page := Page(w.table(now), matches, cursor + 1, mark, PAGE_SIZE);
      PageSound(w.table(now), matches, cursor + 1, mark, PAGE_SIZE);
      var n := Passed(w, visited, |page|);
      hide Page;
      if page != [] && n == |page| {
        assert page[n - 1] in page;
        ExportUnfailed(w, matches, page[n - 1].rowid, mark, now + 1, visited + n);
      }
    }
  }

  /** The calls of fn for one page; stops at the first that fails. */
  method VisitPage(w: World, page: seq<Visit>, visited0: nat) returns (visited: nat, ok: bool)
    ensures visited == visited0 + Passed(w, visited0, |page|)
    ensures ok <==> visited == visited0 + |page|
  {
    visited := visited0;
    for i := 0 to |page|
      invariant visited == visited0 + i
      invariant Passed(w, visited0, |page|) == i + Passed(w, visited, |page| - i)
    {
      if w.refFails(visited) || w.visitFails(visited) { return visited, false; }
      visited := visited + 1;
    }
    ok := true;
  }

  lemma ExportStarts(w: World, matches: Event -> bool, mark: int)
    ensures Remaining(w, matches, [], 0, mark, 1, Export(w, matches, 0, mark, 1, 0))
  {
    hide Export;
    var more := Export(w, matches, 0, mark, 1, 0).0;
    assert [] + more == more;
  }

  /** What is visited so far and what is still to come make up the whole export. */
  ghost predicate Remaining(w: World, matches: Event -> bool, visits: seq<Visit>, cursor: int, mark: int, now: nat,
      all: (seq<Visit>, bool)) {
    var (more, ok) := Export(w, matches, cursor, mark, now, |visits|);
    all == (visits + more, ok)
  }

  lemma ExportEnds(w: World, matches: Event -> bool, visits: seq<Visit>, cursor: int, mark: int, now: nat,
      all: (seq<Visit>, bool))
    requires Remaining(w, matches, visits, cursor, mark, now, all)
    ensures cursor >= mark ==> all == (visits, true)
    ensures cursor < mark && w.queryFails(now) ==> all == (visits, false)
  {
    assert visits + [] == visits;
  }

  /** One page. */
  lemma ExportPage(w: World, matches: Event -> bool, visits: seq<Visit>, cursor: int, mark: int, now: nat,
      all: (seq<Visit>, bool))
    requires cursor < mark && !w.queryFails(now) && Remaining(w, matches, visits, cursor, mark, now, all)
    ensures var page := Page(w.table(now), matches, cursor + 1, mark, PAGE_SIZE);
            var n := Passed(w, |visits|, |page|);
            && (page == [] ==> all == (visits, true))
            && (n < |page| ==> all == (visits + page[..n], false))
            && (page != [] && n == |page| ==>
              Remaining(w, matches, visits + page[..n], page[n - 1].rowid, mark, now + 1, all))
  {
    hide Page, Passed;
    var page := Page(w.table(now), matches, cursor + 1, mark, PAGE_SIZE);
    assert visits + [] == visits && page[..|page|] == page;
    if page != [] {
      var more := Export(w, matches, page[|page| - 1].rowid, mark, now + 1, |visits| + |page|).0;
      assert visits + (page + more) == (visits + page) + more;
    }
  }

  lemma NothingYet(w: World, matches: Event -> bool)
    ensures Ascending([]) && InFirst(w, []) && CompleteTo(w, matches, [], 0) && Unfailed(w, 0, 0)
  {
  }

  /** What holds of the records visited up to `cursor`. */
  ghost predicate Visited(w: World, matches: Event -> bool, visits: seq<Visit>, cursor: int, mark: int) {
    && Ascending(visits)
    && (forall v :: v in visits ==> 0 < v.rowid <= cursor && matches(v.row))
    && (OnlyShrinks(w, mark) ==> InFirst(w, visits) && CompleteTo(w, matches, visits, cursor))
  }

  /** What the export promises of all it visits, and of an error. */
  ghost predicate Promised(w: World, matches: Event -> bool, mark: int, visits: seq<Visit>, ok: bool) {
    && Ascending(visits)
    && (forall v :: v in visits ==> 0 < v.rowid <= mark && matches(v.row))
    && (OnlyShrinks(w, mark) ==> InFirst(w, visits) && (ok ==> CompleteTo(w, matches, visits, mark)))
    && (!ok ==> w.refFails(|visits|) || w.visitFails(|visits|) || exists q :: w.queryFails(q))
  }

  /** The first n records of a page. */
  lemma PageVisited(w: World, matches: Event -> bool, visits: seq<Visit>, cursor: int, mark: int, now: nat, n: nat)
    requires 0 <= cursor < mark && Visited(w, matches, visits, cursor, mark)
    requires n <= |Page(w.table(now), matches, cursor + 1, mark, PAGE_SIZE)|
    ensures var page := Page(w.table(now), matches, cursor + 1, mark, PAGE_SIZE);
            && (n > 0 ==>
                  && cursor < page[n - 1].rowid <= mark
                  && Visited(w, matches, visits + page[..n], page[n - 1].rowid, mark))
            && (page == [] ==> Visited(w, matches, visits, mark, mark))
  {
    hide Page, OnlyShrinks, InFirst, CompleteTo, Ascending;
    var page := Page(w.table(now), matches, cursor + 1, mark, PAGE_SIZE);
    PageSound(w.table(now), matches, cursor + 1, mark, PAGE_SIZE);
    AscendingJoin(visits, page, n, cursor);
    if OnlyShrinks(w, mark) { PageStep(w, matches, visits, cursor, mark, now, n); }
    if n > 0 {
      PrefixAscending(page, n);
      assert page[n - 1] in page;
      forall v | v in visits + page[..n]
        ensures 0 < v.rowid <= page[n - 1].rowid && matches(v.row)
      {
        assert v in visits || v in page;
      }
    } else {
      assert visits + page[..n] == visits;
    }
  }

  lemma PrefixAscending(page: seq<Visit>, n: nat)
    requires Ascending(page) && 0 < n <= |page|
    ensures forall v :: v in page[..n] ==> v.rowid <= page[n - 1].rowid
  {
  }

  lemma {:induction false} ExportKeeps(w: World, matches: Event -> bool, visits: seq<Visit>, cursor: int, mark: int,
      now: nat, all: (seq<Visit>, bool))
    requires 0 <= cursor <= mark && Visited(w, matches, visits, cursor, mark)
             && Remaining(w, matches, visits, cursor, mark, now, all)
    ensures Promised(w, matches, mark, all.0, all.1)
    decreases mark - cursor
  {
    hide Page, Passed, Remaining, OnlyShrinks, InFirst, CompleteTo, Ascending;
    ExportEnds(w, matches, visits, cursor, mark, now, all);
    if cursor < mark && !w.queryFails(now) {
      var page := Page(w.table(now), matches, cursor + 1, mark, PAGE_SIZE);
      var n := Passed(w, |visits|, |page|);
      ExportPage(w, matches, visits, cursor, mark, now, all);
      PageVisited(w, matches, visits, cursor, mark, now, n);
      if n < |page| {
        if n == 0 { assert visits + page[..n] == visits; }
      } else if page != [] {
        ExportKeeps(w, matches, visits + page[..n], page[n - 1].rowid, mark, now + 1, all);
      }
    }
  }

  /** `visits` are the records for which fn returned without an error. */
  method ForEachSnapshot(w: World, matches: Event -> bool) returns (visits: seq<Visit>, visited: nat, ok: bool)
    ensures (visits, ok) == (if w.queryFails(0) then ([], false) else Export(w, matches, 0, MaxId(w.table(0)), 1, 0))
    ensures visited == |visits| && Ascending(visits)
    ensures forall v :: v in visits ==> 0 < v.rowid <= MaxId(w.table(0)) && matches(v.row)
    ensures OnlyShrinks(w, MaxId(w.table(0))) ==> InFirst(w, visits)
    ensures OnlyShrinks(w, MaxId(w.table(0))) && ok ==> CompleteTo(w, matches, visits, MaxId(w.table(0)))
    ensures !ok ==> w.refFails(visited) || w.visitFails(visited) || exists q :: w.queryFails(q)
    ensures Unfailed(w, 0, visited)
  {
    hide Page, Passed, Export, Remaining, OnlyShrinks, InFirst, CompleteTo, Ascending, Unfailed;
    visits, visited, ok := [], 0, false;
    NothingYet(w, matches);
    if w.queryFails(0) { return; }
    var mark := MaxId(w.table(0));
    ghost var all := Export(w, matches, 0, mark, 1, 0);
    ExportUnfailed(w, matches, 0, mark, 1, 0);
    ExportStarts(w, matches, mark);
    ExportKeeps(w, matches, [], 0, mark, 1, all);
    ExportEnds(w, matches, [], 0, mark, 1, all);
    if mark == 0 { return visits, visited, true; }
    var cursor, now := 0, 0;
    while cursor < mark
      invariant 0 <= cursor <= mark && visited == |visits|
      invariant Remaining(w, matches, visits, cursor, mark, now + 1, all)
      decreases mark - cursor
    {
      now := now + 1;
      ExportEnds(w, matches, visits, cursor, mark, now, all);
      if w.queryFails(now) { return; }
      ExportPage(w, matches, visits, cursor, mark, now, all);
      var page := Page(w.table(now), matches, cursor + 1, mark, PAGE_SIZE);
      PageSound(w.table(now), matches, cursor + 1, mark, PAGE_SIZE);
      if page == [] { return visits, visited, true; }
      var before := visited;
      var fine;
      visited, fine := VisitPage(w, page, before);
      visits := visits + page[..visited - before];
      if !fine { return; }
      assert page[visited - before - 1] in page;
      cursor := page[visited - before - 1].rowid;
    }
    ExportEnds(w, matches, visits, cursor, mark, now + 1, all);
    ok := true;
  }

  // --------------------------------------------------------- rowid reuse

  /** A retention batch, or an insert: SQLite gives it one more than the largest rowid. */
  datatype Change = Delete(ids: set<int>) | Insert(row: Event)

  function Apply(t: Table, c: Change): Table {
    match c
    case Delete(ids) => t - ids
    case Insert(row) => t[MaxId(t) + 1 := row]
  }

  /** This change brings no row to or below the mark. */
  ghost predicate KeepsBelow(t: Table, c: Change, mark: int) {
    forall k :: k <= mark && k in Apply(t, c) ==> k in t && Apply(t, c)[k] == t[k]
  }

  /** Below the mark the table only shrinks, change by change. */
  ghost predicate Shrinks(t: Table, changes: seq<Change>, mark: int)
    decreases |changes|
  {
    changes != [] ==> KeepsBelow(t, changes[0], mark) && Shrinks(Apply(t, changes[0]), changes[1..], mark)
  }

  /** No insert happens while every row from the mark up is gone. */
  ghost predicate MarkHeld(t: Table, changes: seq<Change>, mark: int)
    decreases |changes|
  {
    changes != [] ==> (changes[0].Insert? ==> MaxId(t) >= mark) && MarkHeld(Apply(t, changes[0]), changes[1..], mark)
  }

  /** The export's assumption holds for a run of changes exactly when MarkHeld does. */
  lemma {:induction false} NoReuseIff(t: Table, changes: seq<Change>, mark: int)
    ensures Shrinks(t, changes, mark) <==> MarkHeld(t, changes, mark)
    decreases |changes|
  {
    if changes != [] {
      if changes[0].Insert? {
        var id := MaxId(t) + 1;
        assert id !in t && id in Apply(t, changes[0]);
      }
      NoReuseIff(Apply(t, changes[0]), changes[1..], mark);
    }
  }

  function ApplyAll(t: Table, changes: seq<Change>): Table
    decreases |changes|
  {
    if changes == [] then t else ApplyAll(Apply(t, changes[0]), changes[1..])
  }

  lemma {:induction false} ShrinksOverall(t: Table, changes: seq<Change>, mark: int)
    requires Shrinks(t, changes, mark)
    ensures forall k :: k <= mark && k in ApplyAll(t, changes) ==> k in t && ApplyAll(t, changes)[k] == t[k]
    decreases |changes|
  {
    if changes != [] { ShrinksOverall(Apply(t, changes[0]), changes[1..], mark); }
  }

  /** A world driven by changes that hold the mark between queries is one the export can rely on. */
  lemma WorldShrinks(w: World, changes: nat -> seq<Change>, mark: int)
    requires forall i: nat ::
               w.table(i + 1) == ApplyAll(w.table(i), changes(i)) && MarkHeld(w.table(i), changes(i), mark)
    ensures OnlyShrinks(w, mark)
  {
    forall i: nat, j: nat, k | i <= j && k <= mark && k in w.table(j)
      ensures k in w.table(i) && w.table(i)[k] == w.table(j)[k]
    {
      RowFromBefore(w, changes, mark, i, j, k);
    }
  }

  lemma {:induction false} RowFromBefore(w: World, changes: nat -> seq<Change>, mark: int, i: nat, j: nat, k: int)
    requires forall n: nat ::
               w.table(n + 1) == ApplyAll(w.table(n), changes(n)) && MarkHeld(w.table(n), changes(n), mark)
    requires i <= j && k <= mark && k in w.table(j)
    ensures k in w.table(i) && w.table(i)[k] == w.table(j)[k]
    decreases j
  {
    if i < j {
      var p := j - 1;
      assert w.table(p + 1) == ApplyAll(w.table(p), changes(p)) && MarkHeld(w.table(p), changes(p), mark);
      NoReuseIff(w.table(p), changes(p), mark);
      ShrinksOverall(w.table(p), changes(p), mark);
      RowFromBefore(w, changes, mark, i, p, k);
    }
  }

  /**
   Deleting the newest row and inserting another reuses its rowid: the later event is exported, the
   earlier one is not.
   */
  lemma ReusedRowid(w: World, matches: Event -> bool, a: Event, b: Event)
    requires a != b && matches(b) && forall i: nat :: !w.queryFails(i) && !w.refFails(i) && !w.visitFails(i)
    requires w.table(0) == map[1 := a] && w.table(1) == ApplyAll(w.table(0), [Delete({1}), Insert(b)])
    ensures var (visits, ok) := Export(w, matches, 0, MaxId(w.table(0)), 1, 0);
            visits == [Visit(1, b)] && ok && !InFirst(w, visits)
  {
    var t: Table := map[1 := a];
    assert MaxId(t) == 1;
    assert t - {1} == map[];
    var none: Table := map[];
    assert none[1 := b] == map[1 := b] && MaxId(none) == 0;
    assert ApplyAll(t, [Delete({1}), Insert(b)]) == map[1 := b] by {
      assert [Delete({1}), Insert(b)][1..] == [Insert(b)] && [Insert(b)][1..] == [];
      assert ApplyAll(t, [Delete({1}), Insert(b)]) == ApplyAll(none, [Insert(b)]) == ApplyAll(none[1 := b], []);
    }
    assert Page(w.table(1), matches, 2, 1, PAGE_SIZE - 1) == [];
    assert Page(w.table(1), matches, 1, 1, PAGE_SIZE) == [Visit(1, b)];
    assert Passed(w, 0, 1) == 1;
    assert Export(w, matches, 1, 1, 2, 1) == ([], true);
  }
}
