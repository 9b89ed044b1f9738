/**
 Retention: age limits per evidence kind and for events, then a byte cap enforced by
 evicting evidence in priority order and, only after all evidence, the oldest events.
 */
module Retention {
  import opened Text
  import Tally

  datatype EvidenceRow = EvidenceRow(kind: string, createdAt: int, path: string, event: string)

  datatype Tables = Tables(evidence: map<string, EvidenceRow>, events: map<string, int>)

  type Files = map<string, nat>

  /** Sizes the database files have at successive measurements, and which fallible calls fail. */
  datatype World = World(dbBytes: nat -> nat, fails: nat -> bool)

  datatype CapResult = Fits | TooSmall | IOError

  datatype Policy = Policy(metadataDays: int, transcriptDays: int, payloadDays: int, pcapDays: int)

  const DAY := 86400
  const BATCH := 500

  // ---------------------------------------------------------------- order

  function Rank(kind: string): (r: int)
    ensures 0 <= r <= 4
  {
    if kind == "pcap" then 0
    else if kind == "artifact.upload" then 1
    else if kind == "http.body" then 2
    else if kind == "transcript" then 3
    else 4
  }

  predicate NotAfter(a: EvidenceRow, b: EvidenceRow) {
    Rank(a.kind) < Rank(b.kind) || (Rank(a.kind) == Rank(b.kind) && a.createdAt <= b.createdAt)
  }

  /** A result of the eviction query: each row once, by kind rank and then age; ties in any order. */
  ghost predicate IsEvictionOrder(order: seq<string>, evidence: map<string, EvidenceRow>) {
    && (forall id :: id in order <==> id in evidence)
    && (forall i, j :: 0 <= i < j < |order| ==> order[i] != order[j])
    && (forall i, j :: 0 <= i < j < |order| ==> NotAfter(evidence[order[i]], evidence[order[j]]))
  }

  predicate Older(events: map<string, int>, a: string, b: string)
    requires a in events && b in events
  {
    events[a] < events[b] || (events[a] == events[b] && Less(a, b))
  }

  /** `ids` are the first of events ORDER BY timestamp,id. */
  ghost predicate AreOldest(events: map<string, int>, ids: set<string>) {
    && ids <= events.Keys
    && forall a, b :: a in ids && b in events.Keys - ids ==> Older(events, a, b)
  }

  lemma OlderTransitive(events: map<string, int>, a: string, b: string, c: string)
    requires a in events && b in events && c in events && Older(events, a, b) && Older(events, b, c)
    ensures Older(events, a, c)
  {
    hide Less;
    if events[a] == events[c] { LessTransitive(a, b, c); }
  }

  lemma {:induction false} OldestExists(events: map<string, int>, ids: set<string>)
    requires ids != {} && ids <= events.Keys
    ensures exists m :: m in ids && forall x :: x in ids && x != m ==> Older(events, m, x)
  {
    hide Older;
    var m :| m in ids;
    var rest := ids - {m};
    if rest != {} {
      OldestExists(events, rest);
      var r :| r in rest && forall x :: x in rest && x != r ==> Older(events, r, x);
      OlderTotal(events, m, r);
      var low := if Older(events, r, m) then r else m;
      forall x | x in ids && x != low
        ensures Older(events, low, x)
      {
        assert x == m || x in rest;
        if low == m && x != r { OlderTransitive(events, m, r, x); }
      }
    } else {
      assert forall x :: x in ids ==> x == m || x in rest;
    }
  }

  lemma OlderTotal(events: map<string, int>, a: string, b: string)
    requires a in events && b in events && a != b
    ensures Older(events, a, b) || Older(events, b, a)
  {
    LessTotal(a, b);
  }

  // ------------------------------------------------------------- the cap

  ghost function Bytes(files: Files): int {
    Tally.Sum(map p | p in files :: files[p] as int)
  }

  lemma BytesRemove(files: Files, path: string)
    ensures Bytes(files - {path}) == Bytes(files) - if path in files then files[path] else 0
  {
    var m := map p | p in files :: files[p] as int;
    var after := map p | p in files - {path} :: (files - {path})[p] as int;
    assert after == m - {path};
    if path in files { Tally.SumRemove(m, path); } else { assert m - {path} == m; }
  }

  /** What a cap run has before it: the tables, the files, and whether the latest measurement still stands. */
  datatype Snap = Snap(tables: Tables, files: Files, measured: nat, atHand: bool)

  /**
   What a cap run does. `Stranded` is an eviction that failed between the file and its row;
   `Unmeasured` a measurement that failed.
   */
  datatype Act = Measured | Unmeasured | Evicted(id: string) | Stranded(id: string) | Dropped(ids: set<string>)

  function Do(s: Snap, a: Act): Snap {
    match a
    case Measured => s.(measured := s.measured + 1, atHand := true)
    case Unmeasured => s.(measured := s.measured + 1, atHand := false)
    case Evicted(id) =>
      if id !in s.tables.evidence then s
      else s.(files := s.files - {s.tables.evidence[id].path},
          tables := s.tables.(evidence := s.tables.evidence - {id}))
    case Stranded(id) => if id !in s.tables.evidence then s else s.(files := s.files - {s.tables.evidence[id].path})
    case Dropped(ids) => s.(tables := WithoutEvents(s.tables, ids), atHand := false)
  }

  function DoAll(s: Snap, acts: seq<Act>): Snap {
    if acts == [] then s else Do(DoAll(s, acts[..|acts| - 1]), acts[|acts| - 1])
  }

  /** The database at the latest measurement and the files as they are now exceed the cap. */
  ghost predicate Over(w: World, s: Snap, cap: int) {
    s.atHand && s.measured > 0 && w.dbBytes(s.measured - 1) + Bytes(s.files) > cap
  }

  /** The row is one that no row still there goes before. */
  ghost predicate GoesFirst(evidence: map<string, EvidenceRow>, id: string) {
    id in evidence && forall other :: other in evidence ==> NotAfter(evidence[id], evidence[other])
  }

  /** The next batch of oldest events. */
  lemma FirstIsThere(evidence: map<string, EvidenceRow>, id: string)
    requires GoesFirst(evidence, id)
    ensures id in evidence
  {
  }

  ghost predicate IsBatch(events: map<string, int>, ids: set<string>) {
    AreOldest(events, ids) && ids != {} && |ids| == if |events| < BATCH then |events| else BATCH
  }

  /** Nothing is removed but over the cap, evidence in its order, and events only once no evidence is left. */
  ghost predicate May(w: World, s: Snap, a: Act, cap: int) {
    match a
    case Measured => true
    case Unmeasured => true
    case Evicted(id) => GoesFirst(s.tables.evidence, id) && Over(w, s, cap)
    case Stranded(id) => GoesFirst(s.tables.evidence, id) && Over(w, s, cap)
    case Dropped(ids) => s.tables.evidence == map[] && IsBatch(s.tables.events, ids) && Over(w, s, cap)
  }

  ghost predicate Allowed(w: World, s: Snap, acts: seq<Act>, cap: int) {
    acts == [] || (Allowed(w, s, acts[..|acts| - 1], cap)
        && May(w, DoAll(s, acts[..|acts| - 1]), acts[|acts| - 1], cap))
  }

  lemma ActNext(w: World, s: Snap, acts: seq<Act>, a: Act, cap: int)
    requires Allowed(w, s, acts, cap) && May(w, DoAll(s, acts), a, cap)
    ensures Allowed(w, s, acts + [a], cap) && DoAll(s, acts + [a]) == Do(DoAll(s, acts), a)
  {
    hide May, Do;
    assert (acts + [a])[..|acts|] == acts;
  }

  /** Each removal of a run, wherever in it, found the latest measurement over the cap. */
  lemma {:induction false} RemovedOverCap(w: World, s: Snap, acts: seq<Act>, cap: int, i: nat)
    requires Allowed(w, s, acts, cap) && i < |acts| && !acts[i].Measured? && !acts[i].Unmeasured?
    ensures var at := DoAll(s, acts[..i]);
            at.measured > 0 && at.atHand && w.dbBytes(at.measured - 1) + Bytes(at.files) > cap
  {
    hide Do, Bytes;
    if i < |acts| - 1 {
      RemovedOverCap(w, s, acts[..|acts| - 1], cap, i);
      assert acts[..|acts| - 1][..i] == acts[..i];
    }
  }

  ghost predicate SubRows(evidence: map<string, EvidenceRow>, all: map<string, EvidenceRow>) {
    forall id :: id in evidence ==> id in all && evidence[id] == all[id]
  }

  /** What went before what: evidence by kind rank and age, then events by age. */
  ghost predicate InOrder(before: Tables, after: Tables) {
    && SubRows(after.evidence, before.evidence)
    && (forall gone, left :: gone in before.evidence.Keys - after.evidence.Keys && left in after.evidence ==>
          NotAfter(before.evidence[gone], before.evidence[left]))
    && AreOldest(before.events, before.events.Keys - after.events.Keys)
    && after.events == before.events - (before.events.Keys - after.events.Keys)
    && (after.events != before.events ==> after.evidence == map[])
  }

  lemma NothingInOrder(t: Tables)
    ensures InOrder(t, t)
  {
    NoneOldest(t.events);
  }

  lemma EvictedInOrder(before: Tables, t: Tables, id: string)
    requires InOrder(before, t) && GoesFirst(t.evidence, id)
    ensures InOrder(before, t.(evidence := t.evidence - {id}))
  {
    hide NotAfter, AreOldest;
    var after := t.(evidence := t.evidence - {id});
    forall gone, left | gone in before.evidence.Keys - after.evidence.Keys && left in after.evidence
      ensures NotAfter(before.evidence[gone], before.evidence[left])
    {
      if gone == id { assert NotAfter(t.evidence[id], t.evidence[left]); }
    }
  }

  lemma DroppedInOrder(before: Tables, t: Tables, ids: set<string>)
    requires InOrder(before, t) && t.evidence == map[] && AreOldest(t.events, ids)
    ensures InOrder(before, WithoutEvents(t, ids))
  {
    var gone := before.events.Keys - t.events.Keys;
    OldestJoin(before.events, gone, ids);
    hide NotAfter, AreOldest;
    assert WithoutEvents(t, ids).evidence == map[];
    assert before.events - gone - ids == t.events - ids;
  }

  /** Over every run: evicted evidence precedes what is left, and events go oldest first, after all evidence. */
  lemma {:induction false} RunInOrder(w: World, s: Snap, acts: seq<Act>, cap: int)
    requires Allowed(w, s, acts, cap)
    ensures InOrder(s.tables, DoAll(s, acts).tables)
  {
    hide InOrder, GoesFirst, AreOldest, Over, WithoutEvents;
    if acts == [] {
      NothingInOrder(s.tables);
    } else {
      var before, a := acts[..|acts| - 1], acts[|acts| - 1];
      RunInOrder(w, s, before, cap);
      var t := DoAll(s, before).tables;
      match a {
        case Evicted(id) => EvictedInOrder(s.tables, t, id);
        case Dropped(ids) => DroppedInOrder(s.tables, t, ids);
        case _ =>
      }
    }
  }

  /** Evidence of a kind that has no place of its own in the order. */
  predicate IsOther(kind: string) {
    kind !in ["pcap", "artifact.upload", "http.body", "transcript"]
  }

  /** Row g may be evicted while row l stays. */
  predicate MayGoBefore(g: EvidenceRow, l: EvidenceRow) {
    && (l.kind == "pcap" ==> g.kind == "pcap")
    && (l.kind == "artifact.upload" ==> g.kind in ["pcap", "artifact.upload"])
    && (l.kind == "http.body" ==> g.kind in ["pcap", "artifact.upload", "http.body"])
    && (l.kind == "transcript" ==> g.kind in ["pcap", "artifact.upload", "http.body", "transcript"])
    && (g.kind == l.kind || (IsOther(g.kind) && IsOther(l.kind)) ==> g.createdAt <= l.createdAt)
  }

  /**
   Over every allowed run: captures go before uploads, these before request bodies, these before
   transcripts, and these before everything else; within one kind, and among the others, the oldest
   first. No event goes while evidence is left, and none that is younger than one left.
   */
  lemma RunTakesKinds(w: World, s: Snap, acts: seq<Act>, cap: int)
    requires Allowed(w, s, acts, cap)
    ensures var (before, after) := (s.tables, DoAll(s, acts).tables);
            && (forall g, l :: g in before.evidence && g !in after.evidence && l in after.evidence ==>
                  l in before.evidence && MayGoBefore(before.evidence[g], before.evidence[l]))
            && (forall g, l :: g in before.events && g !in after.events && l in after.events ==>
                  l in before.events && before.events[g] <= before.events[l])
            && (before.events != after.events ==> after.evidence == map[])
  {
    RunInOrder(w, s, acts, cap);
    hide *;
    OrderMeans(s.tables, DoAll(s, acts).tables);
  }

  lemma RankMeans(g: EvidenceRow, l: EvidenceRow)
    ensures NotAfter(g, l) ==> MayGoBefore(g, l)
  {
  }

  lemma OrderMeans(before: Tables, after: Tables)
    requires InOrder(before, after)
    ensures forall g, l :: g in before.evidence && g !in after.evidence && l in after.evidence ==>
              l in before.evidence && MayGoBefore(before.evidence[g], before.evidence[l])
    ensures forall g, l :: g in before.events && g !in after.events && l in after.events ==>
              l in before.events && before.events[g] <= before.events[l]
    ensures before.events != after.events ==> after.evidence == map[]
  {
    hide NotAfter, MayGoBefore, Less;
    forall g, l | g in before.evidence && g !in after.evidence && l in after.evidence
      ensures l in before.evidence && MayGoBefore(before.evidence[g], before.evidence[l])
    {
      assert g in before.evidence.Keys - after.evidence.Keys;
      RankMeans(before.evidence[g], before.evidence[l]);
    }
    forall g, l | g in before.events && g !in after.events && l in after.events
      ensures l in before.events && before.events[g] <= before.events[l]
    {
      var gone := before.events.Keys - after.events.Keys;
      assert g in gone && l in before.events.Keys - gone;
    }
  }

  /** Every row has its file, and no two share one. */
  ghost predicate OwnFiles(t: Tables, files: Files) {
    && RowsHaveFiles(t, files)
    && (forall i, j :: i in t.evidence && j in t.evidence && t.evidence[i].path == t.evidence[j].path ==> i == j)
  }

  ghost predicate RowsHaveFiles(t: Tables, files: Files) {
    forall id :: id in t.evidence ==> t.evidence[id].path in files
  }

  ghost predicate IsStranded(acts: seq<Act>, t: Tables, id: string) {
    id in t.evidence && Stranded(id) in acts
  }

  lemma {:induction false} RunFiles(w: World, s: Snap, acts: seq<Act>, cap: int, id: string)
    requires Allowed(w, s, acts, cap) && OwnFiles(s.tables, s.files)
    ensures SubRows(DoAll(s, acts).tables.evidence, s.tables.evidence)
    ensures id in DoAll(s, acts).tables.evidence ==>
              (DoAll(s, acts).tables.evidence[id].path in DoAll(s, acts).files <==> Stranded(id) !in acts)
  {
    hide GoesFirst, AreOldest, Over;
    if acts != [] {
      var before, a := acts[..|acts| - 1], acts[|acts| - 1];
      RunFiles(w, s, before, cap, id);
      assert acts == before + [a];
      GoesFirstIsThere(DoAll(s, before).tables.evidence, a);
    }
  }

  lemma GoesFirstIsThere(evidence: map<string, EvidenceRow>, a: Act)
    ensures (a.Evicted? || a.Stranded?) && GoesFirst(evidence, a.id) ==> a.id in evidence
  {
  }

  /** Over every run, whether it ends well or not: a row is without its file exactly when its eviction was cut short. */
  lemma RowsHaveFilesIff(w: World, s: Snap, acts: seq<Act>, cap: int)
    requires Allowed(w, s, acts, cap) && OwnFiles(s.tables, s.files)
    ensures RowsHaveFiles(DoAll(s, acts).tables, DoAll(s, acts).files) <==>
              forall id :: !IsStranded(acts, DoAll(s, acts).tables, id)
  {
    forall id { RunFiles(w, s, acts, cap, id); }
    hide Allowed, DoAll;
    var end := DoAll(s, acts);
    if RowsHaveFiles(end.tables, end.files) {
      forall id ensures !IsStranded(acts, end.tables, id) {
      }
    } else {
      var id :| id in end.tables.evidence && end.tables.evidence[id].path !in end.files;
      assert IsStranded(acts, end.tables, id);
    }
  }

  function Due(t: Tables, kind: string, cut: int): set<string> {
    set id | id in t.evidence && t.evidence[id].kind == kind && t.evidence[id].createdAt < cut
  }

  function WithoutDue(t: Tables, kind: string, cut: int): Tables {
    t.(evidence := t.evidence - Due(t, kind, cut))
  }

  /** DELETE FROM events, with its cascade. */
  function WithoutEvents(t: Tables, ids: set<string>): Tables {
    Tables(map id | id in t.evidence && t.evidence[id].event !in ids :: t.evidence[id], t.events - ids)
  }

  ghost function PathsOf(evidence: map<string, EvidenceRow>, ids: set<string>): set<string> {
    set id | id in ids && id in evidence :: evidence[id].path
  }

  lemma NoPaths(evidence: map<string, EvidenceRow>, files: Files)
    ensures files - PathsOf(evidence, {}) == files && evidence - {} == evidence
  {
  }

  lemma OnePath(evidence: map<string, EvidenceRow>, gone: set<string>, id: string, files: Files)
    requires id in evidence
    ensures files - PathsOf(evidence, gone) - {evidence[id].path} == files - PathsOf(evidence, gone + {id})
    ensures evidence - gone - {id} == evidence - (gone + {id})
  {
    assert PathsOf(evidence, gone + {id}) == PathsOf(evidence, gone) + {evidence[id].path};
  }

  /** Where the age limits stand: the rows in the transaction, the rows removed, and the files and calls as they are. */
  datatype Pass = Pass(tx: Tables, evicted: nat, ok: bool, gone: set<string>, files: Files, calls: nat)

  /** Nothing is removed yet. */
  function Fresh(tx: Tables, files: Files, calls: nat): Pass {
    Pass(tx, 0, true, {}, files, calls)
  }

  /** Some call from a up to b fails. */
  ghost predicate FailsWithin(w: World, a: nat, b: nat) {
    exists k :: a <= k < b && w.fails(k)
  }

  /**
   One kind's pass from `a` to `b`: `gone` are the rows whose files are removed, all that are due
   unless a call failed, and none only if there were none or a call up to the first removal failed.
   */
  ghost predicate KindDone(w: World, kind: string, cut: int, a: Pass, b: Pass) {
    var due := Due(a.tx, kind, cut);
    && b.files == a.files - PathsOf(a.tx.evidence, b.gone) && b.gone <= due && Went(w, b.ok, a.calls, b.calls)
    && (b.ok ==>
          && b.tx == WithoutDue(a.tx, kind, cut) && b.gone == due && b.evicted == |due|
          && b.calls == a.calls + 1 + 3 * b.evicted)
    && (b.gone == {} <==> due == {} || FailsWithin(w, a.calls, a.calls + 3))
    && (!b.ok && due == {} ==> w.fails(a.calls))
  }

  /** A pass of one kind after its query, with `rest` still to do. */
  ghost predicate Pruning(w: World, due: set<string>, rest: set<string>, a: Pass, b: Pass) {
    && due <= a.tx.evidence.Keys && rest <= due && b.gone <= due && Went(w, b.ok, a.calls, b.calls)
    && b.files == a.files - PathsOf(a.tx.evidence, b.gone)
    && (b.ok ==> b.gone == due - rest && b.evicted == |b.gone| && b.tx == a.tx.(evidence := a.tx.evidence - b.gone)
                 && b.calls == a.calls + 3 * b.evicted)
    && (!b.ok ==> due != {} && (b.gone == {} <==> FailsWithin(w, a.calls, a.calls + 2)))
  }

  lemma PruningStarts(w: World, due: set<string>, tx: Tables, files: Files, calls: nat)
    requires due <= tx.evidence.Keys
    ensures Pruning(w, due, due, Fresh(tx, files, calls), Fresh(tx, files, calls))
  {
    NoPaths(tx.evidence, files);
  }

  lemma PruningThere(w: World, due: set<string>, rest: set<string>, a: Pass, b: Pass, id: string)
    requires Pruning(w, due, rest, a, b) && id in rest
    ensures id in a.tx.evidence
  {
  }

  /** One row: its file if `removed`, and its row if the last of its calls went well too. */
  function RowPruned(b: Pass, id: string, path: string, calls: nat, ok: bool, removed: bool): Pass {
    Pass(if ok then b.tx.(evidence := b.tx.evidence - {id}) else b.tx, if ok then b.evicted + 1 else b.evicted, ok,
         if removed then b.gone + {id} else b.gone, if removed then b.files - {path} else b.files, calls)
  }

  lemma PruningStep(w: World, due: set<string>, rest: set<string>, a: Pass, b: Pass, id: string, calls: nat, ok: bool,
      removed: bool)
    requires Pruning(w, due, rest, a, b) && b.ok && id in rest && id in a.tx.evidence
    requires removed <==> !w.fails(b.calls) && !w.fails(b.calls + 1)
    requires ok <==> removed && !w.fails(b.calls + 2)
    requires Went(w, ok, b.calls, calls) && (ok ==> calls == b.calls + 3)
    ensures Pruning(w, due, rest - {id}, a, RowPruned(b, id, a.tx.evidence[id].path, calls, ok, removed))
  {
    OnePath(a.tx.evidence, b.gone, id, a.files);
    WentOn(w, ok, a.calls, b.calls, calls);
    FirstCalls(w, a.calls, b.calls);
    hide PathsOf, Went, FailsWithin;
    assert due - (rest - {id}) == b.gone + {id};
    assert b.gone == {} <==> b.evicted == 0;
  }

  /** Two calls from a on fail exactly as the two themselves do, and not if they all went well. */
  lemma FirstCalls(w: World, a: nat, b: nat)
    requires Went(w, true, a, b)
    ensures FailsWithin(w, a, a + 2) <==> w.fails(a) || w.fails(a + 1)
    ensures forall c :: a <= c <= b ==> !FailsWithin(w, a, c)
  {
    if FailsWithin(w, a, a + 2) { var k :| a <= k < a + 2 && w.fails(k); }
  }

  lemma PruningEnds(w: World, kind: string, cut: int, rest: set<string>, start: Pass, a: Pass, b: Pass)
    requires a == start.(calls := start.calls + 1) && start == Fresh(start.tx, start.files, start.calls)
             && !w.fails(start.calls)
    requires Pruning(w, Due(start.tx, kind, cut), rest, a, b) && (b.ok ==> rest == {})
    ensures KindDone(w, kind, cut, start, b)
  {
    WentNext(w, b.ok, start.calls, b.calls);
    Shifted(w, start.calls, 2);
    if b.ok { FirstCalls(w, start.calls, b.calls); }
    hide PathsOf, Went, Due, FailsWithin;
    assert b.gone == {} <==> |b.gone| == 0;
  }

  /** A call that went well in front of others. */
  lemma WentNext(w: World, ok: bool, a: nat, b: nat)
    requires !w.fails(a) && Went(w, ok, a + 1, b)
    ensures Went(w, ok, a, b)
  {
  }

  lemma Shifted(w: World, a: nat, n: nat)
    requires !w.fails(a)
    ensures FailsWithin(w, a, a + 1 + n) <==> FailsWithin(w, a + 1, a + 1 + n)
  {
    if FailsWithin(w, a + 1, a + 1 + n) {
      var k :| a + 1 <= k < a + 1 + n && w.fails(k);
      assert a <= k < a + 1 + n;
    }
  }

  lemma QueryFailed(w: World, kind: string, cut: int, tx: Tables, files: Files, calls: nat)
    requires w.fails(calls)
    ensures KindDone(w, kind, cut, Fresh(tx, files, calls), Pass(tx, 0, false, {}, files, calls + 1))
  {
    NoPaths(tx.evidence, files);
    assert FailsWithin(w, calls, calls + 3);
  }

  /** The calls from a up to b: all went well, or exactly the last one failed. */
  ghost predicate Went(w: World, ok: bool, a: nat, b: nat) {
    && a <= b && (!ok ==> a < b && w.fails(b - 1))
    && forall k :: a <= k < (if ok then b else b - 1) ==> !w.fails(k)
  }

  lemma WentOn(w: World, ok: bool, a: nat, b: nat, c: nat)
    requires Went(w, true, a, b) && Went(w, ok, b, c)
    ensures Went(w, ok, a, c)
  {
  }

  lemma WentNowhere(w: World, a: nat)
    ensures Went(w, true, a, a)
  {
  }

  class Store {
    const w: World
    var tables: Tables
    var files: Files
    var calls: nat
    var measured: nat

    constructor (w: World, tables: Tables, files: Files)
      ensures this.w == w && this.tables == tables && this.files == files && calls == measured == 0
    {
      this.w, this.tables, this.files, calls, measured := w, tables, files, 0, 0;
    }

    /** Any statement, file operation or measurement that can return an error. */
    method Try() returns (ok: bool)
      modifies this`calls
      ensures calls == old(calls) + 1 && ok == !w.fails(old(calls))
    {
      ok := !w.fails(calls);
      calls := calls + 1;
    }

    ghost predicate Shows(s: Snap)
      reads this`tables, this`files, this`measured
    {
      s.tables == tables && s.files == files && s.measured == measured
    }

    method DiskUsage() returns (used: int, ok: bool)
      modifies this`calls, this`measured
      ensures measured == old(measured) + 1
      ensures calls == old(calls) + 1 && ok == !w.fails(old(calls))
      ensures ok ==> used == w.dbBytes(old(measured)) + Bytes(files)
    {
      ok := Try();
      used := SumFiles();
      used := used + w.dbBytes(measured);
      measured := measured + 1;
    }

    /** filepath.Walk over the data directory. */
    method SumFiles() returns (n: int)
      ensures n == Bytes(files)
    {
      n := 0;
      var rest := files;
      while rest != map[]
        invariant n + Bytes(rest) == Bytes(files)
        decreases |rest|
      {
        var p :| p in rest;
        BytesRemove(rest, p);
        n := n + rest[p];
        rest := rest - {p};
      }
    }

    /** Stat, remove and then the statement that deletes the row; the row itself is the caller's. */
    method RemoveFile(path: string) returns (ok: bool, ghost removed: bool)
      modifies this`files, this`calls
      ensures removed <==> !w.fails(old(calls)) && !w.fails(old(calls) + 1)
      ensures ok <==> removed && !w.fails(old(calls) + 2)
      ensures files == if removed then old(files) - {path} else old(files)
      ensures Went(w, ok, old(calls), calls) && (ok ==> calls == old(calls) + 3)
    {
      removed := false;
      ok := Try();
      if !ok { return; }
      ok := Try();
      if !ok { return; }
      files := files - {path};
      removed := true;
      ok := Try();
    }

    /** What was done since `s` is a run of allowed acts. */
    ghost predicate Ran(s: Snap, acts: seq<Act>, cap: int)
      reads this`tables, this`files, this`measured
    {
      Allowed(w, s, acts, cap) && Shows(DoAll(s, acts))
    }

    /** And `used` is what the latest measurement makes of the files as they are now. */
    ghost predicate Tracking(s: Snap, acts: seq<Act>, cap: int, used: int)
      reads this`tables, this`files, this`measured
    {
      Ran(s, acts, cap) && DoAll(s, acts).atHand && measured > 0 && used == w.dbBytes(measured - 1) + Bytes(files)
    }

    lemma TrackingRan(s: Snap, acts: seq<Act>, cap: int, used: int)
      requires Tracking(s, acts, cap, used)
      ensures Ran(s, acts, cap)
    {
    }

    method Measure(cap: int, ghost s: Snap, ghost past: seq<Act>) returns (used: int, ok: bool, ghost acts: seq<Act>)
      requires Ran(s, past, cap)
      modifies this`calls, this`measured
      ensures if ok then Tracking(s, acts, cap, used) else Ran(s, acts, cap)
      ensures Went(w, ok, old(calls), calls)
    {
      hide Bytes, Allowed, DoAll;
      used, ok := DiskUsage();
      ghost var act := if ok then Measured else Unmeasured;
      ActNext(w, s, past, act, cap);
      acts := past + [act];
    }

    /** Evict one row of the eviction order. */
    method Evict(id: string, cap: int, tracked: int, ghost s: Snap, ghost past: seq<Act>)
      returns (used: int, ok: bool, ghost acts: seq<Act>)
      requires Tracking(s, past, cap, tracked) && tracked > cap && GoesFirst(tables.evidence, id)
      modifies this`tables, this`files, this`calls
      ensures if ok then Tracking(s, acts, cap, used) else Ran(s, acts, cap)
      ensures Went(w, ok, old(calls), calls)
      ensures tables == if ok then old(tables).(evidence := old(tables).evidence - {id}) else old(tables)
      // The file goes without its row exactly when only the last of the three calls fails.
      ensures !ok ==> (files == if w.fails(old(calls)) || w.fails(old(calls) + 1) then old(files)
                else old(files) - {old(tables).evidence[id].path})
      ensures !ok ==> acts == if w.fails(old(calls)) || w.fails(old(calls) + 1) then past else past + [Stranded(id)]
    {
      FirstIsThere(tables.evidence, id);
      ghost var act := if w.fails(calls + 2) then Stranded(id) else Evicted(id);
      EvictOne(id, act, cap, tracked, s, past);
      hide Bytes, Allowed, DoAll, GoesFirst, Went;
      ghost var removed;
      used, ok, removed := EvictRow(id, tracked);
      acts := past;
      if removed { acts := past + [act]; }
      assert Ran(s, acts, cap);
      hide Ran;
    }

    /** The file, then the row, and the bytes that the file had. */
    method EvictRow(id: string, tracked: int) returns (used: int, ok: bool, ghost removed: bool)
      requires id in tables.evidence
      modifies this`tables, this`files, this`calls
      ensures removed <==> !w.fails(old(calls)) && !w.fails(old(calls) + 1)
      ensures ok <==> removed && !w.fails(old(calls) + 2)
      ensures files == if removed then old(files) - {old(tables).evidence[id].path} else old(files)
      ensures tables == if ok then old(tables).(evidence := old(tables).evidence - {id}) else old(tables)
      ensures var path := old(tables).evidence[id].path;
              used == tracked - if path in old(files) then old(files)[path] else 0
      ensures Went(w, ok, old(calls), calls)
    {
      hide Went;
      var path := tables.evidence[id].path;
      var diskBytes := if path in files then files[path] else 0;
      ok, removed := RemoveFile(path);
      used := tracked - diskBytes;
      if ok { tables := tables.(evidence := tables.evidence - {id}); }
    }

    /** What evicting the row leads to, with or without the row itself. */
    lemma EvictOne(id: string, act: Act, cap: int, tracked: int, s: Snap, past: seq<Act>)
      requires Tracking(s, past, cap, tracked) && tracked > cap && GoesFirst(tables.evidence, id)
      requires act == Evicted(id) || act == Stranded(id)
      ensures var path := tables.evidence[id].path;
              var left := if act == Evicted(id) then tables.(evidence := tables.evidence - {id}) else tables;
              && Allowed(w, s, past + [act], cap)
              && DoAll(s, past + [act]) == Snap(left, files - {path}, measured, true)
              && DoAll(s, past) == Snap(tables, files, measured, true)
              && tracked - (if path in files then files[path] else 0) == w.dbBytes(measured - 1) + Bytes(files - {path})
    {
      BytesRemove(files, tables.evidence[id].path);
      MayRemove(act, cap, tracked, s, past);
      hide Bytes, Allowed, DoAll, NotAfter;
    }

    /** A removal that May allows now continues the run, and this is what it leads to. */
    lemma MayRemove(a: Act, cap: int, tracked: int, s: Snap, past: seq<Act>)
      requires Tracking(s, past, cap, tracked) && tracked > cap
      requires match a
               case Evicted(id) => GoesFirst(tables.evidence, id)
               case Stranded(id) => GoesFirst(tables.evidence, id)
               case Dropped(ids) => tables.evidence == map[] && IsBatch(tables.events, ids)
               case _ => false
      ensures Allowed(w, s, past + [a], cap) && DoAll(s, past + [a]) == Do(Snap(tables, files, measured, true), a)
      ensures DoAll(s, past) == Snap(tables, files, measured, true)
    {
      hide Allowed, DoAll, Bytes, GoesFirst, IsBatch, Do;
      ActNext(w, s, past, a, cap);
    }

    /** The rows of the order from the n-th on are those still there. */
    ghost predicate Left(evidence: map<string, EvidenceRow>, order: seq<string>, n: nat)
      requires n <= |order|
      reads this`tables
    {
      SubRows(tables.evidence, evidence) && forall id :: id in tables.evidence <==> id in order[n..]
    }

    lemma NoneLeft(evidence: map<string, EvidenceRow>, order: seq<string>)
      requires Left(evidence, order, |order|)
      ensures tables.evidence == map[]
    {
      assert order[|order|..] == [];
    }

    /** The inner loop: evict while the tracked usage is over the cap. */
    method EvictPass(cap: int, order: seq<string>, start: nat, tracked: int, ghost evidence: map<string, EvidenceRow>,
        ghost s: Snap, ghost past: seq<Act>)
      returns (next: nat, used: int, ok: bool, ghost acts: seq<Act>)
      requires IsEvictionOrder(order, evidence) && start < |order| && Left(evidence, order, start)
      requires Tracking(s, past, cap, tracked) && tracked > cap
      modifies this`tables, this`files, this`calls
      ensures if ok then Tracking(s, acts, cap, used) else Ran(s, acts, cap)
      ensures Went(w, ok, old(calls), calls)
      ensures ok ==> start < next <= |order| && Left(evidence, order, next) && (used <= cap || next == |order|)
    {
      hide IsEvictionOrder, GoesFirst, Ran, Tracking, Went;
      next, used, ok, acts := start, tracked, true, past;
      WentNowhere(w, calls);
      while ok && next < |order| && used > cap
        invariant start <= next <= |order| && (ok ==> Left(evidence, order, next))
        invariant if ok then Tracking(s, acts, cap, used) else Ran(s, acts, cap)
        invariant Went(w, ok, old(calls), calls)
        invariant next == start ==> ok && used == tracked
        decreases |order| - next, ok
      {
        HeadGoesFirst(evidence, order, next, tables.evidence);
        ghost var c := calls;
        used, ok, acts := Evict(order[next], cap, used, s, acts);
        WentOn(w, ok, old(calls), c, calls);
        next := next + 1;
      }
    }

    /** Eviction passes, each followed by a checkpoint and a new measurement. */
    method EvictAll(cap: int, order: seq<string>, first: int, ghost s: Snap, ghost past: seq<Act>)
      returns (n: nat, used: int, ok: bool, ghost acts: seq<Act>)
      requires IsEvictionOrder(order, tables.evidence)
      requires Tracking(s, past, cap, first) && first > cap
      modifies this`tables, this`files, this`calls, this`measured
      ensures if ok then Tracking(s, acts, cap, used) else Ran(s, acts, cap)
      ensures Went(w, ok, old(calls), calls)
      ensures ok ==> used <= cap || tables.evidence == map[]
    {
      ghost var evidence := tables.evidence;
      assert Left(evidence, order, 0) by { assert order[0..] == order; }
      hide IsEvictionOrder, Ran, Tracking, Left, NotAfter, Went;
      n, used, ok, acts := 0, first, true, past;
      WentNowhere(w, calls);
      while ok && n < |order| && used > cap
        invariant ok ==> n <= |order| && Left(evidence, order, n)
        invariant if ok then Tracking(s, acts, cap, used) else Ran(s, acts, cap)
        invariant Went(w, ok, old(calls), calls)
        decreases ok, |order| - n
      {
        ghost var c := calls;
        n, used, ok, acts := EvictPass(cap, order, n, used, evidence, s, acts);
        WentOn(w, ok, old(calls), c, calls);
        if ok {
          c := calls;
          TrackingRan(s, acts, cap, used);
          used, ok, acts := Remeasure(cap, s, acts);
          WentOn(w, ok, old(calls), c, calls);
        }
      }
      if ok && n == |order| { NoneLeft(evidence, order); }
    }

    /** SELECT id FROM events ORDER BY timestamp,id LIMIT 500 */
    method OldestEventIDs() returns (ids: set<string>)
      ensures |ids| <= 500 && (|ids| < 500 ==> ids == tables.events.Keys)
      ensures AreOldest(tables.events, ids) && ids <= tables.events.Keys
              && |ids| == if |tables.events| < BATCH then |tables.events| else BATCH
    {
      hide Older;
      ids := {};
      while |ids| < BATCH && ids != tables.events.Keys
        invariant AreOldest(tables.events, ids) && |ids| <= BATCH
        decreases |tables.events| - |ids|
      {
        var rest := tables.events.Keys - ids;
        assert |rest| == |tables.events.Keys| - |ids|;
        OldestExists(tables.events, rest);
        var m :| m in rest && forall x :: x in rest && x != m ==> Older(tables.events, m, x);
        ids := ids + {m};
      }
      assert |ids| <= |tables.events.Keys| by { assert |tables.events.Keys - ids| == |tables.events.Keys| - |ids|; }
    }

    /** Checkpoint, VACUUM, checkpoint. */
    method Compact() returns (ok: bool)
      modifies this`calls
      ensures Went(w, ok, old(calls), calls)
    {
      ok := Try();
      if ok { ok := Try(); }
      if ok { ok := Try(); }
    }

    /** Delete one batch of the oldest events, then compact and measure; no batch is left when `ids` is empty. */
    method DropBatch(cap: int, tracked: int, ghost s: Snap, ghost past: seq<Act>)
      returns (ids: set<string>, used: int, ok: bool, ghost acts: seq<Act>)
      requires Tracking(s, past, cap, tracked) && tracked > cap && tables.evidence == map[]
      modifies this`tables, this`calls, this`measured
      ensures tables.evidence == map[]
      ensures Went(w, ok, old(calls), calls) && if ok then Tracking(s, acts, cap, used) else Ran(s, acts, cap)
      ensures ok ==> if ids == {} then tables == Tables(map[], map[]) && used == tracked
                else |tables.events| < old(|tables.events|)
    {
      used, acts := tracked, past;
      ids, ok := NextBatch();
      if ok && ids != {} {
        FewerEvents(tables.events, ids);
        MayRemove(Dropped(ids), cap, tracked, s, past);
        hide Went, AreOldest, IsBatch, Bytes, Allowed, DoAll;
        DeleteBatch(ids);
        acts := past + [Dropped(ids)];
        assert Ran(s, acts, cap);
        hide Ran, Tracking;
        ghost var c := calls;
        used, ok, acts := Recompact(cap, s, acts);
        WentOn(w, ok, old(calls), c, calls);
      }
    }

    /** Select the batch and begin its transaction. */
    method NextBatch() returns (ids: set<string>, ok: bool)
      modifies this`calls
      ensures Went(w, ok, old(calls), calls)
      ensures ok ==> if ids == {} then tables.events == map[] else IsBatch(tables.events, ids)
    {
      hide AreOldest;
      ids := {};
      ok := Try();
      if ok { ids := OldestEventIDs(); }
      if ok && ids != {} { ok := Try(); }
    }

    /** Compact and measure. */
    method Recompact(cap: int, ghost s: Snap, ghost past: seq<Act>) returns (used: int, ok: bool, ghost acts: seq<Act>)
      requires Ran(s, past, cap)
      modifies this`calls, this`measured
      ensures Went(w, ok, old(calls), calls) && if ok then Tracking(s, acts, cap, used) else Ran(s, acts, cap)
    {
      hide Ran, Tracking, Went;
      used, acts := 0, past;
      ok := Compact();
      if ok {
        ghost var c := calls;
        used, ok, acts := Measure(cap, s, acts);
        WentOn(w, ok, old(calls), c, calls);
      }
    }

    /** Checkpoint and measure. */
    method Remeasure(cap: int, ghost s: Snap, ghost past: seq<Act>) returns (used: int, ok: bool, ghost acts: seq<Act>)
      requires Ran(s, past, cap)
      modifies this`calls, this`measured
      ensures Went(w, ok, old(calls), calls) && if ok then Tracking(s, acts, cap, used) else Ran(s, acts, cap)
    {
      hide Ran, Tracking;
      used, acts := 0, past;
      ok := Try();
      hide Went;
      if ok {
        ghost var c := calls;
        used, ok, acts := Measure(cap, s, acts);
        WentOn(w, ok, old(calls), c, calls);
      }
    }

    /** Delete the oldest events in batches until the measured usage fits. */
    method DeleteEvents(cap: int, first: int, ghost s: Snap, ghost past: seq<Act>)
      returns (r: CapResult, used: int, ghost acts: seq<Act>)
      requires Tracking(s, past, cap, first) && tables.evidence == map[]
      modifies this`tables, this`calls, this`measured
      ensures Went(w, r != IOError, old(calls), calls)
              && if r != IOError then Tracking(s, acts, cap, used) else Ran(s, acts, cap)
      ensures r == Fits ==> used <= cap
      ensures r == TooSmall ==> used > cap && tables == Tables(map[], map[])
    {
      hide Ran, Tracking, Went;
      used, acts := first, past;
      WentNowhere(w, calls);
      while used > cap
        invariant Tracking(s, acts, cap, used) && tables.evidence == map[] && Went(w, true, old(calls), calls)
        decreases |tables.events|
      {
        var ids, ok;
        ghost var c := calls;
        ids, used, ok, acts := DropBatch(cap, used, s, acts);
        WentOn(w, ok, old(calls), c, calls);
        if !ok { return IOError, used, acts; }
        if ids == {} { return TooSmall, used, acts; }
      }
      return Fits, used, acts;
    }

    /**
     One kind's pass inside the transaction `tx`: its query, then the files at once and the rows with the
     commit. An error in reading a row of the result counts as one of its file's Stat.
     */
    method PruneKind(tx: Tables, kind: string, cut: int)
      returns (after: Tables, n: nat, ok: bool, ghost gone: set<string>)
      modifies this`files, this`calls
      ensures KindDone(w, kind, cut, Fresh(tx, old(files), old(calls)), Pass(after, n, ok, gone, files, calls))
    {
      after, n, gone := tx, 0, {};
      ghost var start := Fresh(tx, files, calls);
      ok := Try();
      if !ok {
        QueryFailed(w, kind, cut, tx, files, old(calls));
        return;
      }
      var rest := Due(tx, kind, cut);
      ghost var due, a := rest, Fresh(tx, files, calls);
      PruningStarts(w, due, tx, files, calls);
      hide Due, Pruning, Went, PathsOf, KindDone;
      while ok && rest != {}
        invariant Pruning(w, due, rest, a, Pass(after, n, ok, gone, files, calls))
        decreases ok, |rest|
      {
        var id :| id in rest;
        ghost var b := Pass(after, n, ok, gone, files, calls);
        PruningThere(w, due, rest, a, b, id);
        ghost var removed;
        ok, removed := RemoveFile(tx.evidence[id].path);
        PruningStep(w, due, rest, a, b, id, calls, ok, removed);
        if removed { gone := gone + {id}; }
        if ok { after, n := after.(evidence := after.evidence - {id}), n + 1; }
        rest := rest - {id};
      }
      PruningEnds(w, kind, cut, rest, start, a, Pass(after, n, ok, gone, files, calls));
    }

    /** The age limits, in one transaction; on error the rows are as before but files may be gone. */
    method PruneByAge(p: Policy, now: int) returns (evicted: nat, ok: bool, ghost gone: set<string>)
      modifies this`tables, this`files, this`calls
      ensures files == old(files) - PathsOf(old(tables).evidence, gone) && gone <= AllDue(p, now, old(tables))
      ensures ok ==> tables == Aged(p, now, old(tables)) && gone == AllDue(p, now, old(tables)) && evicted == |gone|
      ensures ok ==> calls == old(calls) + 6 + 3 * evicted
      ensures !ok ==> tables == old(tables)
      ensures Went(w, ok, old(calls), calls)
      // A failed call leaves rows without files unless it came no later than the removal of the first file.
      ensures !ok && OwnFiles(old(tables), old(files)) ==>
                (RowsHaveFiles(tables, files) <==>
                   || AllDue(p, now, old(tables)) == {}
                   || FailsWithin(w, old(calls), FirstRemoval(p, now, old(tables), old(calls)) + 1))
    {
      ghost var t0, f0, c0 := tables, files, calls;
      hide PathsOf, AllDue, OwnFiles, RowsHaveFiles, Aged, Went, FailsWithin, FirstDue;
      evicted, gone := 0, {};
      NoPaths(t0.evidence, f0);
      RowsKeptIff(t0, f0, {});
      ok := Try();
      if !ok {
        BeginFailed(w, p, now, t0, c0);
        return;
      }
      var tx;
      tx, evicted, ok, gone := AgePasses(p, now);
      DueThere(p, now, t0);
      RowsKeptIff(t0, f0, gone);
      ghost var c := calls;
      if ok { ok := Try(); }
      AgeEnds(w, p, now, t0, c0, c, calls, evicted, ok, gone);
      if ok {
        tables := WithoutEvents(tx, OldEvents(p, now, tx));
        WithoutExpired(p, now, t0);
      }
    }

    /** The passes over all kinds. */
    method AgePasses(p: Policy, now: int) returns (tx: Tables, evicted: nat, ok: bool, ghost gone: set<string>)
      modifies this`files, this`calls
      ensures AllKinds(w, p, now, Fresh(tables, old(files), old(calls)), Pass(tx, evicted, ok, gone, files, calls))
    {
      ghost var a := Fresh(tables, files, calls);
      var i := 0;
      tx, evicted, ok, gone := tables, 0, true, {};
      NothingAged(w, p, now, a);
      hide PathsOf, Due, AllDue, WithoutDue, Kinds, Went, Passing, KindDone, Cut;
      while ok && i < 4
        invariant i <= 4 && Passing(w, p, now, i, a, Pass(tx, evicted, ok, gone, files, calls))
        decreases ok, 4 - i
      {
        ghost var b, more := Pass(tx, evicted, ok, gone, files, calls), gone;
        var n;
        tx, n, ok, more := PruneKind(tx, Kinds(p)[i].0, Cut(now, Kinds(p)[i].1));
        PassNext(w, p, now, i, a, b, Pass(tx, n, ok, more, files, calls));
        gone := gone + more;
        evicted, i := evicted + n, i + 1;
      }
      AllPassed(w, p, now, i, a, Pass(tx, evicted, ok, gone, files, calls));
    }

    /** Deleting events cascades to their evidence rows, not to the files. */
    method DeleteBatch(ids: set<string>)
      modifies this`tables
      ensures tables.events == old(tables).events - ids
      ensures tables == WithoutEvents(old(tables), ids)
      ensures old(tables).evidence == map[] ==> tables.evidence == map[]
    {
      tables := WithoutEvents(tables, ids);
    }

    /**
     `evictedByAge` is the count that Prune has already put in its result. However the call ends, what
     it did is a run of acts that May allows; success means that its latest measurement fits.
     */
    method EnforceCap(cap: int, order: seq<string>, evictedByAge: nat)
      returns (r: CapResult, used: int, ghost acts: seq<Act>)
      requires IsEvictionOrder(order, tables.evidence)
      modifies this`tables, this`files, this`calls, this`measured
      ensures Ran(Snap(old(tables), old(files), old(measured), false), acts, cap)
      ensures Went(w, r != IOError, old(calls), calls)
      ensures cap <= 0 ==> r == Fits && acts == []
      ensures r != IOError && cap > 0 ==> Tracking(Snap(old(tables), old(files), old(measured), false), acts, cap, used)
      ensures r == Fits && cap > 0 ==> used <= cap
      ensures r == TooSmall ==> cap > 0 && used > cap && tables == Tables(map[], map[])
    {
      ghost var s := Snap(tables, files, measured, false);
      assert Ran(s, [], cap);
      WentNowhere(w, calls);
      hide IsEvictionOrder, Ran, Tracking, Bytes, Went;
      r, used, acts := Fits, 0, [];
      if cap <= 0 { return; }
      var ok;
      used, ok, acts := Measure(cap, s, acts);
      if !ok { return IOError, used, acts; }
      if used > cap {
        ghost var c := calls;
        r, used, acts := Shrink(cap, order, evictedByAge, used, s, acts);
        WentOn(w, r != IOError, old(calls), c, calls);
        if r == IOError { return; }
      }
    }

    /** Evidence first, compaction, then events. */
    method Shrink(cap: int, order: seq<string>, evictedByAge: nat, first: int, ghost s: Snap, ghost past: seq<Act>)
      returns (r: CapResult, used: int, ghost acts: seq<Act>)
      requires IsEvictionOrder(order, tables.evidence)
      requires Tracking(s, past, cap, first) && first > cap
      modifies this`tables, this`files, this`calls, this`measured
      ensures Went(w, r != IOError, old(calls), calls)
              && if r != IOError then Tracking(s, acts, cap, used) else Ran(s, acts, cap)
      ensures r == Fits ==> used <= cap
      ensures r == TooSmall ==> used > cap && tables == Tables(map[], map[])
    {
      TrackingRan(s, past, cap, first);
      hide IsEvictionOrder, Ran, Tracking;
      var n;
      used, acts := first, past;
      var ok := Try();
      hide Went;
      if ok {
        ghost var c := calls;
        n, used, ok, acts := EvictAll(cap, order, used, s, acts);
        WentOn(w, ok, old(calls), c, calls);
      }
      if ok && used > cap && evictedByAge + n > 0 {
        ghost var c := calls;
        TrackingRan(s, acts, cap, used);
        used, ok, acts := Recompact(cap, s, acts);
        WentOn(w, ok, old(calls), c, calls);
      }
      r := if ok then Fits else IOError;
      if ok && used > cap {
        ghost var c := calls;
        r, used, acts := DeleteEvents(cap, used, s, acts);
        WentOn(w, r != IOError, old(calls), c, calls);
      }
    }

    /** Age limits, then the cap. `order` is what the eviction query returns once the age limits are applied. */
    method Prune(p: Policy, cap: int, now: int, order: seq<string>)
      returns (r: CapResult, used: int, aged: bool, ghost gone: set<string>, ghost acts: seq<Act>)
      requires IsEvictionOrder(order, Aged(p, now, tables).evidence)
      modifies this`tables, this`files, this`calls, this`measured
      ensures !aged ==> r == IOError && tables == old(tables) && acts == []
      ensures gone <= AllDue(p, now, old(tables)) && (aged ==> gone == AllDue(p, now, old(tables)))
      ensures var left := old(files) - PathsOf(old(tables).evidence, gone);
              var s := Snap(if aged then Aged(p, now, old(tables)) else old(tables), left, old(measured), false);
              Ran(s, acts, cap) && (r != IOError && cap > 0 ==> Tracking(s, acts, cap, used))
      ensures Went(w, r != IOError, old(calls), calls)
      ensures r == Fits && cap > 0 ==> used <= cap
      ensures r == TooSmall ==> used > cap && tables == Tables(map[], map[])
    {
      hide Bytes, NotAfter, AreOldest, Aged, AllDue, PathsOf;
      var evicted;
      used, acts := 0, [];
      evicted, aged, gone := PruneByAge(p, now);
      if !aged { return IOError, used, aged, gone, acts; }
      r, used, acts := EnforceCap(cap, order, evicted);
    }
  }

  // ------------------------------------------------------------- by age

  function Cut(now: int, days: int): int {
    now - days * DAY
  }

  /** The age limit that Prune applies to a kind of evidence, if any. */
  function KindCut(p: Policy, now: int, kind: string): Option<int> {
    if kind == "pcap" then Some(Cut(now, p.pcapDays))
    else if kind == "artifact.upload" || kind == "http.body" then Some(Cut(now, p.payloadDays))
    else if kind == "transcript" then Some(Cut(now, p.transcriptDays))
    else None
  }

  predicate Expired(p: Policy, now: int, row: EvidenceRow) {
    var cut := KindCut(p, now, row.kind);
    cut.Some? && row.createdAt < cut.value
  }

  function OldEvents(p: Policy, now: int, t: Tables): set<string> {
    set id | id in t.events && t.events[id] < Cut(now, p.metadataDays)
  }

  function Aged(p: Policy, now: int, t: Tables): Tables {
    var old_ := OldEvents(p, now, t);
    Tables(map id | id in t.evidence && !Expired(p, now, t.evidence[id])
        && t.evidence[id].event !in old_ :: t.evidence[id], t.events - old_)
  }

  /** The kinds that have an age limit, in the order of the passes. */
  function Kinds(p: Policy): (kinds: seq<(string, int)>)
    ensures |kinds| == 4
    ensures forall i, j :: 0 <= i < j < 4 ==> kinds[i].0 != kinds[j].0
  {
    [("pcap", p.pcapDays), ("artifact.upload", p.payloadDays), ("http.body", p.payloadDays),
        ("transcript", p.transcriptDays)]
  }

  /** The rows due for the first n kinds. */
  function DueUpTo(p: Policy, now: int, t: Tables, n: nat): set<string>
    requires n <= 4
  {
    if n == 0 then {} else DueUpTo(p, now, t, n - 1) + Due(t, Kinds(p)[n - 1].0, Cut(now, Kinds(p)[n - 1].1))
  }

  function AllDue(p: Policy, now: int, t: Tables): set<string> {
    DueUpTo(p, now, t, 4)
  }

  lemma NoneDue(p: Policy, now: int, t: Tables)
    ensures DueUpTo(p, now, t, 0) == {} && t == t.(evidence := t.evidence - {})
  {
  }

  lemma {:induction false} DueKinds(p: Policy, now: int, t: Tables, n: nat)
    requires n <= 4
    ensures forall id :: id in DueUpTo(p, now, t, n) ==>
              id in t.evidence && exists j :: 0 <= j < n && t.evidence[id].kind == Kinds(p)[j].0
  {
    hide Kinds;
    if n > 0 { DueKinds(p, now, t, n - 1); }
  }

  /** A later pass finds its own rows, whatever the earlier passes removed. */
  lemma DueNext(p: Policy, now: int, t: Tables, n: nat)
    requires n < 4
    ensures var past, kind, cut := DueUpTo(p, now, t, n), Kinds(p)[n].0, Cut(now, Kinds(p)[n].1);
            var tx := t.(evidence := t.evidence - past);
            var due := Due(tx, kind, cut);
            && DueUpTo(p, now, t, n + 1) == past + due && |past + due| == |past| + |due|
            && WithoutDue(tx, kind, cut) == t.(evidence := t.evidence - (past + due))
            && forall ids :: ids <= due ==> PathsOf(tx.evidence, ids) == PathsOf(t.evidence, ids)
  {
    DueKinds(p, now, t, n);
    DueStep(p, now, t, n);
    hide Kinds, Cut, DueUpTo;
    DueAfter(t, DueUpTo(p, now, t, n), Kinds(p)[n].0, Cut(now, Kinds(p)[n].1));
    hide Due, WithoutDue, PathsOf;
  }

  lemma DueAfter(t: Tables, past: set<string>, kind: string, cut: int)
    requires forall id :: id in past ==> id in t.evidence && t.evidence[id].kind != kind
    ensures var tx := t.(evidence := t.evidence - past);
            && Due(tx, kind, cut) == Due(t, kind, cut) && past !! Due(t, kind, cut)
            && WithoutDue(tx, kind, cut) == t.(evidence := t.evidence - (past + Due(t, kind, cut)))
            && forall ids :: ids <= Due(t, kind, cut) ==> PathsOf(tx.evidence, ids) == PathsOf(t.evidence, ids)
  {
  }

  lemma NextDueWithin(p: Policy, now: int, t: Tables, n: nat, ids: set<string>)
    requires n < 4
    requires ids <= Due(t.(evidence := t.evidence - DueUpTo(p, now, t, n)), Kinds(p)[n].0, Cut(now, Kinds(p)[n].1))
    ensures DueUpTo(p, now, t, n) + ids <= AllDue(p, now, t)
    ensures Due(t.(evidence := t.evidence - DueUpTo(p, now, t, n)), Kinds(p)[n].0, Cut(now, Kinds(p)[n].1)) != {} ==>
              AllDue(p, now, t) != {}
  {
    DueNext(p, now, t, n);
    hide Due, DueUpTo, Kinds, Cut, PathsOf, WithoutDue;
    DueWithin(p, now, t, n + 1, DueUpTo(p, now, t, n + 1));
  }

  lemma DueThere(p: Policy, now: int, t: Tables)
    ensures AllDue(p, now, t) <= t.evidence.Keys
  {
    DueKinds(p, now, t, 4);
  }

  lemma DueStep(p: Policy, now: int, t: Tables, n: nat)
    requires n < 4
    ensures DueUpTo(p, now, t, n + 1) == DueUpTo(p, now, t, n) + Due(t, Kinds(p)[n].0, Cut(now, Kinds(p)[n].1))
  {
  }

  lemma {:induction false} DueWithin(p: Policy, now: int, t: Tables, n: nat, ids: set<string>)
    requires n <= 4 && ids <= DueUpTo(p, now, t, n)
    ensures ids <= AllDue(p, now, t)
    decreases 4 - n
  {
    hide Due, Kinds;
    if n < 4 {
      DueStep(p, now, t, n);
      DueWithin(p, now, t, n + 1, ids);
    }
  }

  lemma PassJoins(t: Tables, past: set<string>, more: set<string>, files: Files)
    ensures files - PathsOf(t.evidence, past) - PathsOf(t.evidence, more) == files - PathsOf(t.evidence, past + more)
  {
    assert PathsOf(t.evidence, past + more) == PathsOf(t.evidence, past) + PathsOf(t.evidence, more);
  }

  /** The first kind of which a row is due; 4 if none is. */
  function FirstDue(p: Policy, now: int, t: Tables): (j: nat)
    ensures j <= 4
    ensures forall i :: 0 <= i < j ==> Due(t, Kinds(p)[i].0, Cut(now, Kinds(p)[i].1)) == {}
    ensures j < 4 ==> Due(t, Kinds(p)[j].0, Cut(now, Kinds(p)[j].1)) != {}
  {
    FirstDueFrom(p, now, t, 0)
  }

  function FirstDueFrom(p: Policy, now: int, t: Tables, i: nat): (j: nat)
    requires i <= 4
    ensures i <= j <= 4
    ensures forall k :: i <= k < j ==> Due(t, Kinds(p)[k].0, Cut(now, Kinds(p)[k].1)) == {}
    ensures j < 4 ==> Due(t, Kinds(p)[j].0, Cut(now, Kinds(p)[j].1)) != {}
    decreases 4 - i
  {
    if i == 4 || Due(t, Kinds(p)[i].0, Cut(now, Kinds(p)[i].1)) != {} then i else FirstDueFrom(p, now, t, i + 1)
  }

  /**
   The call that removes the first file, if `c` begins the transaction: after it come the queries up
   to the first kind with rows, a stat and the removal.
   */
  function FirstRemoval(p: Policy, now: int, t: Tables, c: nat): nat {
    c + FirstDue(p, now, t) + 3
  }

  /** Nothing is due up to kind n exactly when the first due kind comes no earlier. */
  lemma {:induction false} NoneDueIff(p: Policy, now: int, t: Tables, n: nat)
    requires n <= 4
    ensures DueUpTo(p, now, t, n) == {} <==> FirstDue(p, now, t) >= n
  {
    hide Due, Kinds, Cut, FirstDueFrom;
    if n > 0 { NoneDueIff(p, now, t, n - 1); }
  }

  /** Where the passes stand after i kinds; `a` is the start. */
  ghost predicate Passing(w: World, p: Policy, now: int, i: nat, a: Pass, b: Pass)
    requires i <= 4
  {
    && b.files == a.files - PathsOf(a.tx.evidence, b.gone) && Went(w, b.ok, a.calls, b.calls)
    && (b.ok ==> b.tx == a.tx.(evidence := a.tx.evidence - b.gone) && b.gone == DueUpTo(p, now, a.tx, i)
                 && b.evicted == |b.gone| && b.calls == a.calls + i + 3 * b.evicted)
    && (!b.ok ==>
          && b.gone <= AllDue(p, now, a.tx)
          && (b.gone == {} <==>
                AllDue(p, now, a.tx) == {} || FailsWithin(w, a.calls, a.calls + FirstDue(p, now, a.tx) + 3)))
  }

  lemma NothingAged(w: World, p: Policy, now: int, a: Pass)
    requires a == Fresh(a.tx, a.files, a.calls)
    ensures Passing(w, p, now, 0, a, a)
  {
    NoPaths(a.tx.evidence, a.files);
    NoneDue(p, now, a.tx);
  }

  /** One more kind. */
  lemma PassNext(w: World, p: Policy, now: int, i: nat, a: Pass, b: Pass, k: Pass)
    requires i < 4 && Passing(w, p, now, i, a, b) && b.ok
    requires KindDone(w, Kinds(p)[i].0, Cut(now, Kinds(p)[i].1), Fresh(b.tx, b.files, b.calls), k)
    ensures Passing(w, p, now, i + 1, a, k.(evicted := b.evicted + k.evicted, gone := b.gone + k.gone))
  {
    if !k.ok { PassFails(w, p, now, i, a, b, k); }
    hide Due, DueUpTo, AllDue, PathsOf, Kinds, WithoutDue, Went, Cut, FailsWithin, FirstDue;
    DueNext(p, now, a.tx, i);
    WentOn(w, k.ok, a.calls, b.calls, k.calls);
    PassJoins(a.tx, b.gone, k.gone, a.files);
  }

  /** A pass that fails: when no file at all is gone. */
  lemma PassFails(w: World, p: Policy, now: int, i: nat, a: Pass, b: Pass, k: Pass)
    requires i < 4 && Passing(w, p, now, i, a, b) && b.ok && !k.ok
    requires KindDone(w, Kinds(p)[i].0, Cut(now, Kinds(p)[i].1), Fresh(b.tx, b.files, b.calls), k)
    ensures b.gone + k.gone <= AllDue(p, now, a.tx)
    ensures b.gone + k.gone == {} <==>
              AllDue(p, now, a.tx) == {} || FailsWithin(w, a.calls, a.calls + FirstDue(p, now, a.tx) + 3)
  {
    NoneDueIff(p, now, a.tx, i);
    NoneDueIff(p, now, a.tx, i + 1);
    NoneDueIff(p, now, a.tx, 4);
    hide Due, DueUpTo, PathsOf, Kinds, WithoutDue, Cut, FirstDue;
    DueNext(p, now, a.tx, i);
    NextDueWithin(p, now, a.tx, i, k.gone);
    var first := FirstDue(p, now, a.tx);
    var due := Due(b.tx, Kinds(p)[i].0, Cut(now, Kinds(p)[i].1));
    assert b.gone == {} <==> b.evicted == 0;
    if b.gone != {} {
      assert a.calls + first + 3 <= b.calls;
    } else if due != {} {
      assert first == i;
    }
  }

  /** The four passes. */
  ghost predicate AllKinds(w: World, p: Policy, now: int, a: Pass, b: Pass) {
    && b.files == a.files - PathsOf(a.tx.evidence, b.gone) && b.gone <= AllDue(p, now, a.tx)
      && Went(w, b.ok, a.calls, b.calls)
    && (b.ok ==> b.tx == a.tx.(evidence := a.tx.evidence - b.gone) && b.gone == AllDue(p, now, a.tx)
                 && b.evicted == |b.gone| && b.calls == a.calls + 4 + 3 * b.evicted)
    && (!b.ok ==> (b.gone == {} <==>
      AllDue(p, now, a.tx) == {} || FailsWithin(w, a.calls, a.calls + FirstDue(p, now, a.tx) + 3)))
  }

  lemma AllPassed(w: World, p: Policy, now: int, i: nat, a: Pass, b: Pass)
    requires i <= 4 && (b.ok ==> i == 4) && Passing(w, p, now, i, a, b)
    ensures AllKinds(w, p, now, a, b)
  {
    hide Due, PathsOf, Went, FailsWithin, FirstDue;
  }

  lemma BeginFailed(w: World, p: Policy, now: int, t: Tables, c: nat)
    requires w.fails(c)
    ensures FailsWithin(w, c, FirstRemoval(p, now, t, c) + 1) && Went(w, false, c, c + 1)
  {
    hide FirstDue;
  }

  /** After the passes, and after the deletion of old events and the commit if they went well. */
  lemma AgeEnds(w: World, p: Policy, now: int, t: Tables, c0: nat, c: nat, c1: nat, evicted: nat, ok: bool,
      gone: set<string>)
    requires !w.fails(c0) && gone <= AllDue(p, now, t)
    requires c == c1 || (c1 == c + 1 && ok == !w.fails(c))
    requires Went(w, c < c1 || ok, c0 + 1, c)
    requires c < c1 || ok ==> gone == AllDue(p, now, t) && evicted == |gone| && c == c0 + 5 + 3 * evicted
    requires c == c1 && !ok ==>
               (gone == {} <==> AllDue(p, now, t) == {} || FailsWithin(w, c0 + 1, c0 + 1 + FirstDue(p, now, t) + 3))
    ensures Went(w, ok, c0, c1)
    ensures !ok ==> (gone == {} <==> AllDue(p, now, t) == {} || FailsWithin(w, c0, FirstRemoval(p, now, t, c0) + 1))
  {
    NoneDueIff(p, now, t, 4);
    Shifted(w, c0, FirstDue(p, now, t) + 3);
    hide Due, DueUpTo, FirstDue;
    if c < c1 {
      WentNext(w, true, c0, c);
      if gone != {} { FirstCalls(w, c0, c); }
    }
  }

  /** Rolled back rows keep their files exactly when none was removed. */
  lemma RowsKeptIff(t: Tables, files: Files, gone: set<string>)
    requires gone <= t.evidence.Keys
    ensures OwnFiles(t, files) ==> (RowsHaveFiles(t, files - PathsOf(t.evidence, gone)) <==> gone == {})
  {
    if gone != {} {
      var id :| id in gone;
      assert t.evidence[id].path in PathsOf(t.evidence, gone);
    }
  }

  const CAPTURE := EvidenceRow("pcap", 0, "f", "e")

  /**
   One expired capture with its file, and the deletion of its row, the fifth call, is the one that
   fails: the row stays and its file is gone.
   */
  method PruneFailureExample(s: Store) returns (ok: bool)
    requires s.tables.evidence == map["r" := CAPTURE] && s.files == map["f" := 1]
    requires forall k :: s.w.fails(k) <==> k == s.calls + 4
    modifies s
    ensures !ok && s.calls == old(s.calls) + 5 && s.tables == old(s.tables) && s.files == map[]
  {
    hide AllDue, Aged, OwnFiles, PathsOf, FirstDue;
    OneIsDue(s.tables);
    ghost var c := s.calls;
    var evicted;
    ghost var gone;
    evicted, ok, gone := s.PruneByAge(Policy(1, 1, 1, 1), 2 * DAY);
    assert s.w.fails(c + 4);
    assert !ok && s.w.fails(s.calls - 1);
    assert !FailsWithin(s.w, c, c + 4);
    assert "f" !in s.files && s.files.Keys <= {"f"};
  }

  lemma OneIsDue(t: Tables)
    requires t.evidence == map["r" := CAPTURE]
    ensures AllDue(Policy(1, 1, 1, 1), 2 * DAY, t) == {"r"} && FirstDue(Policy(1, 1, 1, 1), 2 * DAY, t) == 0
    ensures OwnFiles(t, map["f" := 1])
    ensures forall files :: RowsHaveFiles(t, files) <==> "f" in files
  {
    var p := Policy(1, 1, 1, 1);
    assert "r" in Due(t, "pcap", Cut(2 * DAY, 1));
    DueKinds(p, 2 * DAY, t, 4);
    DueStep(p, 2 * DAY, t, 0);
    DueWithin(p, 2 * DAY, t, 1, {"r"});
    assert Kinds(p)[0] == ("pcap", 1);
  }

  lemma AllDueIsExpired(p: Policy, now: int, t: Tables)
    ensures AllDue(p, now, t) == set id | id in t.evidence && Expired(p, now, t.evidence[id])
  {
    DueStep(p, now, t, 0);
    DueStep(p, now, t, 1);
    DueStep(p, now, t, 2);
    DueStep(p, now, t, 3);
    hide DueUpTo;
  }

  function ExpiredPaths(p: Policy, now: int, t: Tables): set<string> {
    set id | id in t.evidence && Expired(p, now, t.evidence[id]) :: t.evidence[id].path
  }

  /** What the age limits keep: each kind's rows and the events, by their own numbers of days. */
  lemma AgedKeeps(p: Policy, now: int, t: Tables, id: string)
    ensures id in Aged(p, now, t).events <==> id in t.events && t.events[id] >= now - p.metadataDays * 86400
    ensures id in Aged(p, now, t).evidence <==>
              && id in t.evidence
              && (t.evidence[id].kind == "pcap" ==> t.evidence[id].createdAt >= now - p.pcapDays * 86400)
              && (t.evidence[id].kind in ["artifact.upload", "http.body"] ==>
                    t.evidence[id].createdAt >= now - p.payloadDays * 86400)
              && (t.evidence[id].kind == "transcript" ==> t.evidence[id].createdAt >= now - p.transcriptDays * 86400)
              && (t.evidence[id].event in t.events ==> t.events[t.evidence[id].event] >= now - p.metadataDays * 86400)
    ensures id in Aged(p, now, t).evidence ==> Aged(p, now, t).evidence[id] == t.evidence[id]
    ensures id in Aged(p, now, t).events ==> Aged(p, now, t).events[id] == t.events[id]
  {
  }

  /** The passes and the event deletion amount to Aged. */
  lemma WithoutExpired(p: Policy, now: int, t0: Tables)
    ensures var t4 := t0.(evidence := t0.evidence - AllDue(p, now, t0));
            WithoutEvents(t4, OldEvents(p, now, t4)) == Aged(p, now, t0)
  {
    AllDueIsExpired(p, now, t0);
    hide AllDue, Expired;
  }

  ghost predicate NoStrays(t: Tables, files: Files) {
    forall path :: path in files ==> exists id :: id in t.evidence && t.evidence[id].path == path
  }

  /** Ageing leaves no file behind exactly when all evidence of every deleted event had expired on its own. */
  lemma AgedStraysIff(p: Policy, now: int, t: Tables, files: Files)
    requires OwnFiles(t, files) && NoStrays(t, files)
    ensures NoStrays(Aged(p, now, t), files - ExpiredPaths(p, now, t)) <==>
              forall id :: id in t.evidence && t.evidence[id].event in OldEvents(p, now, t) ==>
                  Expired(p, now, t.evidence[id])
  {
    hide Expired, OldEvents;
    var after, left := Aged(p, now, t), files - ExpiredPaths(p, now, t);
    forall id | id in t.evidence && t.evidence[id].event in OldEvents(p, now, t) && !Expired(p, now, t.evidence[id])
      ensures !NoStrays(after, left)
    {
      var path := t.evidence[id].path;
      assert path in left;
      assert forall other :: other in after.evidence && after.evidence[other].path == path ==> other == id;
    }
    if forall id :: id in t.evidence && t.evidence[id].event in OldEvents(p, now, t) ==>
      Expired(p, now, t.evidence[id]) {
      forall path | path in left
        ensures exists id :: id in after.evidence && after.evidence[id].path == path
      {
        var id :| id in t.evidence && t.evidence[id].path == path;
        assert id in after.evidence;
      }
    }
  }

  /** Password evidence has no age limit of its own, so its file always outlives its event. */
  lemma PasswordFileStays(p: Policy, now: int, t: Tables, files: Files, id: string)
    requires OwnFiles(t, files) && NoStrays(t, files)
    requires id in t.evidence && t.evidence[id].kind == "credential.password"
             && t.evidence[id].event in OldEvents(p, now, t)
    ensures !NoStrays(Aged(p, now, t), files - ExpiredPaths(p, now, t))
  {
    AgedStraysIff(p, now, t, files);
    assert !Expired(p, now, t.evidence[id]);
  }

  lemma NoneOldest(events: map<string, int>)
    ensures AreOldest(events, {}) && events - {} == events && events.Keys - events.Keys == {}
  {
  }

  lemma FewerEvents(events: map<string, int>, ids: set<string>)
    requires ids <= events.Keys && |ids| > 0
    ensures |events - ids| < |events|
  {
    assert (events - ids).Keys == events.Keys - ids;
    assert |events.Keys - ids| == |events.Keys| - |ids|;
  }

  /** The oldest of what is left after removing the oldest are still the oldest. */
  lemma OldestJoin(events: map<string, int>, gone: set<string>, ids: set<string>)
    requires AreOldest(events, gone) && AreOldest(events - gone, ids)
    ensures AreOldest(events, gone + ids)
    ensures (events - gone) - ids == events - (gone + ids)
    ensures events.Keys - ((events - gone) - ids).Keys == gone + ids
  {
    hide Less;
    forall a, b | a in gone + ids && b in events.Keys - (gone + ids)
      ensures Older(events, a, b)
    {
      assert a in ids ==> a in events - gone && b in (events - gone).Keys - ids;
    }
  }

  /** With the first n rows of the order gone, the next one goes first. */
  lemma HeadGoesFirst(all: map<string, EvidenceRow>, order: seq<string>, n: nat, rest: map<string, EvidenceRow>)
    requires IsEvictionOrder(order, all) && n < |order| && SubRows(rest, all)
    requires forall id :: id in rest <==> id in order[n..]
    ensures GoesFirst(rest, order[n])
    ensures forall id :: id in rest - {order[n]} <==> id in order[n + 1..]
  {
    hide NotAfter;
    assert order[n..] == [order[n]] + order[n + 1..];
    forall other | other in rest
      ensures NotAfter(rest[order[n]], rest[other])
    {
      var k :| 0 <= k < |order[n..]| && order[n..][k] == other;
      if k == 0 { NotAfterSelf(rest[other]); } else { assert order[n + k] == other; }
    }
  }

  lemma NotAfterSelf(row: EvidenceRow)
    ensures NotAfter(row, row)
  {
  }
}
