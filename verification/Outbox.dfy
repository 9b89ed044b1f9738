/** The durable webhook outbox: queueing, due deliveries in batches, and manual retry. */
module Outbox {
  import opened Text
  import opened Deliveries
  import Tally

  const BATCH := 20

  type Rows = map<string, Delivery>

  // ------------------------------------------------------------ termination

  function Weight(d: Delivery): (w: int)
    ensures w >= 0
  {
    if !Live(d) then 0 else if d.attempts >= MAX_ATTEMPTS then 1 else MAX_ATTEMPTS - d.attempts
  }

  ghost function Weights(rows: Rows): map<string, int> {
    map id | id in rows :: Weight(rows[id])
  }

  ghost function Measure(rows: Rows): (n: nat) {
    Tally.SumNonNegative(Weights(rows));
    Tally.Sum(Weights(rows))
  }

  /** Every request made uses up some of the measure, whatever its outcome. */
  lemma AttemptDecreases(rows: Rows, id: string, ok: bool, now: int)
    requires id in rows && Live(rows[id])
    ensures Measure(rows[id := Attempted(rows[id], ok, now)]) < Measure(rows)
  {
    hide Backoff;
    var after := Attempted(rows[id], ok, now);
    Tally.SumPut(Weights(rows), id, Weight(after));
    assert Weights(rows[id := after]) == Weights(rows)[id := Weight(after)];
  }

  // --------------------------------------------------- the outbox as a value

  /** Readings of the clock and answers of the endpoints, in the order they are asked for. */
  datatype World = World(clock: nat -> int, accepted: nat -> bool)

  /** A request: the clock reading of the query that selected its delivery, and that of its own timestamp. */
  datatype Request = Request(id: string, picked: nat, stamp: nat)

  datatype History = History(start: Delivery, entries: seq<Entry>)

  /** The table, what happened to each of its rows, the requests made, and the clock readings taken. */
  datatype Snap = Snap(rows: Rows, histories: map<string, History>, sent: seq<Request>, ticks: nat)

  /** What request q did to its delivery. A refusal reads the clock once more. */
  function EntryOf(w: World, sent: seq<Request>, q: nat): Entry
    requires q < |sent|
  {
    if w.accepted(q) then Accepted(w.clock(sent[q].picked))
    else Refused(w.clock(sent[q].picked), w.clock(sent[q].stamp + 1))
  }

  /** The requests made for `id` with their answers, in order. */
  function Answers(w: World, sent: seq<Request>, id: string): seq<Entry> {
    if sent == [] then []
    else
      var q := |sent| - 1;
      Answers(w, sent[..q], id) + if sent[q].id == id then [EntryOf(w, sent, q)] else []
  }

  /** Each row is what its history leaves, and no two rows have one alert and endpoint. */
  ghost predicate Consistent(rows: Rows, histories: map<string, History>) {
    && rows.Keys == histories.Keys
    && (forall id :: id in rows ==> RowOf(rows[id], histories[id]))
    && (forall i, j :: i in rows && j in rows && SameTarget(rows[i], rows[j]) ==> i == j)
  }

  ghost predicate RowOf(d: Delivery, h: History) {
    d == Row(h.start, h.entries) && Sound(h.start, h.entries)
  }

  predicate SameTarget(a: Delivery, b: Delivery) {
    a.alert == b.alert && a.endpoint == b.endpoint
  }

  /** The requests in the histories are the requests made. */
  ghost predicate Sourced(w: World, histories: map<string, History>, sent: seq<Request>) {
    && (forall q :: 0 <= q < |sent| ==> sent[q].id in histories)
    && forall id :: id in histories ==> RequestsOf(histories[id].entries) == Answers(w, sent, id)
  }

  /** When request q was over. */
  function Over(w: World, sent: seq<Request>, q: nat): nat
    requires q < |sent|
  {
    sent[q].stamp + if w.accepted(q) then 1 else 2
  }

  /** Requests are made one after the other, each after it was picked. */
  ghost predicate Stamped(w: World, sent: seq<Request>, ticks: nat) {
    && (forall q :: 0 <= q < |sent| ==> sent[q].picked < sent[q].stamp && Over(w, sent, q) <= ticks)
    && (forall p, q :: 0 <= p < q < |sent| ==> Over(w, sent, p) <= sent[q].stamp)
  }

  ghost predicate Ok(w: World, s: Snap) {
    Consistent(s.rows, s.histories) && Sourced(w, s.histories, s.sent) && Stamped(w, s.sent, s.ticks)
  }

  // ------------------------------------------------------------- one request

  function Extended(h: History, e: Entry): History {
    h.(entries := h.entries + [e])
  }

  lemma ExtendedRow(h: History, e: Entry)
    ensures Row(h.start, h.entries + [e]) == Applied(Row(h.start, h.entries), e)
    ensures Sound(h.start, h.entries + [e]) <==> Sound(h.start, h.entries) && May(Row(h.start, h.entries), e)
    ensures RequestsOf(h.entries + [e]) == RequestsOf(h.entries) + if e.Reopened? then [] else [e]
  {
    assert ButLast(h.entries + [e]) == h.entries;
  }

  /** The request for `id`, picked at reading `picked`. */
  function Send(w: World, s: Snap, id: string, picked: nat): Snap
    requires id in s.rows && id in s.histories
  {
    var sent := s.sent + [Request(id, picked, s.ticks)];
    var e := EntryOf(w, sent, |s.sent|);
    Snap(s.rows[id := Applied(s.rows[id], e)], s.histories[id := Extended(s.histories[id], e)], sent,
         Over(w, sent, |s.sent|))
  }

  lemma ConsistentUpdate(rows: Rows, histories: map<string, History>, id: string, d: Delivery, h: History)
    requires Consistent(rows, histories) && RowOf(d, h)
    requires if id in rows then SameTarget(rows[id], d) else forall i :: i in rows ==> !SameTarget(rows[i], d)
    ensures Consistent(rows[id := d], histories[id := h])
  {
    hide RowOf;
  }

  lemma AnswersNext(w: World, sent: seq<Request>, r: Request, id: string)
    ensures Answers(w, sent + [r], id)
         == Answers(w, sent, id) + if r.id == id then [EntryOf(w, sent + [r], |sent|)] else []
  {
    assert (sent + [r])[..|sent|] == sent;
  }

  lemma {:induction false} NoAnswers(w: World, sent: seq<Request>, id: string)
    requires forall q :: 0 <= q < |sent| ==> sent[q].id != id
    ensures Answers(w, sent, id) == []
  {
    if sent != [] { NoAnswers(w, sent[..|sent| - 1], id); }
  }

  lemma SendSourced(w: World, s: Snap, id: string, picked: nat)
    requires Sourced(w, s.histories, s.sent) && id in s.rows && id in s.histories
    ensures Sourced(w, Send(w, s, id, picked).histories, Send(w, s, id, picked).sent)
  {
    var after := Send(w, s, id, picked);
    ExtendedRow(s.histories[id], EntryOf(w, after.sent, |s.sent|));
    hide Answers, RequestsOf, Applied;
    forall other ensures Answers(w, after.sent, other)
                      == Answers(w, s.sent, other) + if id == other then [EntryOf(w, after.sent, |s.sent|)] else []
    {
      AnswersNext(w, s.sent, Request(id, picked, s.ticks), other);
    }
  }

  lemma SendStamped(w: World, s: Snap, id: string, picked: nat)
    requires Stamped(w, s.sent, s.ticks) && id in s.rows && id in s.histories && picked < s.ticks
    ensures Stamped(w, Send(w, s, id, picked).sent, Send(w, s, id, picked).ticks)
  {
    hide Applied;
    var sent := s.sent + [Request(id, picked, s.ticks)];
    assert forall q :: 0 <= q < |s.sent| ==> Over(w, sent, q) == Over(w, s.sent, q);
  }

  /** What may happen to a row keeps the table consistent. */
  lemma EntryKeeps(rows: Rows, histories: map<string, History>, id: string, e: Entry)
    requires Consistent(rows, histories) && id in rows && May(rows[id], e)
    ensures id in histories
    ensures Consistent(rows[id := Applied(rows[id], e)], histories[id := Extended(histories[id], e)])
  {
    ExtendedRow(histories[id], e);
    assert RowOf(rows[id], histories[id]);
    assert SameTarget(rows[id], Applied(rows[id], e));
    hide Row, Sound, Applied, May, SameTarget;
    ConsistentUpdate(rows, histories, id, Applied(rows[id], e), Extended(histories[id], e));
  }

  /** A due delivery may be requested; every request uses up some of the measure. */
  lemma SendOk(w: World, s: Snap, id: string, picked: nat)
    requires Ok(w, s) && id in s.rows && picked < s.ticks && Due(s.rows[id], w.clock(picked))
    ensures id in s.histories && Ok(w, Send(w, s, id, picked))
    ensures Measure(Send(w, s, id, picked).rows) < Measure(s.rows)
  {
    var sent := s.sent + [Request(id, picked, s.ticks)];
    assert sent[|s.sent|] == Request(id, picked, s.ticks);
    var e := EntryOf(w, sent, |s.sent|);
    assert May(s.rows[id], e);
    AttemptDecreases(s.rows, id, e.Accepted?, if e.Accepted? then e.picked else e.at);
    EntryKeeps(s.rows, s.histories, id, e);
    SendSourced(w, s, id, picked);
    SendStamped(w, s, id, picked);
    hide Measure, Sourced, Stamped, Consistent, Attempted, EntryOf, Due, May;
  }

  // -------------------------------------------------------- what requests tell

  /** Request q was made for `id`, and the endpoint accepted it. */
  ghost predicate SentAndAccepted(w: World, sent: seq<Request>, id: string, q: nat) {
    q < |sent| && sent[q].id == id && w.accepted(q)
  }

  lemma {:induction false} AnswersOf(w: World, sent: seq<Request>, id: string)
    ensures (exists e :: e in Answers(w, sent, id) && e.Accepted?) <==> exists q: nat :: SentAndAccepted(w, sent, id, q)
  {
    if sent != [] {
      var last := |sent| - 1;
      var before := sent[..last];
      AnswersOf(w, before, id);
      if exists q: nat :: SentAndAccepted(w, sent, id, q) {
        var q: nat :| SentAndAccepted(w, sent, id, q);
        assert q < last ==> SentAndAccepted(w, before, id, q);
        assert q == last ==> EntryOf(w, sent, last) in Answers(w, sent, id);
      }
      if exists q: nat :: SentAndAccepted(w, before, id, q) {
        var q: nat :| SentAndAccepted(w, before, id, q);
        assert SentAndAccepted(w, sent, id, q);
      }
      if sent[last].id == id && w.accepted(last) { assert SentAndAccepted(w, sent, id, last); }
    }
  }

  /** A delivery is delivered exactly when one of its own requests was accepted. */
  lemma DeliveredIff(w: World, s: Snap, id: string)
    requires Ok(w, s) && id in s.rows
    ensures s.rows[id].status == Delivered <==> exists q: nat :: SentAndAccepted(w, s.sent, id, q)
    ensures s.rows[id].attempts == |Answers(w, s.sent, id)|
  {
    var h := s.histories[id];
    assert RowOf(s.rows[id], h);
    AnswersOf(w, s.sent, id);
    DeliveredIfAccepted(h.start, h.entries);
    hide Answers, RequestsOf, Row, Sound, SentAndAccepted, Stamped, EntryOf, SameTarget;
  }

  /**
   In every state the outbox can get into: the first request for a delivery was picked no sooner than it was
   queued for, and the one after its k-th refusal at least 2 to the k seconds after that, unless k is eight or
   more; then each takes a manual retry.
   */
  lemma BackoffIsKept(w: World, s: Snap, id: string)
    requires Ok(w, s) && id in s.rows
    ensures var (r, h) := (Answers(w, s.sent, id), s.histories[id]);
            && Spaced(r) && (r != [] ==> !r[0].Reopened? && r[0].picked >= h.start.next)
            && |r| <= MAX_ATTEMPTS + CountsOf(h.entries).manual
  {
    var h := s.histories[id];
    assert RowOf(s.rows[id], h);
    RequestsAreSpaced(h.start, h.entries);
  }

  // ----------------------------------------------------------- enqueueing

  /** INSERT OR IGNORE: a row with the ID, or with the alert and endpoint, stands in the way. */
  predicate Blocked(rows: Rows, id: string, alert: string, endpoint: string) {
    id in rows || HasRow(rows, alert, endpoint)
  }

  predicate HasRow(rows: Rows, alert: string, endpoint: string) {
    exists i :: i in rows && rows[i].alert == alert && rows[i].endpoint == endpoint
  }

  function EnqueueAll(rows: Rows, alert: string, endpoints: seq<string>, ids: seq<string>, now: int): Rows
    requires |ids| == |endpoints|
    decreases |endpoints|
  {
    if endpoints == [] then rows
    else
      var next := if Blocked(rows, ids[0], alert, endpoints[0]) then rows
          else rows[ids[0] := Delivery(alert, endpoints[0], Pending, 0, now)];
      EnqueueAll(next, alert, endpoints[1..], ids[1..], now)
  }

  lemma EnqueueNone(rows: Rows, alert: string, now: int)
    ensures EnqueueAll(rows, alert, [], [], now) == rows
  {
  }

  lemma EnqueueNext(rows: Rows, alert: string, endpoints: seq<string>, ids: seq<string>, now: int, i: nat)
    requires i < |ids| == |endpoints|
    ensures var next := if Blocked(rows, ids[i], alert, endpoints[i]) then rows
              else rows[ids[i] := Delivery(alert, endpoints[i], Pending, 0, now)];
            EnqueueAll(rows, alert, endpoints[i..], ids[i..], now)
                == EnqueueAll(next, alert, endpoints[i + 1..], ids[i + 1..], now)
  {
    hide Blocked;
    assert endpoints[i..][0] == endpoints[i] && endpoints[i..][1..] == endpoints[i + 1..];
    assert ids[i..][0] == ids[i] && ids[i..][1..] == ids[i + 1..];
  }

  /** With new IDs every endpoint ends up with a row for the alert, and existing rows are as they were. */
  lemma {:induction false} EveryEndpointHasARow(rows: Rows, alert: string, endpoints: seq<string>, ids: seq<string>,
      now: int)
    requires |ids| == |endpoints|
    requires forall i :: 0 <= i < |ids| ==> ids[i] !in rows
    requires forall i, j :: 0 <= i < j < |ids| ==> ids[i] != ids[j]
    ensures var after := EnqueueAll(rows, alert, endpoints, ids, now);
            && (forall id :: id in rows ==> id in after && after[id] == rows[id])
            && (forall e :: e in endpoints ==> HasRow(after, alert, e))
            && (forall id :: id in after && id !in rows ==>
                  && after[id].alert == alert && after[id].endpoint in endpoints
                  && after[id].status == Pending && after[id].attempts == 0 && after[id].next == now)
    decreases |endpoints|
  {
    if endpoints != [] {
      var next := if Blocked(rows, ids[0], alert, endpoints[0]) then rows
          else rows[ids[0] := Delivery(alert, endpoints[0], Pending, 0, now)];
      var first: string;
      if Blocked(rows, ids[0], alert, endpoints[0]) {
        first :| first in rows && rows[first].alert == alert && rows[first].endpoint == endpoints[0];
      } else {
        first := ids[0];
      }
      EveryEndpointHasARow(next, alert, endpoints[1..], ids[1..], now);
      var after := EnqueueAll(next, alert, endpoints[1..], ids[1..], now);
      assert after == EnqueueAll(rows, alert, endpoints, ids, now);
      hide EnqueueAll, Blocked;
      assert first in after && after[first].alert == alert && after[first].endpoint == endpoints[0];
      forall e | e in endpoints
        ensures HasRow(after, alert, e)
      {
        assert e == endpoints[0] || e in endpoints[1..];
      }
    }
  }

  /** A new row, with nothing in its history. */
  function Enroll(s: Snap, id: string, d: Delivery): Snap {
    s.(rows := s.rows[id := d], histories := s.histories[id := History(d, [])])
  }

  lemma EnrollOk(w: World, s: Snap, id: string, alert: string, endpoint: string, now: int)
    requires Ok(w, s) && !Blocked(s.rows, id, alert, endpoint)
    ensures Ok(w, Enroll(s, id, Delivery(alert, endpoint, Pending, 0, now)))
  {
    var d := Delivery(alert, endpoint, Pending, 0, now);
    assert RowOf(d, History(d, []));
    assert forall i :: i in s.rows ==> !SameTarget(s.rows[i], d);
    hide Stamped, RowOf;
    ConsistentUpdate(s.rows, s.histories, id, d, History(d, []));
    hide Consistent, Sourced, SameTarget;
    NewSourced(w, s.histories, s.sent, id, d);
  }

  /** The table grew by new rows without a history, and nothing else happened. */
  ghost predicate Grew(a: Snap, b: Snap) {
    && b.sent == a.sent && b.ticks == a.ticks && a.rows.Keys == a.histories.Keys && b.rows.Keys == b.histories.Keys
    && (forall id :: id in a.rows ==> id in b.rows && b.rows[id] == a.rows[id] && b.histories[id] == a.histories[id])
    && (forall id :: id in b.rows && id !in a.rows ==> b.histories[id] == History(b.rows[id], []))
  }

  lemma GrewNext(a: Snap, b: Snap, id: string, d: Delivery)
    requires Grew(a, b) && id !in b.rows
    ensures Grew(a, Enroll(b, id, d))
  {
  }

  lemma GrewNone(w: World, s: Snap)
    requires Ok(w, s)
    ensures Grew(s, s)
  {
    hide Sourced, Stamped, RowOf;
  }

  lemma NewSourced(w: World, histories: map<string, History>, sent: seq<Request>, id: string, d: Delivery)
    requires Sourced(w, histories, sent) && id !in histories
    ensures Sourced(w, histories[id := History(d, [])], sent)
  {
    NoAnswers(w, sent, id);
    hide Answers;
    assert RequestsOf([]) == [];
  }

  // ------------------------------------------------------------- due deliveries

  predicate Before(rows: Rows, a: string, b: string)
    requires a in rows && b in rows
  {
    rows[a].next < rows[b].next || (rows[a].next == rows[b].next && Less(a, b))
  }

  lemma BeforeOrder(rows: Rows, a: string, b: string, c: string)
    requires a in rows && b in rows && c in rows
    ensures Before(rows, a, b) && Before(rows, b, c) ==> Before(rows, a, c)
    ensures a != b ==> Before(rows, a, b) || Before(rows, b, a)
  {
    if Less(a, b) && Less(b, c) { LessTransitive(a, b, c); }
    LessTotal(a, b);
    hide Less;
  }

  lemma {:induction false} EarliestExists(rows: Rows, ids: set<string>)
    requires ids != {} && ids <= rows.Keys
    ensures exists m :: m in ids && forall x :: x in ids && x != m ==> Before(rows, m, x)
  {
    hide Before;
    var m :| m in ids;
    var rest := ids - {m};
    if rest != {} {
      EarliestExists(rows, rest);
      var r :| r in rest && forall x :: x in rest && x != r ==> Before(rows, r, x);
      BeforeOrder(rows, m, r, r);
      var low := if Before(rows, r, m) then r else m;
      forall x | x in ids && x != low
        ensures Before(rows, low, x)
      {
        assert x == m || x in rest;
        if low == m && x != r { BeforeOrder(rows, m, r, x); }
      }
    } else {
      assert forall x :: x in ids ==> x == m || x in rest;
    }
  }

  function DueSet(rows: Rows, now: int): (ids: set<string>)
    ensures ids <= rows.Keys
  {
    set id | id in rows && Due(rows[id], now)
  }

  ghost function First(rows: Rows, ids: set<string>): (m: string)
    requires ids != {} && ids <= rows.Keys
    ensures m in ids && forall x :: x in ids && x != m ==> Before(rows, m, x)
  {
    EarliestExists(rows, ids);
    var m :| m in ids && forall x :: x in ids && x != m ==> Before(rows, m, x);
    m
  }

  lemma FirstUnique(rows: Rows, ids: set<string>, m: string)
    requires m in ids && ids <= rows.Keys && forall x :: x in ids && x != m ==> Before(rows, m, x)
    ensures m == First(rows, ids)
  {
    var f := First(rows, ids);
    if f != m {
      BeforeOrder(rows, f, m, f);
      LessIrreflexive(f);
    }
  }

  /** The first n of `ids` by due time and ID. */
  ghost function Take(rows: Rows, ids: set<string>, n: nat): (first: seq<string>)
    requires ids <= rows.Keys
    ensures |first| <= n && (|first| < n ==> forall id :: id in ids ==> id in first)
    ensures forall id :: id in first ==> id in ids
    ensures forall i, j :: 0 <= i < j < |first| ==> first[i] != first[j]
    decreases n
  {
    if n == 0 || ids == {} then [] else [First(rows, ids)] + Take(rows, ids - {First(rows, ids)}, n - 1)
  }

  ghost function Batch(rows: Rows, now: int): seq<string> {
    Take(rows, DueSet(rows, now), BATCH)
  }

  /** The requests for a batch, in order. */
  function SendAll(w: World, s: Snap, ids: seq<string>, picked: nat): Snap
    requires forall id :: id in ids ==> id in s.rows && id in s.histories
    decreases |ids|
  {
    if ids == [] then s else SendAll(w, Send(w, s, ids[0], picked), ids[1..], picked)
  }

  /** Some request from the n-th on was made for `id`. */
  ghost predicate Requested(sent: seq<Request>, n: nat, id: string) {
    exists q :: n <= q < |sent| && sent[q].id == id
  }

  /**
   From a to b nothing but requests happened, picked by readings taken since a: no delivery is added or
   dropped, a delivered one never changes, and one without a request is as it was.
   */
  ghost predicate Only(a: Snap, b: Snap) {
    && b.rows.Keys == a.rows.Keys == a.histories.Keys == b.histories.Keys && a.sent <= b.sent
    && (forall q :: |a.sent| <= q < |b.sent| ==> b.sent[q].picked >= a.ticks)
    && forall id :: id in a.rows ==> OnlyRequests(a, b, id)
  }

  ghost predicate OnlyRequests(a: Snap, b: Snap, id: string)
    requires id in a.rows && id in a.histories && id in b.rows && id in b.histories
  {
    && (a.rows[id].status == Delivered || !Requested(b.sent, |a.sent|, id) ==> b.rows[id] == a.rows[id])
    && b.histories[id].start == a.histories[id].start && a.histories[id].entries <= b.histories[id].entries
    && CountsOf(b.histories[id].entries).manual == CountsOf(a.histories[id].entries).manual
  }

  lemma OnlySend(w: World, a: Snap, s: Snap, id: string, picked: nat)
    requires Only(a, s) && id in s.rows && Live(s.rows[id]) && picked >= a.ticks
    ensures Only(a, Send(w, s, id, picked))
  {
    var after := Send(w, s, id, picked);
    SendFrame(w, s, id, picked);
    hide Send, Live, OnlyRequests;
    forall other | other in a.rows
      ensures OnlyRequests(a, after, other)
    {
      assert OnlyRequests(a, s, other);
      OnlySendOne(w, a, s, id, picked, other);
    }
  }

  lemma SendFrame(w: World, s: Snap, id: string, picked: nat)
    requires id in s.rows && id in s.histories
    ensures var after := Send(w, s, id, picked);
            && after.rows.Keys == s.rows.Keys && after.histories.Keys == s.histories.Keys
            && after.sent == s.sent + [Request(id, picked, s.ticks)] && after.ticks > s.ticks
  {
    hide Applied;
  }

  lemma OnlySendOne(w: World, a: Snap, s: Snap, id: string, picked: nat, other: string)
    requires other in a.rows && other in a.histories && other in s.rows && other in s.histories
    requires id in s.rows && id in s.histories && Live(s.rows[id])
    requires |a.sent| <= |s.sent| && OnlyRequests(a, s, other)
    ensures OnlyRequests(a, Send(w, s, id, picked), other)
  {
    LiveIsOpen(s.rows[id]);
    SendHistory(w, s, id, picked);
    RequestedNext(s.sent, Request(id, picked, s.ticks), |a.sent|);
    hide Applied, Requested, CountsOf, Live, EntryOf;
  }

  lemma LiveIsOpen(d: Delivery)
    requires Live(d)
    ensures d.status != Delivered
  {
  }

  lemma RequestedNext(sent: seq<Request>, r: Request, n: nat)
    requires n <= |sent|
    ensures forall id :: Requested(sent + [r], n, id) <==> Requested(sent, n, id) || r.id == id
  {
    forall id ensures Requested(sent + [r], n, id) <==> Requested(sent, n, id) || r.id == id {
      assert (sent + [r])[|sent|] == r;
      if Requested(sent, n, id) {
        var q :| n <= q < |sent| && sent[q].id == id;
        assert (sent + [r])[q].id == id;
      }
    }
  }

  lemma SendHistory(w: World, s: Snap, id: string, picked: nat)
    requires id in s.rows && id in s.histories
    ensures var (h, g) := (s.histories[id], Send(w, s, id, picked).histories[id]);
            g.start == h.start && h.entries <= g.entries && CountsOf(g.entries).manual == CountsOf(h.entries).manual
  {
    hide Applied;
    var g := Send(w, s, id, picked).histories[id];
    assert ButLast(g.entries) == s.histories[id].entries;
  }

  /** A batch of due deliveries, each of them once. */
  lemma {:induction false} BatchOk(w: World, a: Snap, s: Snap, ids: seq<string>, picked: nat)
    requires Ok(w, s) && Only(a, s) && a.ticks <= picked < s.ticks
    requires forall id :: id in ids ==> id in s.rows && id in s.histories && Due(s.rows[id], w.clock(picked))
    requires forall i, j :: 0 <= i < j < |ids| ==> ids[i] != ids[j]
    ensures Ok(w, SendAll(w, s, ids, picked)) && Only(a, SendAll(w, s, ids, picked))
    ensures Measure(SendAll(w, s, ids, picked).rows) <= Measure(s.rows) - |ids|
    decreases |ids|
  {
    hide Measure, Ok, Only, Applied, EntryOf;
    if ids != [] {
      assert ids[0] in ids;
      SendOk(w, s, ids[0], picked);
      OnlySend(w, a, s, ids[0], picked);
      var next := Send(w, s, ids[0], picked);
      assert forall id :: id in ids[1..] ==> id in ids && id != ids[0];
      BatchOk(w, a, next, ids[1..], picked);
    }
  }

  lemma ReadClock(w: World, a: Snap, s: Snap)
    requires Ok(w, s) && Only(a, s)
    ensures Ok(w, s.(ticks := s.ticks + 1)) && Only(a, s.(ticks := s.ticks + 1))
  {
    hide Consistent, Sourced, CountsOf;
  }

  lemma OnlyNow(w: World, s: Snap)
    requires Ok(w, s)
    ensures Only(s, s)
  {
    hide Sourced, Stamped, RowOf, CountsOf;
  }

  /** One query and the requests for what it finds. */
  lemma RoundOk(w: World, a: Snap, s: Snap)
    requires Ok(w, s) && Only(a, s) && a.ticks <= s.ticks
    ensures var (ids, s1) := (Batch(s.rows, w.clock(s.ticks)), s.(ticks := s.ticks + 1));
            && Ok(w, s1) && Only(a, s1)
            && (forall id :: id in ids ==> id in s1.rows && id in s1.histories)
            && var next := SendAll(w, s1, ids, s.ticks);
            Ok(w, next) && Only(a, next) && Measure(next.rows) <= Measure(s.rows) - |ids|
  {
    var ids := Batch(s.rows, w.clock(s.ticks));
    assert s.rows.Keys == s.histories.Keys;
    ReadClock(w, a, s);
    hide Measure, Ok, Only, Take, Due, SendAll;
    BatchOk(w, a, s.(ticks := s.ticks + 1), ids, s.ticks);
  }

  lemma Round(w: World, s: Snap)
    requires Ok(w, s)
    ensures var (ids, s1) := (Batch(s.rows, w.clock(s.ticks)), s.(ticks := s.ticks + 1));
            && Ok(w, s1) && (forall id :: id in ids ==> id in s1.rows && id in s1.histories)
            && var next := SendAll(w, s1, ids, s.ticks);
            Ok(w, next) && Measure(next.rows) <= Measure(s.rows) - |ids|
  {
    OnlyNow(w, s);
    RoundOk(w, s, s);
    hide *;
  }

  /** Batch after batch until, at some reading of the clock, nothing is due. */
  ghost function Drain(w: World, s: Snap): Snap
    requires Ok(w, s)
    decreases Measure(s.rows)
  {
    var ids := Batch(s.rows, w.clock(s.ticks));
    var s1 := s.(ticks := s.ticks + 1);
    Round(w, s);
    if ids == [] then s1 else Drain(w, SendAll(w, s1, ids, s.ticks))
  }

  /** Nothing is due at the last reading, and nothing but requests for due deliveries happened. */
  lemma {:induction false} DrainEnds(w: World, a: Snap, s: Snap)
    requires Ok(w, s) && Only(a, s) && a.ticks <= s.ticks
    ensures Served(w, a, Drain(w, s))
    decreases Measure(s.rows)
  {
    hide Measure, Ok, Only, Take, Due, Drain, Batch, SendAll;
    RoundOk(w, a, s);
    DrainStep(w, s);
    var ids := Batch(s.rows, w.clock(s.ticks));
    var s1 := s.(ticks := s.ticks + 1);
    if ids == [] {
      NothingDue(s.rows, w.clock(s.ticks));
    } else {
      TicksGrow(w, s1, ids, s.ticks);
      DrainEnds(w, a, SendAll(w, s1, ids, s.ticks));
    }
  }

  lemma DrainStep(w: World, s: Snap)
    requires Ok(w, s)
    ensures var (ids, s1) := (Batch(s.rows, w.clock(s.ticks)), s.(ticks := s.ticks + 1));
            && (forall id :: id in ids ==> id in s1.rows && id in s1.histories)
            && var next := SendAll(w, s1, ids, s.ticks);
            (ids != [] ==> Ok(w, next)) && Drain(w, s) == if ids == [] then s1 else Drain(w, next)
  {
    hide Ok, Batch, Measure, SendAll;
    Round(w, s);
  }

  lemma NothingDue(rows: Rows, now: int)
    ensures Batch(rows, now) == [] <==> forall id :: id in rows ==> !Due(rows[id], now)
  {
    hide Due, Take;
    var ids := Batch(rows, now);
    if ids != [] { assert ids[0] in ids; }
    forall id | id in rows && Due(rows[id], now)
      ensures ids != []
    {
      assert id in DueSet(rows, now);
    }
  }

  lemma {:induction false} TicksGrow(w: World, s: Snap, ids: seq<string>, picked: nat)
    requires forall id :: id in ids ==> id in s.rows && id in s.histories
    ensures SendAll(w, s, ids, picked).ticks >= s.ticks
    decreases |ids|
  {
    hide Applied, EntryOf;
    if ids != [] { TicksGrow(w, Send(w, s, ids[0], picked), ids[1..], picked); }
  }

  /** After deliveries up to `after`, with nothing due at its last reading. */
  ghost predicate Served(w: World, s: Snap, after: Snap) {
    && Ok(w, after) && Only(s, after) && after.ticks > s.ticks
    && forall id :: id in after.rows ==> !Due(after.rows[id], w.clock(after.ticks - 1))
  }

  /** Unless the clock went back, every delivery due at the start got a request. */
  lemma DueIsRequested(w: World, s: Snap, after: Snap, id: string)
    requires Served(w, s, after) && id in s.rows && Due(s.rows[id], w.clock(s.ticks))
    requires w.clock(s.ticks) <= w.clock(after.ticks - 1)
    ensures Requested(after.sent, |s.sent|, id)
  {
    hide Ok, Requested, CountsOf;
    assert OnlyRequests(s, after, id);
  }

  /** A manual retry: only a failed delivery, once more. */
  function Reopen(s: Snap, id: string, now: int): Snap
    requires id in s.rows && id in s.histories
  {
    s.(rows := s.rows[id := Applied(s.rows[id], Reopened(now))],
       histories := s.histories[id := Extended(s.histories[id], Reopened(now))])
  }

  lemma ReopenOk(w: World, s: Snap, id: string, now: int)
    requires Ok(w, s) && id in s.rows && s.rows[id].status == Failed
    ensures id in s.histories && Ok(w, Reopen(s, id, now))
  {
    EntryKeeps(s.rows, s.histories, id, Reopened(now));
    ExtendedRow(s.histories[id], Reopened(now));
    var r := RequestsOf(s.histories[id].entries);
    assert r + [] == r;
    hide Consistent, Stamped, Answers, RequestsOf, Applied;
  }

  // --------------------------------------------------------------- object

  class Outbox {
    const w: World
    var rows: Rows
    var ticks: nat
    var requests: nat
    ghost var histories: map<string, History>
    ghost var sent: seq<Request>

    ghost function State(): Snap
      reads this
    {
      Snap(rows, histories, sent, ticks)
    }

    ghost predicate Valid()
      reads this
    {
      Ok(w, State()) && |sent| == requests
    }

    constructor (w: World)
      ensures Valid() && State() == Snap(map[], map[], [], 0) && this.w == w
    {
      this.w, rows, ticks, requests, histories, sent := w, map[], 0, 0, map[], [];
    }

    method Now() returns (now: int)
      requires Ok(w, State())
      modifies this`ticks
      ensures Ok(w, State()) && State() == old(State()).(ticks := old(ticks) + 1) && now == w.clock(old(ticks))
    {
      hide Ok, Only;
      OnlyNow(w, State());
      ReadClock(w, State(), State());
      now := w.clock(ticks);
      ticks := ticks + 1;
    }

    /** INSERT OR IGNORE for one endpoint; `id` is the generator's next ID. */
    method EnqueueOne(id: string, alert: string, endpoint: string, now: int)
      requires Valid()
      modifies this`rows, this`histories
      ensures Valid()
      ensures State() == if Blocked(old(rows), id, alert, endpoint) then old(State())
                         else Enroll(old(State()), id, Delivery(alert, endpoint, Pending, 0, now))
    {
      hide Ok, HasRow;
      if !Blocked(rows, id, alert, endpoint) {
        EnrollOk(w, State(), id, alert, endpoint, now);
        rows := rows[id := Delivery(alert, endpoint, Pending, 0, now)];
        histories := histories[id := History(rows[id], [])];
      }
    }

    /** The statements of the transaction, up to the one that fails. */
    method EnqueueRows(alert: string, endpoints: seq<string>, ids: seq<string>, now: int, failsAt: Option<nat>)
      requires Valid() && |ids| == |endpoints|
      modifies this`rows, this`histories
      ensures Valid() && Grew(old(State()), State())
      ensures failsAt == None || failsAt.value >= |endpoints| ==>
                rows == EnqueueAll(old(rows), alert, endpoints, ids, now)
    {
      hide Ok, Blocked, EnqueueAll, Grew;
      ghost var s0, plan := State(), EnqueueAll(rows, alert, endpoints, ids, now);
      GrewNone(w, s0);
      assert endpoints[0..] == endpoints && ids[0..] == ids;
      for i := 0 to |endpoints|
        invariant Valid() && Grew(s0, State()) && plan == EnqueueAll(rows, alert, endpoints[i..], ids[i..], now)
      {
        EnqueueNext(rows, alert, endpoints, ids, now, i);
        if failsAt == Some(i) { return; }
        ghost var s := State();
        BlockedBy(rows, ids[i], alert, endpoints[i]);
        EnqueueOne(ids[i], alert, endpoints[i], now);
        if ids[i] !in s.rows { GrewNext(s0, s, ids[i], Delivery(alert, endpoints[i], Pending, 0, now)); }
      }
      EnqueueNone(rows, alert, now);
      assert endpoints[|endpoints|..] == [] && ids[|endpoints|..] == [];
    }

    /** One transaction for all endpoints; `failsAt` is the statement that fails, the commit included. */
    method Enqueue(alert: string, endpoints: seq<string>, ids: seq<string>, failsAt: Option<nat>) returns (ok: bool)
      requires Valid() && |ids| == |endpoints|
      modifies this`rows, this`histories, this`ticks
      ensures Valid()
      ensures Grew(old(State()).(ticks := if endpoints == [] then old(ticks) else old(ticks) + 1), State())
      ensures ok <==> endpoints == [] || failsAt == None || failsAt.value > |endpoints|
      ensures rows == if ok then EnqueueAll(old(rows), alert, endpoints, ids, w.clock(old(ticks))) else old(rows)
    {
      hide Ok, EnqueueAll, Grew;
      if endpoints == [] {
        GrewNone(w, State());
        EnqueueNone(rows, alert, w.clock(ticks));
        return true;
      }
      var now := Now();
      GrewNone(w, State());
      var before := rows;
      ghost var past := histories;
      EnqueueRows(alert, endpoints, ids, now, failsAt);
      ok := failsAt == None || failsAt.value > |endpoints|;
      if !ok { rows, histories := before, past; }
    }

    /** The first twenty due deliveries by due time and ID. */
    method DueDeliveries(now: int) returns (ids: seq<string>)
      ensures ids == Batch(rows, now)
      ensures forall i, j :: 0 <= i < j < |ids| ==>
                ids[i] != ids[j] && ids[i] in rows && ids[j] in rows && Before(rows, ids[i], ids[j])
      ensures forall id :: id in ids ==> id in rows && Due(rows[id], now)
      ensures |ids| <= 20 && (|ids| < 20 ==> forall id :: id in rows && Due(rows[id], now) ==> id in ids)
      ensures forall i, id :: 0 <= i < |ids| && id in rows && Due(rows[id], now) && id !in ids ==>
                ids[i] in rows && Before(rows, ids[i], id)
    {
      hide Due, Before, Taking, Take, First, Batch, DueSet;
      ids := [];
      var rest := DueSet(rows, now);
      TakingStarts(rows, rest);
      while |ids| < BATCH && rest != {}
        invariant rest <= rows.Keys && Taking(rows, DueSet(rows, now), ids, rest)
        invariant |ids| <= BATCH
        decreases |rest|
      {
        EarliestExists(rows, rest);
        var first :| first in rest && forall id :: id in rest && id != first ==> Before(rows, first, id);
        TakingNext(rows, DueSet(rows, now), ids, rest, first);
        ids, rest := ids + [first], rest - {first};
      }
      TakingEnds(rows, now, ids, rest);
    }

    /** Post the payload, then record the outcome for the row as it was loaded. */
    method DeliverOne(id: string, loaded: Delivery, ghost picked: nat) returns (ok: bool)
      requires Valid() && id in rows && rows[id] == loaded && picked < ticks && Due(loaded, w.clock(picked))
      modifies this`rows, this`ticks, this`requests, this`histories, this`sent
      ensures Valid() && id in old(histories) && State() == Send(w, old(State()), id, picked)
      ensures requests == old(requests) + 1 && ok == w.accepted(old(requests))
      ensures Measure(rows) < old(Measure(rows))
    {
      hide Ok, Measure, Backoff;
      SendOk(w, State(), id, picked);
      ghost var after := Send(w, State(), id, picked);
      SendEffect(w, State(), id, picked);
      hide Send, Due;
      var stamp := Now();
      ok := w.accepted(requests);
      requests := requests + 1;
      if ok {
        rows := rows[id := rows[id].(status := Delivered, attempts := rows[id].attempts + 1)];
      } else {
        var attempt := loaded.attempts + 1;
        var status := if attempt >= MAX_ATTEMPTS then Failed else Retrying;
        var now := Now();
        rows := rows[id := rows[id].(status := status, attempts := rows[id].attempts + 1,
            next := now + Backoff(attempt))];
      }
      histories, sent := after.histories, after.sent;
    }

    /** The requests for one batch, each with the row as it was loaded. */
    method DeliverBatch(ids: seq<string>, loaded: Rows, ghost picked: nat)
      requires Valid() && loaded == rows && picked < ticks
      requires forall i, j :: 0 <= i < j < |ids| ==> ids[i] != ids[j]
      requires forall id :: id in ids ==> id in rows && Due(rows[id], w.clock(picked))
      modifies this`rows, this`ticks, this`requests, this`histories, this`sent
      ensures Valid() && (forall id :: id in ids ==> id in old(histories))
      ensures State() == SendAll(w, old(State()), ids, picked)
    {
      hide Ok, Due, Measure, SendAll, Send;
      OkKeys(w, State());
      ghost var all := SendAll(w, State(), ids, picked);
      assert ids[0..] == ids;
      for i := 0 to |ids|
        invariant Valid() && rows.Keys == loaded.Keys == histories.Keys && picked < ticks
        invariant forall j :: i <= j < |ids| ==> ids[j] in rows && rows[ids[j]] == loaded[ids[j]]
        invariant all == SendAll(w, State(), ids[i..], picked)
      {
        SendAllNext(w, State(), ids, i, picked);
        SendFrame(w, State(), ids[i], picked);
        SendOther(w, State(), ids[i], picked);
        var _ := DeliverOne(ids[i], loaded[ids[i]], picked);
      }
      assert ids[|ids|..] == [];
      SendNone(w, State(), picked);
    }

    /** Deliver batch after batch until, at some reading of the clock, nothing is due. */
    method DeliverDue() returns (now: int)
      requires Valid()
      modifies this`rows, this`ticks, this`requests, this`histories, this`sent
      ensures Valid() && State() == Drain(w, old(State())) && Only(old(State()), State())
      ensures ticks > old(ticks) && now == w.clock(ticks - 1)
      ensures forall id :: id in rows ==> !Waits(rows[id], now)
      ensures forall id :: id in rows ==>
                (rows[id].status == Delivered <==> exists q: nat :: SentAndAccepted(w, sent, id, q))
      ensures w.clock(old(ticks)) <= now ==>
                forall id :: id in old(rows) && Waits(old(rows)[id], w.clock(old(ticks))) ==>
                  Requested(sent, |old(sent)|, id)
    {
      hide Ok, Due, Waits, Measure, Drain, Batch, SendAll, Only, SentAndAccepted, Requested;
      ghost var s0 := State();
      OnlyNow(w, s0);
      DrainEnds(w, s0, s0);
      ServedTells(w, s0, Drain(w, s0));
      while true
        invariant Valid() && Drain(w, s0) == Drain(w, State())
        decreases Measure(rows)
      {
        Round(w, State());
        DrainStep(w, State());
        ghost var picked := ticks;
        now := Now();
        var ids := DueDeliveries(now);
        if ids == [] { return; }
        DeliverBatch(ids, rows, picked);
      }
    }

    /** The operator's retry: only a failed delivery, once more. */
    method RetryNow(id: string) returns (found: bool, now: int)
      requires Valid()
      modifies this`rows, this`ticks, this`histories
      ensures Valid() && found == (id in old(rows) && old(rows)[id].status == Failed) && now == w.clock(old(ticks))
      ensures ticks == old(ticks) + 1 && sent == old(sent)
      ensures rows == if found then old(rows)[id := old(rows)[id].(status := Pending, next := now)] else old(rows)
    {
      hide Ok;
      now := Now();
      found := id in rows && rows[id].status == Failed;
      if found {
        ReopenOk(w, State(), id, now);
        histories := histories[id := Extended(histories[id], Reopened(now))];
        rows := rows[id := rows[id].(status := Pending, next := now)];
      }
    }
  }

  /** A batch in the making: `rest` are the due deliveries not taken yet. */
  ghost predicate Taking(rows: Rows, due: set<string>, ids: seq<string>, rest: set<string>) {
    && rest <= due <= rows.Keys && |ids| <= BATCH && ids + Take(rows, rest, BATCH - |ids|) == Take(rows, due, BATCH)
    && (forall id :: id in ids ==> id in due)
    && (forall id :: id in rest <==> id in due && id !in ids)
    && (forall i, j :: 0 <= i < j < |ids| ==> ids[i] != ids[j] && Before(rows, ids[i], ids[j]))
    && (forall i, id :: 0 <= i < |ids| && id in rest ==> Before(rows, ids[i], id))
  }

  lemma TakingStarts(rows: Rows, due: set<string>)
    requires due <= rows.Keys
    ensures Taking(rows, due, [], due)
  {
    assert [] + Take(rows, due, BATCH) == Take(rows, due, BATCH);
  }

  lemma TakingNext(rows: Rows, due: set<string>, ids: seq<string>, rest: set<string>, first: string)
    requires Taking(rows, due, ids, rest) && |ids| < BATCH && first in rest && rest <= rows.Keys
    requires forall id :: id in rest && id != first ==> Before(rows, first, id)
    ensures Taking(rows, due, ids + [first], rest - {first})
  {
    hide Take, Before, First;
    FirstUnique(rows, rest, first);
    TakeNext(rows, rest, first, BATCH - |ids|, ids);
    var next := ids + [first];
    forall i, j | 0 <= i < j < |next|
      ensures next[i] != next[j] && Before(rows, next[i], next[j])
    {
      assert next[j] == if j < |ids| then ids[j] else first;
    }
    forall i, id | 0 <= i < |next| && id in rest - {first}
      ensures Before(rows, next[i], id)
    {
      assert i < |ids| ==> next[i] == ids[i];
    }
  }

  lemma TakeNext(rows: Rows, rest: set<string>, first: string, n: nat, ids: seq<string>)
    requires rest <= rows.Keys && first in rest && first == First(rows, rest) && n > 0
    ensures ids + Take(rows, rest, n) == (ids + [first]) + Take(rows, rest - {first}, n - 1)
  {
    hide First;
    assert Take(rows, rest, n) == [first] + Take(rows, rest - {first}, n - 1);
  }

  lemma TakingEnds(rows: Rows, now: int, ids: seq<string>, rest: set<string>)
    requires Taking(rows, DueSet(rows, now), ids, rest) && (|ids| == BATCH || rest == {})
    ensures ids == Batch(rows, now)
    ensures forall i, j :: 0 <= i < j < |ids| ==>
              ids[i] != ids[j] && ids[i] in rows && ids[j] in rows && Before(rows, ids[i], ids[j])
    ensures forall id :: id in ids ==> id in rows && Due(rows[id], now)
    ensures |ids| < BATCH ==> forall id :: id in rows && Due(rows[id], now) ==> id in ids
    ensures forall i, id :: 0 <= i < |ids| && id in rows && Due(rows[id], now) && id !in ids ==>
              ids[i] in rows && Before(rows, ids[i], id)
  {
    TakeNone(rows, rest, BATCH - |ids|);
    hide Due, Before, Take;
    assert ids + [] == ids;
    assert forall id :: id in DueSet(rows, now) <==> id in rows && Due(rows[id], now);
    hide DueSet;
    assert forall id :: id in rest <==> id in DueSet(rows, now) && id !in ids;
  }

  lemma TakeNone(rows: Rows, rest: set<string>, n: nat)
    requires rest <= rows.Keys && (n == 0 || rest == {})
    ensures Take(rows, rest, n) == []
  {
  }

  lemma BlockedBy(rows: Rows, id: string, alert: string, endpoint: string)
    ensures id in rows ==> Blocked(rows, id, alert, endpoint)
  {
  }

  /** What the request does to the row and the history, and the readings it takes. */
  lemma SendEffect(w: World, s: Snap, id: string, picked: nat)
    requires id in s.rows && id in s.histories
    ensures var (after, ok) := (Send(w, s, id, picked), w.accepted(|s.sent|));
            && after.rows == s.rows[id := Attempted(s.rows[id], ok, w.clock(s.ticks + 1))]
            && after.ticks == s.ticks + (if ok then 1 else 2) && |after.sent| == |s.sent| + 1
  {
    hide Backoff;
  }

  lemma SendAllNext(w: World, s: Snap, ids: seq<string>, i: nat, picked: nat)
    requires i < |ids| && (forall id :: id in ids ==> id in s.rows && id in s.histories)
    ensures SendAll(w, s, ids[i..], picked) == SendAll(w, Send(w, s, ids[i], picked), ids[i + 1..], picked)
  {
    hide Send;
    SendFrame(w, s, ids[i], picked);
    assert ids[i..][0] == ids[i] && ids[i..][1..] == ids[i + 1..];
  }

  lemma SendNone(w: World, s: Snap, picked: nat)
    ensures SendAll(w, s, [], picked) == s
  {
  }

  lemma SendOther(w: World, s: Snap, id: string, picked: nat)
    requires id in s.rows && id in s.histories
    ensures forall other :: other in s.rows && other != id ==>
              other in Send(w, s, id, picked).rows && Send(w, s, id, picked).rows[other] == s.rows[other]
  {
    hide Applied;
  }

  /** What the end of a run of deliveries tells about each row. */
  /** A request is owed: the delivery is neither over nor put off. */
  predicate Waits(d: Delivery, now: int) {
    d.status != Delivered && d.status != Failed && now >= d.next
  }

  lemma DueIsWaiting()
    ensures forall d: Delivery, now :: Waits(d, now) <==> Due(d, now)
  {
  }

  lemma ServedTells(w: World, s: Snap, after: Snap)
    requires Served(w, s, after)
    ensures forall id :: id in after.rows ==>
              (after.rows[id].status == Delivered <==> exists q: nat :: SentAndAccepted(w, after.sent, id, q))
    ensures forall id :: id in after.rows ==> !Waits(after.rows[id], w.clock(after.ticks - 1))
    ensures w.clock(s.ticks) <= w.clock(after.ticks - 1) ==>
              forall id :: id in s.rows && Waits(s.rows[id], w.clock(s.ticks)) ==> Requested(after.sent, |s.sent|, id)
  {
    hide Ok, Only, Due, Requested, SentAndAccepted;
    forall id | id in after.rows
      ensures after.rows[id].status == Delivered <==> exists q: nat :: SentAndAccepted(w, after.sent, id, q)
    {
      DeliveredIff(w, after, id);
    }
    assert forall d: Delivery, now :: Waits(d, now) <==> Due(d, now) by { DueIsWaiting(); }
    hide Waits;
    if w.clock(s.ticks) <= w.clock(after.ticks - 1) {
      forall id | id in s.rows && Waits(s.rows[id], w.clock(s.ticks))
        ensures Requested(after.sent, |s.sent|, id)
      {
        DueIsRequested(w, s, after, id);
      }
    }
  }

  lemma OkKeys(w: World, s: Snap)
    requires Ok(w, s)
    ensures s.rows.Keys == s.histories.Keys
  {
    hide Sourced, Stamped, RowOf;
  }
}
