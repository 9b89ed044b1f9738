/** One webhook delivery: attempts, backoff, manual retries, and what any history of them keeps. */
module Deliveries {

  datatype Status = Pending | Retrying | Failed | Delivered

  datatype Delivery = Delivery(alert: string, endpoint: string, status: Status, attempts: nat, next: int)

  const MAX_ATTEMPTS := 8

  predicate Live(d: Delivery) {
    d.status == Pending || d.status == Retrying
  }

  predicate Due(d: Delivery, now: int) {
    Live(d) && d.next <= now
  }

  function Pow2(n: nat): (p: nat)
    ensures p > 0
  {
    if n == 0 then 1 else 2 * Pow2(n - 1)
  }

  /** Seconds to wait after the given failed attempt. */
  function Backoff(attempt: nat): (s: nat) {
    var d := Pow2(if attempt < 10 then attempt else 10);
    if d > 3600 then 3600 else d
  }

  lemma {:induction false} Pow2Grows(n: nat, m: nat)
    requires n <= m
    ensures Pow2(n) <= Pow2(m)
    decreases m
  {
    if n < m { Pow2Grows(n, m - 1); }
  }

  /** The wait doubles up to 1024 seconds; the one-hour ceiling never applies. */
  lemma BackoffIsPow2(attempt: nat)
    ensures Backoff(attempt) == Pow2(if attempt < 10 then attempt else 10) <= 1024
  {
    Pow2Grows(if attempt < 10 then attempt else 10, 10);
    assert Pow2(5) == 32;
  }

  // ------------------------------------------------------- row transitions

  function Attempted(d: Delivery, ok: bool, now: int): Delivery {
    if ok then d.(status := Delivered, attempts := d.attempts + 1)
    else d.(status := if d.attempts + 1 >= MAX_ATTEMPTS then Failed else Retrying,
            attempts := d.attempts + 1, next := now + Backoff(d.attempts + 1))
  }

  function Retried(d: Delivery, now: int): Delivery {
    if d.status == Failed then d.(status := Pending, next := now) else d
  }

  /** Outcomes of the requests made for one delivery, in order, and its manual retries. */
  datatype Counts = Counts(outcomes: seq<bool>, manual: nat)

  function Grown(c: Counts, ok: bool): Counts {
    c.(outcomes := c.outcomes + [ok])
  }

  ghost predicate RowOk(d: Delivery, c: Counts) {
    && d.attempts == |c.outcomes|
    && (forall i :: 0 <= i < |c.outcomes| - 1 ==> !c.outcomes[i])
    && (d.status == Delivered <==> c.outcomes != [] && c.outcomes[|c.outcomes| - 1])
    && (Live(d) ==> if c.manual == 0 then d.attempts < MAX_ATTEMPTS else d.attempts == MAX_ATTEMPTS - 1 + c.manual)
    && (d.status == Failed ==> d.attempts == MAX_ATTEMPTS + c.manual)
    && (d.status == Delivered ==> d.attempts <= MAX_ATTEMPTS + c.manual)
  }

  /** The eighth failure fails a delivery, and after each manual retry the next failure does. */
  lemma AttemptKeepsRow(d: Delivery, c: Counts, ok: bool, now: int)
    requires RowOk(d, c) && Live(d)
    ensures RowOk(Attempted(d, ok, now), Grown(c, ok))
    ensures Attempted(d, ok, now).status == Failed <==> !ok && (|c.outcomes| + 1 == 8 || c.manual > 0)
    ensures Attempted(d, ok, now).status == Delivered <==> ok
    ensures Attempted(d, ok, now).alert == d.alert && Attempted(d, ok, now).endpoint == d.endpoint
  {
    hide Backoff;
  }

  /** After a failed attempt that leaves a delivery live, it is due again exactly when its doubled wait has passed. */
  lemma DueAfterBackoff(d: Delivery, now: int, later: int)
    ensures var after := Attempted(d, false, now);
            Due(after, later) <==> d.attempts + 1 < MAX_ATTEMPTS && later - now >= Pow2(d.attempts + 1)
  {
    if d.attempts + 1 < MAX_ATTEMPTS { BackoffIsPow2(d.attempts + 1); }
  }

  /** The waits in seconds after the first to the seventh failure; the eighth is final. */
  lemma WaitsAre(d: Delivery, now: int, later: int)
    ensures var after := Attempted(d, false, now);
            if d.attempts >= 7 then after.status == Failed
            else
              && after.status == Retrying
              && (Due(after, later) <==> later >= now + [2, 4, 8, 16, 32, 64, 128][d.attempts])
  {
    assert Pow2(1) == 2 && Pow2(2) == 4 && Pow2(3) == 8 && Pow2(4) == 16 && Pow2(5) == 32 && Pow2(6) == 64;
    assert Pow2(7) == 128;
  }

  lemma RetryKeepsRow(d: Delivery, c: Counts, now: int)
    requires RowOk(d, c)
    ensures Retried(d, now) == if d.status == Failed then d.(status := Pending, next := now) else d
    ensures RowOk(Retried(d, now), if d.status == Failed then c.(manual := c.manual + 1) else c)
  {
  }

  // --------------------------------------------------- one delivery's history

  /**
   What happens to a delivery: a request that is accepted or refused, or a manual retry. `picked` is
   the clock at the query that selected the delivery, `at` the clock after the refusal.
   */
  datatype Entry = Accepted(picked: int) | Refused(picked: int, at: int) | Reopened(at: int)

  function Applied(d: Delivery, e: Entry): Delivery {
    match e
    case Accepted(picked) => Attempted(d, true, picked)
    case Refused(_, at) => Attempted(d, false, at)
    case Reopened(at) => Retried(d, at)
  }

  /** A request is made for a delivery that was due when it was selected, a manual retry for a failed one. */
  predicate May(d: Delivery, e: Entry) {
    if e.Reopened? then d.status == Failed else Due(d, e.picked)
  }

  function ButLast(entries: seq<Entry>): seq<Entry>
    requires entries != []
  {
    entries[..|entries| - 1]
  }

  function Last(entries: seq<Entry>): Entry
    requires entries != []
  {
    entries[|entries| - 1]
  }

  /** The row that a history leaves. */
  function Row(start: Delivery, entries: seq<Entry>): Delivery {
    if entries == [] then start else Applied(Row(start, ButLast(entries)), Last(entries))
  }

  predicate Sound(start: Delivery, entries: seq<Entry>) {
    if entries == [] then start.status == Pending && start.attempts == 0
    else Sound(start, ButLast(entries)) && May(Row(start, ButLast(entries)), Last(entries))
  }

  function CountsOf(entries: seq<Entry>): Counts {
    if entries == [] then Counts([], 0)
    else
      var c := CountsOf(ButLast(entries));
      match Last(entries)
      case Reopened(_) => c.(manual := c.manual + 1)
      case Accepted(_) => Grown(c, true)
      case Refused(_, _) => Grown(c, false)
  }

  /** The requests of a history. */
  function RequestsOf(entries: seq<Entry>): (r: seq<Entry>) {
    if entries == [] then [] else RequestsOf(ButLast(entries)) + if Last(entries).Reopened? then [] else [Last(entries)]
  }

  /** Rows and counts agree after every history: see RowOk. */
  lemma {:induction false} RowCounts(start: Delivery, entries: seq<Entry>)
    requires Sound(start, entries)
    ensures RowOk(Row(start, entries), CountsOf(entries))
  {
    if entries != [] {
      var before, e := ButLast(entries), Last(entries);
      RowCounts(start, before);
      var d, c := Row(start, before), CountsOf(before);
      assert May(d, e);
      if e.Reopened? {
        RetryKeepsRow(d, c, e.at);
      } else {
        AttemptKeepsRow(d, c, e.Accepted?, if e.Accepted? then e.picked else e.at);
      }
      hide RowOk, Attempted, Retried;
    }
  }

  lemma {:induction false} CountsAreRequests(entries: seq<Entry>)
    ensures |CountsOf(entries).outcomes| == |RequestsOf(entries)|
    ensures forall k :: 0 <= k < |RequestsOf(entries)| ==>
              !RequestsOf(entries)[k].Reopened? && CountsOf(entries).outcomes[k] == RequestsOf(entries)[k].Accepted?
  {
    if entries != [] { CountsAreRequests(ButLast(entries)); }
  }

  /** A delivery is delivered exactly when one of its requests was accepted. */
  lemma DeliveredIfAccepted(start: Delivery, entries: seq<Entry>)
    requires Sound(start, entries)
    ensures Row(start, entries).status == Delivered <==> exists e :: e in RequestsOf(entries) && e.Accepted?
    ensures Row(start, entries).attempts == |RequestsOf(entries)|
  {
    RowCounts(start, entries);
    CountsAreRequests(entries);
    hide Row, Sound, RequestsOf, CountsOf;
    var (r, outcomes) := (RequestsOf(entries), CountsOf(entries).outcomes);
    assert forall k :: 0 <= k < |r| ==> r[k] in r;
  }

  /** Request k, counting from 0, came after the k-th refusal and, before the eighth, after its doubled wait. */
  predicate Waited(r: seq<Entry>, k: nat)
    requires 0 < k < |r|
  {
    r[k - 1].Refused? && !r[k].Reopened? && (k < MAX_ATTEMPTS ==> r[k].picked >= r[k - 1].at + Pow2(k))
  }

  ghost predicate Spaced(r: seq<Entry>) {
    forall k :: 0 < k < |r| ==> Waited(r, k)
  }

  /** When the row that `r` led to may be requested next. */
  predicate NextIsWait(start: Delivery, r: seq<Entry>, d: Delivery) {
    && d.attempts == |r|
    && (Live(d) && r == [] ==> d.next == start.next)
    && (d.status != Delivered && r != [] ==> r[|r| - 1].Refused?)
    && (Live(d) && 0 < d.attempts < MAX_ATTEMPTS ==> d.next == r[|r| - 1].at + Pow2(d.attempts))
    && (r != [] ==> !r[0].Reopened? && r[0].picked >= start.next)
  }

  lemma RequestWaits(start: Delivery, r: seq<Entry>, d: Delivery, c: Counts, e: Entry)
    requires Spaced(r) && NextIsWait(start, r, d) && RowOk(d, c) && May(d, e)
    ensures var next := r + if e.Reopened? then [] else [e];
            Spaced(next) && NextIsWait(start, next, Applied(d, e))
  {
    var next := r + if e.Reopened? then [] else [e];
    if d.attempts + 1 < MAX_ATTEMPTS { BackoffIsPow2(d.attempts + 1); }
    hide Pow2, Backoff;
    forall k | 0 < k < |next|
      ensures Waited(next, k)
    {
      assert k < |r| ==> Waited(r, k);
    }
  }

  /**
   Over every history no request comes before its time, and from the eighth refusal on each
   request takes a manual retry.
   */
  lemma {:induction false} RequestsAreSpaced(start: Delivery, entries: seq<Entry>)
    requires Sound(start, entries)
    ensures var r := RequestsOf(entries);
            && Spaced(r) && NextIsWait(start, r, Row(start, entries))
            && |r| <= MAX_ATTEMPTS + CountsOf(entries).manual
  {
    RowCounts(start, entries);
    if entries != [] {
      var before := ButLast(entries);
      RequestsAreSpaced(start, before);
      RowCounts(start, before);
      RequestWaits(start, RequestsOf(before), Row(start, before), CountsOf(before), Last(entries));
      hide Spaced, RowOk, May, Applied;
    }
  }
}
