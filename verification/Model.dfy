/** The protocol-neutral event that sensors emit and the controller stores. */
module Model {
  import opened Text

  const SCHEMA_VERSION := 1

  datatype Evidence = Evidence(kind: string, contentType: string, filename: string, data: Str)

  /** `attributes` stands for both JSON attribute maps; addresses keep only their IP. */
  datatype Event = Event(
    id: Str,
    timestamp: Option<int>,
    schema: nat,
    sensor: string,
    session: string,
    sequence: nat,
    sourceIP: string,
    destinationIP: string,
    protocol: string,
    kind: string,
    outcome: string,
    attributes: string,
    evidence: seq<Evidence>)

  /** The dedupe key that the events table declares unique. */
  function Key(e: Event): (string, string, nat) {
    (e.sensor, e.session, e.sequence)
  }

  /** ASCII capitals become the small letters at the same place of the alphabet; everything else stays. */
  predicate IsLowerOf(r: string, s: string) {
    && |r| == |s|
    && forall i :: 0 <= i < |s| ==>
         if 'A' <= s[i] <= 'Z' then r[i] as int - 'a' as int == s[i] as int - 'A' as int else r[i] == s[i]
  }

  function Lower(s: string): (r: string)
    ensures IsLowerOf(r, s)
    ensures forall i :: 0 <= i < |r| ==> !('A' <= r[i] <= 'Z')
    ensures (forall i :: 0 <= i < |s| ==> !('A' <= s[i] <= 'Z')) ==> r == s
  {
    if s == [] then []
    else
      var c := if 'A' <= s[0] <= 'Z' then (s[0] as int + 32) as char else s[0];
      [c] + Lower(s[1..])
  }

  predicate Required(e: Event) {
    e.sensor != "" && e.session != "" && e.protocol != "" && e.kind != ""
  }

  /** Event.Normalize at time `now`, drawing `newId` if an ID is missing; None is its error. */
  function Normalize(e: Event, now: int, newId: Str, isAddr: string -> bool): Option<Event> {
    var n := e.(
      id := if e.id == "" then newId else e.id,
      timestamp := if e.timestamp == None then Some(now) else e.timestamp,
      schema := if e.schema == 0 then SCHEMA_VERSION else e.schema);
    if n.schema != SCHEMA_VERSION || !Required(n) then None
    else if n.sourceIP != "" && !isAddr(n.sourceIP) then None
    else if n.destinationIP != "" && !isAddr(n.destinationIP) then None
    else Some(n.(protocol := Lower(n.protocol)))
  }

  ghost predicate Normal(e: Event, isAddr: string -> bool) {
    && e.id != "" && e.timestamp.Some? && e.schema == SCHEMA_VERSION && Required(e)
    && (e.sourceIP != "" ==> isAddr(e.sourceIP))
    && (e.destinationIP != "" ==> isAddr(e.destinationIP))
    && Lower(e.protocol) == e.protocol
  }

  /** What Normalize asks of an event: a known schema, the four names, and addresses that are ones. */
  predicate Acceptable(e: Event, isAddr: string -> bool) {
    && e.schema <= 1
    && e.sensor != "" && e.session != "" && e.protocol != "" && e.kind != ""
    && (e.sourceIP == "" || isAddr(e.sourceIP)) && (e.destinationIP == "" || isAddr(e.destinationIP))
  }

  /** Normalize fills in a missing ID, date and schema and lowers the protocol; nothing else changes. */
  lemma NormalizeFills(e: Event, now: int, newId: Str, isAddr: string -> bool)
    ensures Normalize(e, now, newId, isAddr).Some? <==> Acceptable(e, isAddr)
    ensures Normalize(e, now, newId, isAddr).Some? ==>
              var n := Normalize(e, now, newId, isAddr).value;
              && (if e.id == "" then n.id == newId else n.id == e.id)
              && (if e.timestamp.None? then n.timestamp == Some(now) else n.timestamp == e.timestamp)
              && n.schema == 1 && (e.schema != 0 ==> n.schema == e.schema)
              && IsLowerOf(n.protocol, e.protocol)
              && n == e.(id := n.id, timestamp := n.timestamp, schema := n.schema, protocol := n.protocol)
  {
  }

  /** The controller's second Normalize leaves what the sensor emitted as it is. */
  lemma NormalizeOnce(e: Event, now: int, newId: Str, later: int, other: Str, isAddr: string -> bool)
    requires newId != ""
    ensures var n := Normalize(e, now, newId, isAddr);
            n.Some? ==> Normal(n.value, isAddr) && Normalize(n.value, later, other, isAddr) == n
  {
    var n := Normalize(e, now, newId, isAddr);
    if n.Some? { assert Lower(n.value.protocol) == n.value.protocol; }
  }
}
