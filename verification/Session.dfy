/** A sensor session: numbered events and a bounded transcript. */
module Session {
  import opened Text
  import opened Model

  /** The range of Go's uint64. */
  const WRAP := 0x1_0000_0000_0000_0000

  /** sequence++ on a uint64. */
  function NextSequence(n: nat): (m: nat)
    requires n < WRAP
    ensures m < WRAP
  {
    if n + 1 == WRAP then 0 else n + 1
  }

  /** The events one session emitted, in order. */
  ghost predicate IsLog(log: seq<Event>, sensor: string, session: string) {
    && (forall e :: e in log ==> e.sensor == sensor && e.session == session)
    && (forall i, j :: 0 <= i < j < |log| ==> log[i].sequence < log[j].sequence)
  }

  /** Sessions with distinct IDs never share a (sensor, session, sequence) key, nor does one repeat its own. */
  lemma KeysUnique(logs: seq<seq<Event>>, sensors: seq<string>, sessions: seq<string>, a: nat, i: nat, b: nat, j: nat)
    requires |logs| == |sensors| == |sessions|
    requires forall k :: 0 <= k < |logs| ==> IsLog(logs[k], sensors[k], sessions[k])
    requires forall k, l :: 0 <= k < l < |logs| ==> sessions[k] != sessions[l]
    requires a < |logs| && b < |logs| && i < |logs[a]| && j < |logs[b]|
    ensures Key(logs[a][i]) == Key(logs[b][j]) <==> a == b && i == j
  {
    assert logs[a][i] in logs[a] && logs[b][j] in logs[b];
    if a == b {
      assert IsLog(logs[a], sensors[a], sessions[a]);
    } else {
      assert sessions[a] != sessions[b];
    }
  }

  class Session {
    const sensor: string
    const id: string
    const maxTranscript: int
    var sequence: nat
    var transcript: int
    ghost var calls: nat
    ghost var log: seq<Event>

    ghost predicate Valid()
      reads this
    {
      && sequence < WRAP
      && (calls < WRAP ==> sequence == calls && IsLog(log, sensor, id) && forall e :: e in log ==> e.sequence <= calls)
    }

    constructor (sensor: string, id: string, maxTranscript: int)
      ensures Valid() && calls == 0 && log == [] && transcript == 0
      ensures this.sensor == sensor && this.id == id && this.maxTranscript == maxTranscript
    {
      this.sensor, this.id, this.maxTranscript := sensor, id, maxTranscript;
      sequence, transcript, calls, log := 0, 0, 0, [];
    }

    /** None is the error of Normalize; the number is used up either way. */
    method Emit(draft: Event, now: int, newId: Str, isAddr: string -> bool) returns (e: Option<Event>)
      requires Valid() && newId != ""
      modifies this
      ensures Valid() && calls == old(calls) + 1 && transcript == old(transcript)
      ensures e == Normalize(draft.(id := "", timestamp := None, schema := 0, sensor := sensor, session := id,
                sequence := NextSequence(old(sequence))), now, newId, isAddr)
      ensures e.Some? <==> Acceptable(draft.(schema := 0, sensor := sensor, session := id), isAddr)
      // The event is dated and numbered now, under this session; the rest is the draft's.
      ensures e.Some? ==>
                && e.value.timestamp == Some(now) && e.value.schema == 1
                && e.value.sensor == sensor && e.value.session == id && e.value.sequence == sequence
                && e.value.kind == draft.kind && e.value.outcome == draft.outcome
                && e.value.attributes == draft.attributes && e.value.evidence == draft.evidence
                && e.value.sourceIP == draft.sourceIP && e.value.destinationIP == draft.destinationIP
                && IsLowerOf(e.value.protocol, draft.protocol)
      ensures sequence == (old(sequence) + 1) % 0x1_0000_0000_0000_0000
      ensures e == None ==> log == old(log)
      ensures e.Some? ==> log == old(log) + [e.value] && e.value.id == newId && Normal(e.value, isAddr)
    {
      sequence := NextSequence(sequence);
      calls := calls + 1;
      var event := draft.(id := "", timestamp := None, schema := 0, sensor := sensor, session := id,
          sequence := sequence);
      NormalizeOnce(event, now, newId, now, newId, isAddr);
      NormalizeFills(event, now, newId, isAddr);
      e := Normalize(event, now, newId, isAddr);
      if e.Some? { log := log + [e.value]; }
    }

    method Transcript(data: string) returns (kept: string)
      modifies this`transcript
      ensures kept == Kept(maxTranscript, old(transcript), data)
      ensures transcript == old(transcript) + |kept|
    {
      var left := maxTranscript - transcript;
      if left <= 0 { return []; }
      kept := if |data| > left then data[..left] else data;
      transcript := transcript + |kept|;
    }
  }

  function Kept(max: int, used: int, data: string): (kept: string)
    ensures |kept| <= |data|
  {
    var left := max - used;
    if left <= 0 then [] else if |data| > left then data[..left] else data
  }

  function Concat(chunks: seq<string>): string {
    if chunks == [] then [] else chunks[0] + Concat(chunks[1..])
  }

  function Transcripts(max: int, used: int, chunks: seq<string>): seq<string>
    decreases |chunks|
  {
    if chunks == [] then []
    else
      var kept := Kept(max, used, chunks[0]);
      [kept] + Transcripts(max, used + |kept|, chunks[1..])
  }

  /** All kept chunks together are exactly the first `max` bytes of everything offered. */
  lemma {:induction false} TranscriptIsPrefix(max: int, used: int, chunks: seq<string>)
    requires 0 <= used <= max
    ensures var all, kept := Concat(chunks), Concat(Transcripts(max, used, chunks));
            kept == if |all| <= max - used then all else all[..max - used]
    decreases |chunks|
  {
    if chunks != [] {
      var kept := Kept(max, used, chunks[0]);
      var more := Transcripts(max, used + |kept|, chunks[1..]);
      assert Transcripts(max, used, chunks)[0] == kept && Transcripts(max, used, chunks)[1..] == more;
      assert Concat(Transcripts(max, used, chunks)) == kept + Concat(more);
      assert Concat(chunks) == chunks[0] + Concat(chunks[1..]);
      hide Concat, Transcripts;
      TranscriptIsPrefix(max, used + |kept|, chunks[1..]);
      PrefixJoin(chunks[0], Concat(chunks[1..]), max - used);
    }
  }

  lemma PrefixJoin(a: string, b: string, left: nat)
    ensures |a| <= left && |a + b| > left ==> (a + b)[..left] == a + b[..left - |a|]
    ensures |a| > left ==> (a + b)[..left] == a[..left]
    ensures |a| == left ==> (a + b)[..left] == a && a + [] == a
  {
  }
}
