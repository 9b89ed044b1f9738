/** What Insert keeps, whatever fails and whenever the process dies. */
module EventLaws {
  import opened Text
  import opened Model
  import opened EventStore
  import Paths

  /** Every evidence row belongs to a stored event and its file exists. */
  ghost predicate Backed(db: Db) {
    forall r :: r in db.tables.evidence ==> r.event in db.tables.events && r.path in db.files
  }

  /** Every file is named by an evidence row. */
  ghost predicate NoStrays(db: Db) {
    forall p :: p in db.files ==> exists r :: r in db.tables.evidence && r.path == p
  }

  /** The fault leaves a file behind: a partial write, or a death with a file begun and no commit. */
  predicate Litters(db: Db, e: Event, ids: seq<Str>, fault: Fault) {
    && !Taken(db.tables.events, e)
    && fault.AtEvidence? && fault.k < |ids|
    && (fault.what == Dies || (fault.what.WriteFails? && fault.what.left.Some?)
        || (fault.what.DiesWriting? && (fault.what.left.Some? || fault.k > 0)))
  }

  lemma RowPaths(env: Env, e: Event, ids: seq<Str>)
    requires |ids| == |e.evidence|
    ensures forall p :: p in FilesUpTo(env, e, ids, |ids|) <==> exists r :: r in RowsFor(env, e, ids) && r.path == p
  {
    hide PathFor;
    FilesKeys(env, e, ids, |ids|);
    var rows := RowsFor(env, e, ids);
    forall p | p in FilesUpTo(env, e, ids, |ids|)
      ensures exists r :: r in rows && r.path == p
    {
      var i :| 0 <= i < |ids| && p == PathFor(env, e.evidence[i], ids[i]);
      assert rows[i] in rows && rows[i].path == p;
    }
  }

  /** No committed row is ever without its file, even when the process dies mid-insert. */
  lemma InsertKeepsBacked(env: Env, db: Db, e: Event, ids: seq<Str>, fault: Fault)
    requires Backed(db) && FreshPaths(env, db.files, e, ids)
    ensures Backed(InsertStep(env, db, e, ids, fault).0)
  {
    InsertKeepsFiles(env, db, e, ids, fault);
    InsertedFiles(env, db, e, ids, fault);
    InsertTables(env, db, e, ids, fault);
    RowPaths(env, e, ids);
    hide InsertStep, FreshPaths, FilesUpTo, SensorUpsert;
  }

  /** Cleanup is complete except after a partial write or a death with a file begun. */
  lemma InsertKeepsNoStrays(env: Env, db: Db, e: Event, ids: seq<Str>, fault: Fault)
    requires Backed(db) && NoStrays(db) && FreshPaths(env, db.files, e, ids)
    ensures NoStrays(InsertStep(env, db, e, ids, fault).0) <==> !Litters(db, e, ids, fault)
  {
    InsertedFiles(env, db, e, ids, fault);
    InsertTables(env, db, e, ids, fault);
    if Litters(db, e, ids, fault) { LitterStays(env, db, e, ids, fault); } else { CleanedUp(env, db, e, ids, fault); }
    LittersNotInserted(env, db, e, ids, fault);
    hide InsertStep, Litters, Backed, FreshPaths, FilesUpTo, RowsFor, NoStrays, SensorUpsert;
    var (after, r) := InsertStep(env, db, e, ids, fault);
    if r == Inserted { NewRowsNameFiles(env, db, after, e, ids); }
  }

  lemma LittersNotInserted(env: Env, db: Db, e: Event, ids: seq<Str>, fault: Fault)
    requires |ids| == |e.evidence|
    ensures Litters(db, e, ids, fault) ==> InsertStep(env, db, e, ids, fault).1 != Inserted
  {
    hide PathFor, Taken, FilesUpTo, WithEvent;
  }

  /** A failure that leaves nothing behind. */
  lemma CleanedUp(env: Env, db: Db, e: Event, ids: seq<Str>, fault: Fault)
    requires |ids| == |e.evidence| && !Litters(db, e, ids, fault)
    ensures var (after, r) := InsertStep(env, db, e, ids, fault);
            r != Inserted ==> after == db
  {
    assert db.files + map[] == db.files;
    if fault.AtEvidence? && fault.k == 0 && fault.k < |ids| { assert FilesUpTo(env, e, ids, 0) == map[]; }
    hide PathFor, Taken, FilesUpTo, WithEvent;
  }

  lemma NewRowsNameFiles(env: Env, db: Db, after: Db, e: Event, ids: seq<Str>)
    requires NoStrays(db) && |ids| == |e.evidence|
    requires after.tables.evidence == db.tables.evidence + RowsFor(env, e, ids)
    requires after.files == db.files + FilesUpTo(env, e, ids, |ids|)
    ensures NoStrays(after)
  {
    RowPaths(env, e, ids);
    hide FilesUpTo, RowFor;
    var rows := RowsFor(env, e, ids);
    forall p | p in after.files
      ensures exists r :: r in after.tables.evidence && r.path == p
    {
      if p in FilesUpTo(env, e, ids, |ids|) {
        var r :| r in rows && r.path == p;
        assert r in after.tables.evidence;
      } else {
        var r :| r in db.tables.evidence && r.path == p;
        assert r in after.tables.evidence;
      }
    }
  }

  lemma LitterStays(env: Env, db: Db, e: Event, ids: seq<Str>, fault: Fault)
    requires Backed(db) && FreshPaths(env, db.files, e, ids) && Litters(db, e, ids, fault)
    ensures !NoStrays(InsertStep(env, db, e, ids, fault).0)
  {
    hide PathFor, Taken;
    var after := InsertStep(env, db, e, ids, fault).0;
    var k := if fault.what == DiesWriting(None) then fault.k - 1 else fault.k;
    var p := PathFor(env, e.evidence[k], ids[k]);
    FilesKeys(env, e, ids, fault.k);
    FilesKeys(env, e, ids, fault.k + 1);
    assert p in after.files && p !in db.files;
    assert after.tables == db.tables;
  }

  /** The table's UNIQUE(sensor_id, session_id, sequence). */
  ghost predicate KeysUnique(events: map<Str, Event>) {
    forall i, j :: i in events && j in events && Key(events[i]) == Key(events[j]) ==> i == j
  }

  lemma InsertKeepsKeysUnique(env: Env, db: Db, e: Event, ids: seq<Str>, fault: Fault)
    requires KeysUnique(db.tables.events) && |ids| == |e.evidence|
    ensures KeysUnique(InsertStep(env, db, e, ids, fault).0.tables.events)
  {
    hide InsertStep;
    InsertEffect(env, db, e, ids, fault);
    assert Key(e.(evidence := [])) == Key(e);
  }

  lemma InsertEffect(env: Env, db: Db, e: Event, ids: seq<Str>, fault: Fault)
    requires |ids| == |e.evidence|
    ensures var (after, r) := InsertStep(env, db, e, ids, fault);
            && after.tables.events == (if r == Inserted then db.tables.events[e.id := e.(evidence := [])]
              else db.tables.events)
            && (r == Inserted ==> !Taken(db.tables.events, e))
            && (r == Duplicate ==> Taken(db.tables.events, e))
            && r != Invalid
  {
    hide Taken, FilesUpTo, RowsFor, SensorUpsert;
  }

  /** After an accepted insert the event's own row is stored unless another row held its ID or its key. */
  lemma StoredIff(env: Env, db: Db, e: Event, ids: seq<Str>, fault: Fault)
    requires |ids| == |e.evidence|
    ensures var (after, r) := InsertStep(env, db, e, ids, fault);
            r == Inserted || r == Duplicate ==>
              ((e.id in after.tables.events && after.tables.events[e.id] == e.(evidence := []))
               <==> (if e.id in db.tables.events then db.tables.events[e.id] == e.(evidence := [])
                     else forall id :: id in db.tables.events ==> Key(db.tables.events[id]) != Key(e)))
  {
  }

  /** An accepted event whose key another ID holds is dropped, with its evidence. */
  lemma SharedKeyDropsEvent(env: Env)
    ensures var a := Event("a", Some(0), 1, "ssh", "s1", 1, "", "", "ssh", "command", "", "", []);
            var b := a.(id := "b", evidence := [Evidence("transcript", "", "", "x")]);
            var db := InsertStep(env, Db(Tables(map[], {}, [], map[]), map[]), a, [], NoFault).0;
            var (after, r) := InsertStep(env, db, b, ["id"], NoFault);
            r == Duplicate && "b" !in after.tables.events && after.tables.evidence == []
  {
    var a := Event("a", Some(0), 1, "ssh", "s1", 1, "", "", "ssh", "command", "", "", []);
    var db := InsertStep(env, Db(Tables(map[], {}, [], map[]), map[]), a, [], NoFault).0;
    assert Key(db.tables.events["a"]) == Key(a);
  }

  // ------------------------------------------------------ evidence, once

  function EvidenceOf(rows: seq<EvidenceRow>, id: Str): (mine: seq<EvidenceRow>)
    ensures forall r :: r in mine <==> r in rows && r.event == id
  {
    if rows == [] then []
    else if rows[0].event == id then [rows[0]] + EvidenceOf(rows[1..], id)
    else EvidenceOf(rows[1..], id)
  }

  lemma {:induction false} EvidenceOfConcat(a: seq<EvidenceRow>, b: seq<EvidenceRow>, id: Str)
    ensures EvidenceOf(a + b, id) == EvidenceOf(a, id) + EvidenceOf(b, id)
  {
    if a == [] {
      assert a + b == b;
    } else {
      assert (a + b)[1..] == a[1..] + b;
      EvidenceOfConcat(a[1..], b, id);
    }
  }

  lemma {:induction false} EvidenceOfAll(a: seq<EvidenceRow>, id: Str)
    requires forall r :: r in a ==> r.event == id
    ensures EvidenceOf(a, id) == a
  {
    if a != [] { EvidenceOfAll(a[1..], id); assert a == [a[0]] + a[1..]; }
  }

  lemma {:induction false} EvidenceOfNone(a: seq<EvidenceRow>, id: Str)
    requires forall r :: r in a ==> r.event != id
    ensures EvidenceOf(a, id) == []
  {
    if a != [] { EvidenceOfNone(a[1..], id); }
  }

  predicate IsSeparator(c: char) {
    c == '/' || c == '\\'
  }

  predicate AllSeparators(s: string) {
    forall i :: 0 <= i < |s| ==> IsSeparator(s[i])
  }

  predicate NoSeparator(s: string) {
    forall i :: 0 <= i < |s| ==> !IsSeparator(s[i])
  }

  /** name[i..j] is the last run of bytes other than slash and backslash. */
  predicate LastRun(name: string, i: nat, j: nat) {
    && i < j <= |name| && NoSeparator(name[i..j]) && AllSeparators(name[j..])
    && (i == 0 || IsSeparator(name[i - 1]))
  }

  /** What is kept of a submitted file name: its last element; a name of slashes alone becomes one slash. */
  ghost predicate IsStoredName(stored: string, name: string) {
    if name == "" then stored == ""
    else if AllSeparators(name) then stored == "/"
    else exists i: nat, j: nat :: LastRun(name, i, j) && stored == name[i..j]
  }

  /** The row says of the item what the event and the item say, and names the file of the item's hash and its own ID. */
  ghost predicate Records(env: Env, row: EvidenceRow, e: Event, item: Evidence) {
    && row.event == e.id && row.createdAt == e.timestamp
    && row.kind == item.kind && row.contentType == item.contentType && IsStoredName(row.filename, item.filename)
    && row.hash == env.hash(item.data) && row.size == |item.data|
    && row.path == row.hash[..2] + "/" + row.hash + "-" + row.id + ".age"
  }

  /** The event's evidence rows are one per evidence item, in order, and nothing else. */
  ghost predicate EvidenceComplete(env: Env, t: Tables, e: Event) {
    var mine := EvidenceOf(t.evidence, e.id);
    |mine| == |e.evidence| && forall i :: 0 <= i < |mine| ==> Records(env, mine[i], e, e.evidence[i])
  }

  lemma RowRecords(env: Env, e: Event, item: Evidence, id: Str)
    ensures Records(env, RowFor(env, e, item, id), e, item)
  {
    StoredNameIsLast(item.filename);
    hide StoredName, IsStoredName;
  }

  /** An insert writes evidence rows for a newly stored event only, and all of them. */
  lemma InsertEvidence(env: Env, db: Db, e: Event, ids: seq<Str>, fault: Fault)
    requires Backed(db) && |ids| == |e.evidence|
    ensures var (after, r) := InsertStep(env, db, e, ids, fault);
            && (r == Inserted ==> e.id !in db.tables.events && EvidenceComplete(env, after.tables, e))
            && (r != Inserted ==> after.tables == db.tables)
            && forall id: Str | id != e.id ::
                 EvidenceOf(after.tables.evidence, id) == EvidenceOf(db.tables.evidence, id)
  {
    InsertEvidenceRows(env, db, e, ids, fault);
    hide InsertStep, RowFor, SensorUpsert, RowsFor, Records;
    var (after, r) := InsertStep(env, db, e, ids, fault);
    if r == Inserted {
      var rows := RowsFor(env, e, ids);
      forall i | 0 <= i < |rows|
        ensures Records(env, rows[i], e, e.evidence[i])
      {
        RowRecords(env, e, e.evidence[i], ids[i]);
      }
      forall id: Str
        ensures EvidenceOf(after.tables.evidence, id)
                  == EvidenceOf(db.tables.evidence, id) + if id == e.id then rows else []
      {
        EvidenceOfConcat(db.tables.evidence, rows, id);
        if id == e.id { EvidenceOfAll(rows, id); } else { EvidenceOfNone(rows, id); }
      }
      EvidenceOfNone(db.tables.evidence, e.id);
    }
  }

  lemma InsertEvidenceRows(env: Env, db: Db, e: Event, ids: seq<Str>, fault: Fault)
    requires |ids| == |e.evidence|
    ensures var (after, r) := InsertStep(env, db, e, ids, fault);
            && (r == Inserted ==>
                  e.id !in db.tables.events && after.tables.evidence == db.tables.evidence + RowsFor(env, e, ids))
            && (r != Inserted ==> after.tables == db.tables)
    ensures forall i :: 0 <= i < |ids| ==>
              RowFor(env, e, e.evidence[i], ids[i]).event == e.id && RowFor(env, e, e.evidence[i], ids[i]).id == ids[i]
  {
    hide PathFor, SensorUpsert, FilesUpTo, RowsFor;
  }

  // ----------------------------------------------------- what the files hold

  /** Each row's file holds the sealed bytes of its evidence item. */
  ghost predicate EvidenceHeld(env: Env, db: Db, e: Event) {
    var mine := EvidenceOf(db.tables.evidence, e.id);
    |mine| == |e.evidence| && forall i :: 0 <= i < |mine| ==>
        Holds(db.files, mine[i].path, env.seal(e.evidence[i].data))
  }

  predicate Holds(files: Files, path: string, body: Str) {
    path in files && files[path] == body
  }

  /** No file is lost or overwritten. */
  ghost predicate KeepsFiles(a: Files, b: Files) {
    forall p :: p in a ==> Holds(b, p, a[p])
  }

  lemma {:induction false} FilesHold(env: Env, e: Event, ids: seq<Str>, k: nat)
    requires k <= |ids| == |e.evidence|
    requires forall i, j :: 0 <= i < j < |ids| ==>
               PathFor(env, e.evidence[i], ids[i]) != PathFor(env, e.evidence[j], ids[j])
    ensures forall i :: 0 <= i < k ==>
              Holds(FilesUpTo(env, e, ids, k), PathFor(env, e.evidence[i], ids[i]), env.seal(e.evidence[i].data))
  {
    hide PathFor;
    if k > 0 { FilesHold(env, e, ids, k - 1); }
  }

  /** Whatever fails, an insert leaves the contents of every existing file alone. */
  lemma InsertKeepsFiles(env: Env, db: Db, e: Event, ids: seq<Str>, fault: Fault)
    requires FreshPaths(env, db.files, e, ids)
    ensures KeepsFiles(db.files, InsertStep(env, db, e, ids, fault).0.files)
  {
    forall k: nat | k <= |ids| { FilesKeys(env, e, ids, k); }
    hide PathFor, Taken, WithEvent, RowsFor, FilesUpTo;
  }

  /** A first commit leaves each evidence item's sealed bytes in the file that its row names. */
  lemma InsertHoldsEvidence(env: Env, db: Db, e: Event, ids: seq<Str>, fault: Fault)
    requires Backed(db) && FreshPaths(env, db.files, e, ids)
    ensures var (after, r) := InsertStep(env, db, e, ids, fault);
            r == Inserted ==> EvidenceHeld(env, after, e)
  {
    InsertedFiles(env, db, e, ids, fault);
    InsertEvidenceRows(env, db, e, ids, fault);
    hide InsertStep, EvidenceHeld;
    var (after, r) := InsertStep(env, db, e, ids, fault);
    if r == Inserted { NewRowsHold(env, db, after, e, ids); }
  }

  lemma InsertedFiles(env: Env, db: Db, e: Event, ids: seq<Str>, fault: Fault)
    requires |ids| == |e.evidence|
    ensures var (after, r) := InsertStep(env, db, e, ids, fault);
            r == Inserted ==> after.files == db.files + FilesUpTo(env, e, ids, |ids|)
  {
    hide PathFor, Taken, WithEvent, RowsFor, FilesUpTo;
  }

  lemma NewRowsHold(env: Env, db: Db, after: Db, e: Event, ids: seq<Str>)
    requires Backed(db) && FreshPaths(env, db.files, e, ids) && e.id !in db.tables.events
    requires after.tables.evidence == db.tables.evidence + RowsFor(env, e, ids)
    requires after.files == db.files + FilesUpTo(env, e, ids, |ids|)
    ensures EvidenceHeld(env, after, e)
  {
    NewRows(env, db, e, ids);
    FilesHold(env, e, ids, |ids|);
    hide PathFor, EvidenceOf, FilesUpTo, Backed;
    var rows := RowsFor(env, e, ids);
    forall i | 0 <= i < |rows|
      ensures Holds(after.files, rows[i].path, env.seal(e.evidence[i].data))
    {
      assert rows[i].path == PathFor(env, e.evidence[i], ids[i]);
      assert Holds(FilesUpTo(env, e, ids, |ids|), rows[i].path, env.seal(e.evidence[i].data));
    }
  }

  lemma NewRows(env: Env, db: Db, e: Event, ids: seq<Str>)
    requires Backed(db) && |ids| == |e.evidence| && e.id !in db.tables.events
    ensures EvidenceOf(db.tables.evidence + RowsFor(env, e, ids), e.id) == RowsFor(env, e, ids)
  {
    hide PathFor, StoredName;
    var rows := RowsFor(env, e, ids);
    EvidenceOfConcat(db.tables.evidence, rows, e.id);
    EvidenceOfNone(db.tables.evidence, e.id);
    EvidenceOfAll(rows, e.id);
    assert [] + rows == rows;
  }

  // ------------------------------------------------------ index and sensors

  /** Every event is indexed, and its sensor's row has reached its sequence number. */
  ghost predicate Indexed(t: Tables) {
    && t.search == t.events.Keys
    && forall id :: id in t.events ==>
      t.events[id].sensor in t.sensors && t.sensors[t.events[id].sensor].lastSequence >= t.events[id].sequence
  }

  /** Insert indexes the event and never moves a sensor's sequence number back. */
  lemma InsertKeepsIndexed(env: Env, db: Db, e: Event, ids: seq<Str>, fault: Fault)
    requires Indexed(db.tables) && |ids| == |e.evidence|
    ensures var (after, r) := InsertStep(env, db, e, ids, fault);
            && Indexed(after.tables)
            && (r == Inserted ==>
                  after.tables.sensors[e.sensor].healthy && after.tables.sensors[e.sensor].lastSeen == e.timestamp)
            && forall s :: s in db.tables.sensors ==>
                 && s in after.tables.sensors
                 && after.tables.sensors[s].lastSequence >= db.tables.sensors[s].lastSequence
                 && (s != e.sensor ==> after.tables.sensors[s] == db.tables.sensors[s])
  {
    InsertTables(env, db, e, ids, fault);
    hide InsertStep, RowsFor;
  }

  /** What an insert writes about the sensor and the index: its date, session and highest number so far. */
  lemma InsertMarksSensor(env: Env, db: Db, e: Event, ids: seq<Str>, fault: Fault)
    requires |ids| == |e.evidence|
    ensures var (after, r) := InsertStep(env, db, e, ids, fault);
            if r != Inserted then after.tables == db.tables
            else
              var (old_, new_) := (db.tables.sensors, after.tables.sensors);
              && after.tables.search == db.tables.search + {e.id}
              && new_.Keys == old_.Keys + {e.sensor} && (forall s :: s in old_ && s != e.sensor ==> new_[s] == old_[s])
              && new_[e.sensor].lastSeen == e.timestamp && new_[e.sensor].lastSession == e.session
              && new_[e.sensor].healthy && new_[e.sensor].lastSequence >= e.sequence
              && (if e.sensor in old_
                  then new_[e.sensor].lastSequence >= old_[e.sensor].lastSequence
                       && new_[e.sensor].lastSequence in {e.sequence, old_[e.sensor].lastSequence}
                  else new_[e.sensor].lastSequence == e.sequence)
  {
    InsertTables(env, db, e, ids, fault);
    hide InsertStep, RowsFor;
  }

  /** Some fault stops the evidence loop. */
  predicate Stops(fault: Fault, ids: seq<Str>) {
    fault.AtEvidence? && fault.k < |ids|
  }

  /** The result tells what happened: a taken ID or key, a fault, a death, or a commit. */
  lemma InsertOutcome(env: Env, db: Db, e: Event, ids: seq<Str>, fault: Fault)
    requires |ids| == |e.evidence|
    ensures var r := InsertStep(env, db, e, ids, fault).1;
            var taken := e.id in db.tables.events
                || exists id :: id in db.tables.events && Key(db.tables.events[id]) == Key(e);
            && (r == Duplicate <==> taken && fault != BeforeEvidence && fault != AtCommit)
            && (r == Died <==> !taken && Stops(fault, ids) && (fault.what.Dies? || fault.what.DiesWriting?))
            && (r == Inserted <==> !taken && (fault == NoFault || (fault.AtEvidence? && !Stops(fault, ids))))
            && (r != Duplicate && r != Died && r != Inserted ==> r == Failed)
  {
    hide FilesUpTo, RowsFor, PathFor, SensorUpsert;
  }

  lemma InsertTables(env: Env, db: Db, e: Event, ids: seq<Str>, fault: Fault)
    requires |ids| == |e.evidence|
    ensures var (after, r) := InsertStep(env, db, e, ids, fault);
            after.tables == if r == Inserted then WithEvent(db.tables, e, RowsFor(env, e, ids)) else db.tables
  {
    hide Taken, FilesUpTo, RowsFor, PathFor, WithEvent;
  }

  // ------------------------------------------------------------ file names

  lemma {:induction false} SlashesOnly(name: string)
    ensures '\\' !in Slashes(name) && |Slashes(name)| == |name|
  {
    if name != "" { SlashesOnly(name[1..]); }
  }

  lemma {:induction false} TrimKeeps(p: string)
    ensures Paths.TrimSlashes(p) <= p
  {
    if p != "" && p[|p| - 1] == '/' { TrimKeeps(p[..|p| - 1]); }
  }

  lemma {:induction false} SlashesAt(name: string)
    ensures |Slashes(name)| == |name|
    ensures forall k :: 0 <= k < |name| ==> Slashes(name)[k] == if IsSeparator(name[k]) then '/' else name[k]
  {
    if name != "" { SlashesAt(name[1..]); }
  }

  lemma {:induction false} TrimAt(p: string)
    ensures var t := Paths.TrimSlashes(p);
            && t <= p && (t == "" || t[|t| - 1] != '/')
            && forall k :: |t| <= k < |p| ==> p[k] == '/'
  {
    if p != "" && p[|p| - 1] == '/' { TrimAt(p[..|p| - 1]); }
  }

  /** The last part of a split is what follows the last separator. */
  lemma {:induction false} LastPartAt(s: string, sep: char) returns (i: nat)
    ensures i <= |s| && (i == 0 || s[i - 1] == sep) && sep !in s[i..]
    ensures var parts := Split(s, sep); parts[|parts| - 1] == s[i..]
    ensures i == 0 <==> |Split(s, sep)| == 1
  {
    if s == "" { return 0; }
    var j := LastPartAt(s[1..], sep);
    assert s[1..][j..] == s[j + 1..];
    if j == 0 && s[0] != sep {
      assert s == [s[0]] + s[1..];
      return 0;
    }
    assert j > 0 ==> s[1..][j - 1] == s[j];
    return j + 1;
  }

  lemma StoredNameIsLast(name: string)
    ensures IsStoredName(StoredName(name), name)
  {
    if name != "" {
      var p := Slashes(name);
      SlashesAt(name);
      TrimAt(p);
      var t := Paths.TrimSlashes(p);
      if t == "" {
        assert AllSeparators(name);
      } else {
        var i := LastPartAt(t, '/');
        hide Split, Slashes, Paths.TrimSlashes;
        LastRunAt(name, p, t, i);
      }
    }
  }

  /** p is the name with its separators as slashes, and t is p without those at its end. */
  lemma LastRunAt(name: string, p: string, t: string, i: nat)
    requires |p| == |name| && forall k :: 0 <= k < |name| ==> p[k] == if IsSeparator(name[k]) then '/' else name[k]
    requires t <= p && t != "" && t[|t| - 1] != '/' && forall k :: |t| <= k < |p| ==> p[k] == '/'
    requires i <= |t| && (i == 0 || t[i - 1] == '/') && '/' !in t[i..]
    ensures LastRun(name, i, |t|) && name[i..|t|] == t[i..]
  {
    assert i < |t|;
    forall k | i <= k < |t|
      ensures !IsSeparator(name[k]) && name[k] == t[k]
    {
      assert t[k] == t[i..][k - i] && t[k] == p[k];
    }
    assert i > 0 ==> t[i - 1] == p[i - 1];
  }

  /** No stored name leads into another directory, whatever the visitor submitted. */
  lemma StoredNameHasNoPath(name: string)
    ensures var stored := StoredName(name);
            '\\' !in stored && ('/' !in stored || stored == "/")
  {
    if name != "" {
      var p := Slashes(name);
      SlashesOnly(name);
      TrimKeeps(p);
      var t := Paths.TrimSlashes(p);
      if t != "" { LastPart(t, '/', '\\'); }
    }
  }

  lemma {:induction false} LastPart(s: string, sep: char, other: char)
    requires other !in s
    ensures var parts := Split(s, sep); sep !in parts[|parts| - 1] && other !in parts[|parts| - 1]
  {
    var parts := Split(s, sep);
    if s != "" { LastPart(s[1..], sep, other); }
  }
}
