/**
 Store.Insert: one transaction over the tables, evidence files written before the
 rows that name them, and removal of those files when the transaction fails.
 */
module EventStore {
  import opened Text
  import opened Model
  import Paths

  type Digest = s: Str | |s| == 64 witness seq(64, _ => '0')

  /** SHA-256 and the age sealer, kept abstract; netip.ParseAddr as a test. */
  datatype Env = Env(hash: Str -> Digest, seal: Str -> Str, isAddr: string -> bool)

  datatype EvidenceRow = EvidenceRow(
    id: Str, event: Str, kind: string, contentType: string, filename: string,
    hash: Digest, size: nat, path: string, createdAt: Option<int>)

  datatype SensorRow = SensorRow(lastSeen: Option<int>, lastSession: string, lastSequence: nat, healthy: bool)

  datatype Tables = Tables(
    events: map<Str, Event>,
    search: set<Str>,
    evidence: seq<EvidenceRow>,
    sensors: map<string, SensorRow>)

  type Files = map<string, Str>

  datatype Db = Db(tables: Tables, files: Files)

  /** Where a call may stop: an error, or the death of the process. */
  datatype Fault =
    | NoFault
    | BeforeEvidence
    | AtEvidence(k: nat, what: EvidenceFault)
    | AtSensor
    | AtCommit

  datatype EvidenceFault =
    | SealFails
    | WriteFails(left: Option<Str>)
    | RowFails
    | Dies
    | DiesWriting(left: Option<Str>)

  /** The process dies at the item: after its file, or while writing it. */
  predicate Kills(what: EvidenceFault) {
    what == Dies || what.DiesWriting?
  }

  datatype Outcome = Invalid | Duplicate | Inserted | Failed | Died

  // ----------------------------------------------------------- row values

  function PathFor(env: Env, ev: Evidence, id: Str): string {
    var h := env.hash(ev.data);
    h[..2] + "/" + h + "-" + id + ".age"
  }

  /** strings.ReplaceAll(name, "\\", "/") */
  function Slashes(name: string): string {
    if name == "" then "" else [if name[0] == '\\' then '/' else name[0]] + Slashes(name[1..])
  }

  /** Only the last element of a submitted file name is stored. */
  function StoredName(name: string): string {
    if name == "" then "" else Paths.Base(Slashes(name))
  }

  function RowFor(env: Env, e: Event, ev: Evidence, id: Str): EvidenceRow {
    EvidenceRow(id, e.id, ev.kind, ev.contentType, StoredName(ev.filename), env.hash(ev.data), |ev.data|,
        PathFor(env, ev, id), e.timestamp)
  }

  function RowsFor(env: Env, e: Event, ids: seq<Str>): (rows: seq<EvidenceRow>)
    requires |ids| == |e.evidence|
    ensures |rows| == |ids| && forall i :: 0 <= i < |rows| ==> rows[i] == RowFor(env, e, e.evidence[i], ids[i])
  {
    seq(|ids|, i requires 0 <= i < |ids| => RowFor(env, e, e.evidence[i], ids[i]))
  }

  /** The stored form of an event: everything but its evidence bytes. */
  function EventRow(e: Event): Event {
    e.(evidence := [])
  }

  predicate Taken(events: map<Str, Event>, e: Event) {
    e.id in events || exists id :: id in events && Key(events[id]) == Key(e)
  }

  function SensorUpsert(sensors: map<string, SensorRow>, e: Event): map<string, SensorRow> {
    var last := if e.sensor in sensors && sensors[e.sensor].lastSequence > e.sequence
        then sensors[e.sensor].lastSequence else e.sequence;
    sensors[e.sensor := SensorRow(e.timestamp, e.session, last, true)]
  }

  function WithEvent(t: Tables, e: Event, rows: seq<EvidenceRow>): Tables {
    Tables(t.events[e.id := EventRow(e)], t.search + {e.id}, t.evidence + rows, SensorUpsert(t.sensors, e))
  }

  /** The files of the first k evidence items. */
  function FilesUpTo(env: Env, e: Event, ids: seq<Str>, k: nat): Files
    requires k <= |ids| == |e.evidence|
  {
    if k == 0 then map[]
    else FilesUpTo(env, e, ids, k - 1)[PathFor(env, e.evidence[k - 1], ids[k - 1]) := env.seal(e.evidence[k - 1].data)]
  }

  /** Their paths, in the order they are written. */
  function PathsUpTo(env: Env, e: Event, ids: seq<Str>, k: nat): seq<string>
    requires k <= |ids| == |e.evidence|
  {
    if k == 0 then [] else PathsUpTo(env, e, ids, k - 1) + [PathFor(env, e.evidence[k - 1], ids[k - 1])]
  }

  /** The evidence IDs are new: no file has their path, and no two share one. */
  ghost predicate FreshPaths(env: Env, files: Files, e: Event, ids: seq<Str>) {
    && |ids| == |e.evidence|
    && (forall i :: 0 <= i < |ids| ==> PathFor(env, e.evidence[i], ids[i]) !in files)
    && (forall i, j :: 0 <= i < j < |ids| ==>
      PathFor(env, e.evidence[i], ids[i]) != PathFor(env, e.evidence[j], ids[j]))
  }

  // ------------------------------------------------------- specification

  /** Insert of an already normalised event. */
  function InsertStep(env: Env, db: Db, e: Event, ids: seq<Str>, fault: Fault): (Db, Outcome)
    requires |ids| == |e.evidence|
  {
    if fault == BeforeEvidence then (db, Failed)
    else if Taken(db.tables.events, e) then (db, if fault == AtCommit then Failed else Duplicate)
    else
      match fault
      case AtEvidence(k, what) =>
        if k >= |ids| then Commit(env, db, e, ids)
        else (match what
              case Dies => (db.(files := db.files + FilesUpTo(env, e, ids, k + 1)), Died)
              case DiesWriting(None) => (db.(files := db.files + FilesUpTo(env, e, ids, k)), Died)
              case DiesWriting(Some(part)) =>
                var path := PathFor(env, e.evidence[k], ids[k]);
                (db.(files := (db.files + FilesUpTo(env, e, ids, k))[path := part]), Died)
              case WriteFails(Some(part)) =>
                  (db.(files := db.files[PathFor(env, e.evidence[k], ids[k]) := part]), Failed)
              case _ => (db, Failed))
      case NoFault => Commit(env, db, e, ids)
      case _ => (db, Failed)
  }

  function Commit(env: Env, db: Db, e: Event, ids: seq<Str>): (Db, Outcome)
    requires |ids| == |e.evidence|
  {
    (Db(WithEvent(db.tables, e, RowsFor(env, e, ids)), db.files + FilesUpTo(env, e, ids, |ids|)), Inserted)
  }

  /** What a fault at one item makes of its file. */
  function Stopped(files: Files, path: string, sealed: Str, what: EvidenceFault): Files {
    match what
    case SealFails => files
    case WriteFails(None) => files
    case WriteFails(Some(part)) => files[path := part]
    case DiesWriting(None) => files
    case DiesWriting(Some(part)) => files[path := part]
    case _ => files[path := sealed]
  }

  /** The files after the evidence loop, before any cleanup. */
  function WrittenFiles(env: Env, base: Files, e: Event, ids: seq<Str>, fault: Fault): Files
    requires |ids| == |e.evidence|
  {
    if fault.AtEvidence? && fault.k < |ids|
    then Stopped(base + FilesUpTo(env, e, ids, fault.k), PathFor(env, e.evidence[fault.k], ids[fault.k]),
        env.seal(e.evidence[fault.k].data), fault.what)
    else base + FilesUpTo(env, e, ids, |ids|)
  }

  lemma WrittenWhole(env: Env, base: Files, e: Event, ids: seq<Str>, fault: Fault)
    requires |ids| == |e.evidence| && fault.AtEvidence? && fault.k < |ids|
             && (fault.what == RowFails || fault.what == Dies)
    ensures WrittenFiles(env, base, e, ids, fault) == base + FilesUpTo(env, e, ids, fault.k + 1)
  {
    hide PathFor;
    MapPut(base, FilesUpTo(env, e, ids, fault.k), PathFor(env, e.evidence[fault.k], ids[fault.k]),
        env.seal(e.evidence[fault.k].data));
  }

  lemma {:induction false} FilesAreCreated(env: Env, e: Event, ids: seq<Str>, k: nat)
    requires k <= |ids| == |e.evidence|
    ensures FilesUpTo(env, e, ids, k).Keys == set p | p in PathsUpTo(env, e, ids, k)
  {
    hide PathFor;
    if k > 0 { FilesAreCreated(env, e, ids, k - 1); }
  }

  lemma {:induction false} FilesKeys(env: Env, e: Event, ids: seq<Str>, k: nat)
    requires k <= |ids| == |e.evidence|
    ensures forall p :: p in FilesUpTo(env, e, ids, k) <==>
              exists i :: 0 <= i < k && p == PathFor(env, e.evidence[i], ids[i])
  {
    hide PathFor;
    if k > 0 { FilesKeys(env, e, ids, k - 1); }
  }

  lemma MapUndo<K, V>(base: map<K, V>, add: map<K, V>, p: K, v: V)
    requires base.Keys !! add.Keys && p !in add
    ensures (base + add) - add.Keys == base
    ensures (base + add)[p := v] - add.Keys == base[p := v]
  {
  }

  lemma MapPut<K, V>(base: map<K, V>, add: map<K, V>, p: K, v: V)
    ensures (base + add)[p := v] == base + add[p := v]
    ensures add[p := v].Keys == add.Keys + {p}
  {
  }

  /** Removing the created files restores what was there, save for one partly written file. */
  lemma Undo(env: Env, base: Files, e: Event, ids: seq<Str>, fault: Fault, created: set<string>)
    requires FreshPaths(env, base, e, ids)
    requires created == set p | p in PathsUpTo(env, e, ids, CreatedCount(ids, fault))
    requires !(fault.AtEvidence? && fault.k < |ids| && Kills(fault.what))
    ensures WrittenFiles(env, base, e, ids, fault) - created
         == if fault.AtEvidence? && fault.k < |ids| && fault.what.WriteFails? && fault.what.left.Some?
            then base[PathFor(env, e.evidence[fault.k], ids[fault.k]) := fault.what.left.value] else base
  {
    hide PathFor, FilesUpTo, PathsUpTo;
    if fault.AtEvidence? && fault.k < |ids| && fault.what == RowFails { WrittenWhole(env, base, e, ids, fault); }
    FilesAreCreated(env, e, ids, CreatedCount(ids, fault));
    var n := CreatedCount(ids, fault);
    var add := FilesUpTo(env, e, ids, n);
    FilesKeys(env, e, ids, n);
    if fault.AtEvidence? && fault.k < |ids| && fault.what.WriteFails? && fault.what.left.Some? {
      MapUndo(base, add, PathFor(env, e.evidence[fault.k], ids[fault.k]), fault.what.left.value);
    } else {
      assert base + add - add.Keys == base;
    }
  }

  /** How many files the loop had recorded for cleanup when it stopped. */
  function CreatedCount(ids: seq<Str>, fault: Fault): (n: nat)
    ensures n <= |ids|
  {
    if fault.AtEvidence? && fault.k < |ids| then (if fault.what == RowFails then fault.k + 1 else fault.k) else |ids|
  }

  /** The evidence loop after k items. */
  ghost predicate Writing(env: Env, base: Files, e: Event, ids: seq<Str>, k: nat, files: Files,
      rows: seq<EvidenceRow>, created: seq<string>)
    requires k <= |ids| == |e.evidence|
  {
    rows == RowsFor(env, e, ids)[..k] && created == PathsUpTo(env, e, ids, k)
        && files == base + FilesUpTo(env, e, ids, k)
  }

  lemma WritingStarts(env: Env, base: Files, e: Event, ids: seq<Str>)
    requires |ids| == |e.evidence|
    ensures Writing(env, base, e, ids, 0, base, [], [])
  {
    assert base + map[] == base;
  }

  lemma WritingStep(env: Env, base: Files, e: Event, ids: seq<Str>, k: nat, files: Files, rows: seq<EvidenceRow>,
      created: seq<string>)
    requires k < |ids| == |e.evidence| && Writing(env, base, e, ids, k, files, rows, created)
    ensures var path := PathFor(env, e.evidence[k], ids[k]);
            Writing(env, base, e, ids, k + 1, files[path := env.seal(e.evidence[k].data)],
                rows + [RowFor(env, e, e.evidence[k], ids[k])], created + [path])
  {
    hide PathFor, RowFor;
    MapPut(base, FilesUpTo(env, e, ids, k), PathFor(env, e.evidence[k], ids[k]), env.seal(e.evidence[k].data));
    var all := RowsFor(env, e, ids);
    assert all[..k + 1] == all[..k] + [all[k]];
  }

  lemma WritingStops(env: Env, base: Files, e: Event, ids: seq<Str>, fault: Fault, files: Files,
      rows: seq<EvidenceRow>, created: seq<string>)
    requires fault.AtEvidence? && fault.k < |ids| == |e.evidence|
    requires Writing(env, base, e, ids, fault.k, files, rows, created)
    ensures var path := PathFor(env, e.evidence[fault.k], ids[fault.k]);
            && Stopped(files, path, env.seal(e.evidence[fault.k].data), fault.what)
              == WrittenFiles(env, base, e, ids, fault)
            && (if fault.what == RowFails then created + [path] else created)
              == PathsUpTo(env, e, ids, CreatedCount(ids, fault))
  {
    hide PathFor, RowFor, RowsFor, FilesUpTo;
  }

  lemma WritingEnds(env: Env, base: Files, e: Event, ids: seq<Str>, fault: Fault, files: Files,
      rows: seq<EvidenceRow>, created: seq<string>)
    requires |ids| == |e.evidence| && Writing(env, base, e, ids, |ids|, files, rows, created)
    requires !(fault.AtEvidence? && fault.k < |ids|)
    ensures rows == RowsFor(env, e, ids) && created == PathsUpTo(env, e, ids, CreatedCount(ids, fault))
    ensures files == WrittenFiles(env, base, e, ids, fault)
  {
    hide PathFor, RowFor;
    var all := RowsFor(env, e, ids);
    assert all[..|ids|] == all;
  }

  /** Normalising leaves the evidence alone. */
  lemma NormalPaths(env: Env, files: Files, event: Event, ids: seq<Str>, now: int, newId: Str)
    requires FreshPaths(env, files, event, ids) && Normalize(event, now, newId, env.isAddr).Some?
    ensures FreshPaths(env, files, Normalize(event, now, newId, env.isAddr).value, ids)
    ensures |ids| == |Normalize(event, now, newId, env.isAddr).value.evidence|
  {
    hide PathFor, Lower;
  }

  /** A new event's transaction from its evidence loop on: a death, a cleanup, or the commit. */
  lemma AfterEvidence(env: Env, db: Db, e: Event, ids: seq<Str>, fault: Fault)
    requires FreshPaths(env, db.files, e, ids) && fault != BeforeEvidence && !Taken(db.tables.events, e)
    ensures var written := WrittenFiles(env, db.files, e, ids, fault);
            var created := set p | p in PathsUpTo(env, e, ids, CreatedCount(ids, fault));
            var stopped := fault.AtEvidence? && fault.k < |ids|;
            InsertStep(env, db, e, ids, fault)
            == if stopped && Kills(fault.what) then (db.(files := written), Died)
               else if stopped || fault == AtSensor || fault == AtCommit then (db.(files := written - created), Failed)
               else (Db(WithEvent(db.tables, e, RowsFor(env, e, ids)), written), Inserted)
  {
    var created := set p | p in PathsUpTo(env, e, ids, CreatedCount(ids, fault));
    if !(fault.AtEvidence? && fault.k < |ids| && Kills(fault.what)) { Undo(env, db.files, e, ids, fault, created); }
    if fault.AtEvidence? && fault.k < |ids| && fault.what == Dies { WrittenWhole(env, db.files, e, ids, fault); }
    hide PathFor, Taken, WithEvent, FilesUpTo, RowsFor, PathsUpTo, FreshPaths, CreatedCount;
  }

  // --------------------------------------------------------------- object

  class Store {
    const env: Env
    var tables: Tables
    var files: Files

    ghost function State(): Db
      reads this
    {
      Db(tables, files)
    }

    constructor (env: Env)
      ensures this.env == env && State() == Db(Tables(map[], {}, [], map[]), map[])
    {
      this.env := env;
      tables, files := Tables(map[], {}, [], map[]), map[];
    }

    /** The deferred cleanup of a transaction that did not commit. */
    method RemoveFiles(created: seq<string>)
      modifies this`files
      ensures files == old(files) - set p | p in created
    {
      for i := 0 to |created|
        invariant files == old(files) - set p | p in created[..i]
      {
        files := files - {created[i]};
        assert created[..i + 1] == created[..i] + [created[i]];
      }
      assert created[..|created|] == created;
    }

    /** The evidence loop: seal, write the file, then add its row; a failed write may leave a part. */
    method WriteEvidence(e: Event, ids: seq<Str>, fault: Fault)
      returns (rows: seq<EvidenceRow>, created: seq<string>, stop: Option<Outcome>)
      requires |ids| == |e.evidence|
      modifies this`files
      ensures stop == if fault.AtEvidence? && fault.k < |ids| then Some(if Kills(fault.what) then Died else Failed)
                else None
      ensures stop == None ==> rows == RowsFor(env, e, ids)
      ensures created == PathsUpTo(env, e, ids, CreatedCount(ids, fault))
      ensures files == WrittenFiles(env, old(files), e, ids, fault)
    {
      hide PathFor, RowsFor, RowFor, Writing, WrittenFiles, PathsUpTo, Stopped;
      ghost var base := files;
      rows, created := [], [];
      WritingStarts(env, base, e, ids);
      for k := 0 to |ids|
        invariant fault.AtEvidence? ==> k <= fault.k || fault.k >= |ids|
        invariant Writing(env, base, e, ids, k, files, rows, created)
      {
        var path := PathFor(env, e.evidence[k], ids[k]);
        var sealed := env.seal(e.evidence[k].data);
        if fault.AtEvidence? && fault.k == k {
          WritingStops(env, base, e, ids, fault, files, rows, created);
          files := Stopped(files, path, sealed, fault.what);
          if fault.what == RowFails { created := created + [path]; }
          return rows, created, Some(if Kills(fault.what) then Died else Failed);
        }
        WritingStep(env, base, e, ids, k, files, rows, created);
        files := files[path := sealed];
        created := created + [path];
        rows := rows + [RowFor(env, e, e.evidence[k], ids[k])];
      }
      WritingEnds(env, base, e, ids, fault, files, rows, created);
      return rows, created, None;
    }

    /** `newId` and `ids` are the identifiers the generator hands out during the call. */
    method Insert(event: Event, now: int, newId: Str, ids: seq<Str>, fault: Fault) returns (r: Outcome)
      requires FreshPaths(env, files, event, ids)
      modifies this
      ensures match Normalize(event, now, newId, env.isAddr)
              case None => r == Invalid && State() == old(State())
              case Some(e) => (State(), r) == InsertStep(env, old(State()), e, ids, fault)
    {
      hide PathFor, Taken, WithEvent, FilesUpTo, RowsFor, PathsUpTo, WrittenFiles, CreatedCount, FreshPaths, Normalize;
      var normal := Normalize(event, now, newId, env.isAddr);
      if normal == None { return Invalid; }
      var e := normal.value;
      NormalPaths(env, files, event, ids, now, newId);
      if fault == BeforeEvidence { return Failed; }
      if Taken(tables.events, e) { return if fault == AtCommit then Failed else Duplicate; }
      AfterEvidence(env, State(), e, ids, fault);
      hide InsertStep;
      var rows, created, stop := WriteEvidence(e, ids, fault);
      if stop == Some(Died) { return Died; }
      if stop.Some? || fault == AtSensor || fault == AtCommit {
        RemoveFiles(created);
        return Failed;
      }
      tables := WithEvent(tables, e, rows);
      return Inserted;
    }
  }
}
