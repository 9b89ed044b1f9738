/** Findings: rule matches grouped by fingerprint, linked to events, alerted with a cooldown. */
module Findings {
  import opened Text

  datatype Status = Open | Acknowledged | Resolved

  datatype Finding = Finding(
    rule: string, fingerprint: string, version: int, title: string, summary: string, severity: string,
    source: string, observables: string, status: Status, firstSeen: int, lastSeen: int, eventCount: nat,
    updatedAt: int, lastAlerted: Option<int>)

  /** `occurredAt` is None for Go's zero time. */
  datatype Input = Input(
    rule: string, fingerprint: string, version: int, title: string, summary: string, severity: string,
    source: string, observables: string, event: string, occurredAt: Option<int>)

  /** The event IDs, the findings by ID and the finding_events table. */
  datatype Tables = Tables(events: set<string>, findings: map<string, Finding>, links: set<(string, string)>)

  datatype Op =
    | AddEvent(event: string)
    | DeleteEvent(event: string)
    | Upsert(input: Input, newId: string, now: int)
    | SetStatus(id: string, status: Status, now: int)
    | Reserve(id: string, cooldown: int, now: int)

  // ------------------------------------------------------------ the tables

  predicate Matches(f: Finding, rule: string, fingerprint: string) {
    f.rule == rule && f.fingerprint == fingerprint
  }

  /** UNIQUE(rule, fingerprint), and the foreign keys of finding_events. */
  ghost predicate Valid(t: Tables) {
    && (forall i, j :: i in t.findings && j in t.findings ==>
          (Matches(t.findings[i], t.findings[j].rule, t.findings[j].fingerprint) ==> i == j))
    && (forall l :: l in t.links ==> l.0 in t.findings && l.1 in t.events)
  }

  function LinkedEvents(links: set<(string, string)>, id: string): set<string> {
    set l | l in links && l.0 == id :: l.1
  }

  ghost predicate Known(t: Tables, input: Input) {
    exists id :: id in t.findings && Matches(t.findings[id], input.rule, input.fingerprint)
  }

  /** The row an upsert writes to. */
  ghost function Target(t: Tables, input: Input, newId: string): (id: string)
    ensures Known(t, input) ==> id in t.findings && Matches(t.findings[id], input.rule, input.fingerprint)
    ensures !Known(t, input) ==> id == newId
  {
    if Known(t, input) then
      var id :| id in t.findings && Matches(t.findings[id], input.rule, input.fingerprint);
      id
    else newId
  }

  /** Anything else is an error that rolls the transaction back. */
  ghost predicate Accepted(t: Tables, input: Input, newId: string) {
    && input.rule != "" && input.fingerprint != "" && input.event != ""
    && input.event in t.events && (Known(t, input) || newId !in t.findings)
  }

  function Seen(input: Input, now: int): int {
    if input.occurredAt == None then now else input.occurredAt.value
  }

  function Version(input: Input): int {
    if input.version < 1 then 1 else input.version
  }

  function New(input: Input, now: int): Finding {
    Finding(input.rule, input.fingerprint, Version(input), input.title, input.summary, input.severity, input.source,
            input.observables, Open, Seen(input, now), Seen(input, now), 0, now, None)
  }

  function Refreshed(f: Finding, input: Input, added: bool, now: int): Finding {
    f.(version := Version(input), title := input.title, summary := input.summary, severity := input.severity,
       source := input.source, observables := input.observables, updatedAt := now,
       lastSeen := if f.lastSeen < Seen(input, now) then Seen(input, now) else f.lastSeen,
       eventCount := f.eventCount + (if added then 1 else 0),
       status := if f.status == Resolved && added then Open else f.status)
  }

  ghost function Upserted(t: Tables, input: Input, newId: string, now: int): Tables {
    if !Accepted(t, input, newId) then t else
      var id := Target(t, input, newId);
      var f := if id in t.findings then t.findings[id] else New(input, now);
      t.(findings := t.findings[id := Refreshed(f, input, (id, input.event) !in t.links, now)],
          links := t.links + {(id, input.event)})
  }

  predicate MayAlert(t: Tables, id: string, cooldown: int, now: int) {
    id in t.findings && (t.findings[id].lastAlerted == None || t.findings[id].lastAlerted.value <= now - cooldown)
  }

  /** Deleting an event cascades to its links but not to any count. */
  ghost function Step(t: Tables, op: Op): Tables {
    match op
    case AddEvent(event) => t.(events := t.events + {event})
    case DeleteEvent(event) => t.(events := t.events - {event}, links := set l | l in t.links && l.1 != event)
    case Upsert(input, newId, now) => Upserted(t, input, newId, now)
    case SetStatus(id, status, now) =>
      if id in t.findings then t.(findings := t.findings[id := t.findings[id].(status := status, updatedAt := now)])
        else t
    case Reserve(id, cooldown, now) =>
      if MayAlert(t, id, cooldown, now)
        then t.(findings := t.findings[id := t.findings[id].(lastAlerted := Some(now), updatedAt := now)]) else t
  }

  ghost function Run(t: Tables, ops: seq<Op>): Tables
    decreases |ops|
  {
    if ops == [] then t else Run(Step(t, ops[0]), ops[1..])
  }

  // ------------------------------------------------------------- invariants

  lemma StepValid(t: Tables, op: Op)
    requires Valid(t)
    ensures Valid(Step(t, op))
  {
    hide Refreshed, New;
    var after := Step(t, op);
    if op.Upsert? && Accepted(t, op.input, op.newId) {
      var id := Target(t, op.input, op.newId);
      var before := if id in t.findings then t.findings[id] else New(op.input, op.now);
      RefreshedKeepsKey(before, op.input, (id, op.input.event) !in t.links, op.now);
      NewKey(op.input, op.now);
    }
  }

  lemma RefreshedKeepsKey(f: Finding, input: Input, added: bool, now: int)
    ensures Matches(Refreshed(f, input, added, now), f.rule, f.fingerprint)
    ensures Refreshed(f, input, added, now).eventCount == f.eventCount + if added then 1 else 0
    ensures Refreshed(f, input, added, now).lastAlerted == f.lastAlerted
  {
  }

  lemma NewKey(input: Input, now: int)
    ensures Matches(New(input, now), input.rule, input.fingerprint)
    ensures New(input, now).eventCount == 0
  {
  }

  // ------------------------------------------------------------- the counts

  /** How far a finding's count runs ahead of its links. */
  ghost function Surplus(t: Tables, id: string): int {
    if id in t.findings then t.findings[id].eventCount - |LinkedEvents(t.links, id)| else 0
  }

  /** Links of `id` that a step's cascade removes. */
  ghost function Cascaded(t: Tables, op: Op, id: string): nat {
    if op.DeleteEvent? && (id, op.event) in t.links then 1 else 0
  }

  ghost function CascadedInRun(t: Tables, ops: seq<Op>, id: string): nat
    decreases |ops|
  {
    if ops == [] then 0 else Cascaded(t, ops[0], id) + CascadedInRun(Step(t, ops[0]), ops[1..], id)
  }

  lemma AddLink(links: set<(string, string)>, id: string, event: string, other: string)
    ensures var after := LinkedEvents(links + {(id, event)}, other);
            |after| == |LinkedEvents(links, other)| + if other == id && (id, event) !in links then 1 else 0
  {
    var before := LinkedEvents(links, other);
    var after := LinkedEvents(links + {(id, event)}, other);
    if other == id {
      assert (id, event) in links + {(id, event)};
      assert after == before + {event};
      if (id, event) in links {
        assert before + {event} == before;
      } else {
        assert event !in before;
      }
    } else {
      assert after == before;
    }
  }

  lemma DropEvent(links: set<(string, string)>, event: string, id: string)
    ensures var after := LinkedEvents((set l | l in links && l.1 != event), id);
            |after| == |LinkedEvents(links, id)| - if (id, event) in links then 1 else 0
  {
    var before := LinkedEvents(links, id);
    var after := LinkedEvents((set l | l in links && l.1 != event), id);
    assert (id, event) in links ==> event in before;
    assert event in before ==> (id, event) in links;
    assert after == before - {event};
  }

  /** A step's surplus grows by exactly the links it cascades away. */
  lemma StepSurplus(t: Tables, op: Op, id: string)
    requires Valid(t)
    ensures Surplus(Step(t, op), id) == Surplus(t, id) + Cascaded(t, op, id)
  {
    hide LinkedEvents, Refreshed, New;
    match op {
      case DeleteEvent(event) => DropEvent(t.links, event, id);
      case Upsert(input, newId, now) =>
        if Accepted(t, input, newId) {
          var target := Target(t, input, newId);
          var before := if target in t.findings then t.findings[target] else New(input, now);
          RefreshedKeepsKey(before, input, (target, input.event) !in t.links, now);
          NewKey(input, now);
          AddLink(t.links, target, input.event, id);
          if id !in t.findings { NoLinks(t, id); }
        }
      case _ =>
    }
  }

  lemma NoLinks(t: Tables, id: string)
    requires Valid(t) && id !in t.findings
    ensures LinkedEvents(t.links, id) == {}
  {
  }

  /** In every run a finding's count is its links plus the links that event deletion cascaded away. */
  lemma {:induction false} CountIsLinksPlusCascades(t: Tables, ops: seq<Op>, id: string)
    requires Valid(t)
    ensures Valid(Run(t, ops))
    ensures Surplus(Run(t, ops), id) == Surplus(t, id) + CascadedInRun(t, ops, id)
    decreases |ops|
  {
    hide Surplus, Step, Valid;
    if ops != [] {
      StepValid(t, ops[0]);
      StepSurplus(t, ops[0], id);
      CountIsLinksPlusCascades(Step(t, ops[0]), ops[1..], id);
    }
  }

  /** So from an empty database, the count is the number of linked events exactly when no link was ever cascaded. */
  lemma CountIsExactIff(ops: seq<Op>, id: string)
    ensures var end := Run(Tables({}, map[], {}), ops);
            id in end.findings ==>
              && end.findings[id].eventCount >= |LinkedEvents(end.links, id)|
              && (end.findings[id].eventCount == |LinkedEvents(end.links, id)| <==>
                CascadedInRun(Tables({}, map[], {}), ops, id) == 0)
  {
    hide Run, CascadedInRun;
    CountIsLinksPlusCascades(Tables({}, map[], {}), ops, id);
  }

  // ------------------------------------------------------------------ replay

  /** Nothing that counts, classifies or alerts changed. */
  ghost predicate Quiet(before: Tables, after: Tables) {
    && after.links == before.links && after.events == before.events && after.findings.Keys == before.findings.Keys
    && forall id :: id in before.findings ==>
         && after.findings[id].eventCount == before.findings[id].eventCount
         && after.findings[id].status == before.findings[id].status
         && after.findings[id].lastAlerted == before.findings[id].lastAlerted
  }

  ghost predicate IsLinked(t: Tables, id: string, rule: string, fingerprint: string, event: string) {
    id in t.findings && Matches(t.findings[id], rule, fingerprint) && (id, event) in t.links && event in t.events
  }

  lemma StepKeepsLink(t: Tables, op: Op, id: string, rule: string, fingerprint: string, event: string)
    requires IsLinked(t, id, rule, fingerprint, event) && op != DeleteEvent(event)
    ensures IsLinked(Step(t, op), id, rule, fingerprint, event)
  {
    hide Refreshed, New;
    if op.Upsert? && Accepted(t, op.input, op.newId) {
      var target := Target(t, op.input, op.newId);
      if target in t.findings {
        RefreshedKeepsKey(t.findings[target], op.input, (target, op.input.event) !in t.links, op.now);
      }
    }
  }

  lemma {:induction false} RunKeepsLink(t: Tables, ops: seq<Op>, id: string, rule: string, fingerprint: string,
      event: string)
    requires IsLinked(t, id, rule, fingerprint, event) && DeleteEvent(event) !in ops
    ensures IsLinked(Run(t, ops), id, rule, fingerprint, event)
    decreases |ops|
  {
    hide Step, IsLinked;
    if ops != [] {
      StepKeepsLink(t, ops[0], id, rule, fingerprint, event);
      RunKeepsLink(Step(t, ops[0]), ops[1..], id, rule, fingerprint, event);
    }
  }

  lemma LinkedUpsertIsQuiet(t: Tables, id: string, input: Input, newId: string, now: int)
    requires Valid(t) && IsLinked(t, id, input.rule, input.fingerprint, input.event)
    ensures Quiet(t, Upserted(t, input, newId, now)) && Target(t, input, newId) == id
  {
  }

  /** Once an event was recorded for a finding, recording it again after any run that keeps the event is quiet. */
  lemma ReplayIsQuiet(t: Tables, first: Input, newId: string, at: int, ops: seq<Op>, again: Input, newId': string,
      now: int)
    requires Valid(t) && Accepted(t, first, newId) && DeleteEvent(first.event) !in ops
    requires again.rule == first.rule && again.fingerprint == first.fingerprint && again.event == first.event
    ensures var later := Run(Step(t, Upsert(first, newId, at)), ops);
            Accepted(later, again, newId') && Quiet(later, Upserted(later, again, newId', now))
  {
    hide Run, Quiet, Upserted, Valid;
    var id := Target(t, first, newId);
    var recorded := Step(t, Upsert(first, newId, at));
    RecordedIsLinked(t, first, newId, at);
    StepValid(t, Upsert(first, newId, at));
    RunKeepsLink(recorded, ops, id, first.rule, first.fingerprint, first.event);
    CountIsLinksPlusCascades(recorded, ops, id);
    LinkedUpsertIsQuiet(Run(recorded, ops), id, again, newId', now);
  }

  lemma RecordedIsLinked(t: Tables, input: Input, newId: string, now: int)
    requires Accepted(t, input, newId)
    ensures IsLinked(Upserted(t, input, newId, now), Target(t, input, newId), input.rule, input.fingerprint,
              input.event)
  {
  }

  /** Only a new link moves a finding out of resolved, and a new link always does. */
  lemma NewLinkReopens(t: Tables, input: Input, newId: string, now: int)
    requires Accepted(t, input, newId)
    ensures var id := Target(t, input, newId);
            var after := Upserted(t, input, newId, now);
            after.findings[id].status == Resolved <==>
              (id in t.findings && t.findings[id].status == Resolved && (id, input.event) in t.links)
  {
  }

  /**
   What an upsert writes: the input's details, dates and link; a count that grows with a new link; and a status
   that a new link changes only from resolved to open. Everything else stays.
   */
  lemma UpsertWrites(t: Tables, input: Input, newId: string, now: int)
    ensures var after := Upserted(t, input, newId, now);
            var seen := if input.occurredAt.Some? then input.occurredAt.value else now;
            if input.rule == "" || input.fingerprint == "" || input.event == "" || input.event !in t.events
               || (newId in t.findings && !Known(t, input)) then after == t
            else
              var id := Target(t, input, newId);
              && after.events == t.events && after.links == t.links + {(id, input.event)}
              && after.findings.Keys == t.findings.Keys + {id}
              && (forall other :: other in t.findings && other != id ==> after.findings[other] == t.findings[other])
              && var f := after.findings[id];
                 && f.version >= 1 && (input.version >= 1 ==> f.version == input.version)
                 && (input.version < 1 ==> f.version == 1) && f.updatedAt == now
                 && f.title == input.title && f.summary == input.summary && f.severity == input.severity
                 && f.source == input.source && f.observables == input.observables
                 && if id !in t.findings
                    then f.rule == input.rule && f.fingerprint == input.fingerprint && f.firstSeen == f.lastSeen == seen
                         && f.status == Open && f.lastAlerted == None
                         && f.eventCount == if (id, input.event) in t.links then 0 else 1
                    else Updated(t.findings[id], f, seen, (id, input.event) in t.links)
  {
  }

  /** What an upsert does to the finding that was there. */
  predicate Updated(f: Finding, g: Finding, seen: int, linked: bool) {
    && g.rule == f.rule && g.fingerprint == f.fingerprint && g.firstSeen == f.firstSeen
    && g.lastAlerted == f.lastAlerted
    && g.lastSeen >= f.lastSeen && g.lastSeen >= seen && (g.lastSeen == f.lastSeen || g.lastSeen == seen)
    && g.eventCount == f.eventCount + (if linked then 0 else 1)
    && g.status == if !linked && f.status == Resolved then Open else f.status
  }

  /** An operator's status and an alert's reservation each change their own field and the date of the change. */
  lemma OperatorWrites(t: Tables, id: string, status: Status, cooldown: int, now: int)
    ensures var after := Step(t, SetStatus(id, status, now));
            && after.events == t.events && after.links == t.links && after.findings.Keys == t.findings.Keys
            && forall i :: i in t.findings ==>
                 after.findings[i] == if i == id then t.findings[i].(status := status, updatedAt := now)
                   else t.findings[i]
    ensures var after := Step(t, Reserve(id, cooldown, now));
            var free := id in t.findings
                        && (t.findings[id].lastAlerted.Some? ==> now - t.findings[id].lastAlerted.value >= cooldown);
            && (MayAlert(t, id, cooldown, now) <==> free)
            && after.events == t.events && after.links == t.links && after.findings.Keys == t.findings.Keys
            && forall i :: i in t.findings ==>
                 after.findings[i]
                 == if i == id && free then t.findings[i].(lastAlerted := Some(now), updatedAt := now)
                    else t.findings[i]
  {
  }

  // -------------------------------------------------------------- sightings

  datatype Sighting = Sighting(input: Input, now: int)

  /** The upserts of the run that wrote to `id`, in order. */
  ghost function Sightings(t: Tables, ops: seq<Op>, id: string): seq<Sighting>
    decreases |ops|
  {
    if ops == [] then [] else Sighted(t, ops[0], id) + Sightings(Step(t, ops[0]), ops[1..], id)
  }

  ghost function Sighted(t: Tables, op: Op, id: string): seq<Sighting> {
    if op.Upsert? && Accepted(t, op.input, op.newId) && Target(t, op.input, op.newId) == id
      then [Sighting(op.input, op.now)] else []
  }

  function At(x: Sighting): int {
    Seen(x.input, x.now)
  }

  /** The finding as its sightings describe it. */
  ghost predicate Describes(f: Finding, all: seq<Sighting>) {
    && all != [] && f.firstSeen == At(all[0])
    && (exists x :: x in all && f.lastSeen == At(x)) && (forall x :: x in all ==> At(x) <= f.lastSeen)
    && var last := all[|all| - 1].input;
       && f.rule == last.rule && f.fingerprint == last.fingerprint && f.version == Version(last)
       && f.title == last.title && f.summary == last.summary && f.severity == last.severity
       && f.source == last.source && f.observables == last.observables
  }

  lemma RefreshedDescribes(f: Finding, all: seq<Sighting>, x: Sighting, added: bool)
    requires Describes(f, all) && Matches(f, x.input.rule, x.input.fingerprint)
    ensures Describes(Refreshed(f, x.input, added, x.now), all + [x])
  {
    var old_ :| old_ in all && f.lastSeen == At(old_);
    assert old_ in all + [x] && x in all + [x];
  }

  lemma NewDescribes(x: Sighting, added: bool)
    ensures Describes(Refreshed(New(x.input, x.now), x.input, added, x.now), [x])
  {
    assert x in [x];
  }

  lemma SameDescribes(f: Finding, g: Finding, all: seq<Sighting>)
    requires Describes(f, all) && g == f.(status := g.status, updatedAt := g.updatedAt, lastAlerted := g.lastAlerted)
    ensures Describes(g, all)
  {
  }

  lemma StepDescribes(t: Tables, op: Op, id: string, all: seq<Sighting>)
    requires Valid(t) && if id in t.findings then Describes(t.findings[id], all) else all == []
    ensures var after := Step(t, op);
            if id in after.findings then Describes(after.findings[id], all + Sighted(t, op, id))
              else all + Sighted(t, op, id) == []
  {
    hide Describes, Refreshed, New, LinkedEvents, Valid;
    assert all + [] == all;
    match op {
      case Upsert(input, newId, now) =>
        if Accepted(t, input, newId) && Target(t, input, newId) == id {
          var added := (id, input.event) !in t.links;
          if id in t.findings {
            RefreshedDescribes(t.findings[id], all, Sighting(input, now), added);
          } else {
            NewDescribes(Sighting(input, now), added);
            assert [] + [Sighting(input, now)] == [Sighting(input, now)];
          }
        }
      case SetStatus(other, status, now) =>
          if id in t.findings { SameDescribes(t.findings[id], Step(t, op).findings[id], all); }
      case Reserve(other, cooldown, now) =>
          if id in t.findings { SameDescribes(t.findings[id], Step(t, op).findings[id], all); }
      case _ =>
    }
  }

  lemma {:induction false} RunDescribes(t: Tables, ops: seq<Op>, id: string, all: seq<Sighting>)
    requires Valid(t) && if id in t.findings then Describes(t.findings[id], all) else all == []
    ensures var end := Run(t, ops);
            if id in end.findings then Describes(end.findings[id], all + Sightings(t, ops, id))
              else all + Sightings(t, ops, id) == []
    decreases |ops|
  {
    hide Describes, Step, Valid, Sighted;
    if ops == [] {
      assert all + [] == all;
    } else {
      var now, rest := Sighted(t, ops[0], id), Sightings(Step(t, ops[0]), ops[1..], id);
      StepValid(t, ops[0]);
      StepDescribes(t, ops[0], id, all);
      RunDescribes(Step(t, ops[0]), ops[1..], id, all + now);
      assert all + (now + rest) == (all + now) + rest;
    }
  }

  /**
   Over every run: a finding was first seen at its first sighting, last seen at its latest, and shows
   its last one's details.
   */
  lemma FindingIsItsSightings(ops: seq<Op>, id: string)
    ensures var start := Tables({}, map[], {});
            var end := Run(start, ops);
            if id in end.findings then Describes(end.findings[id], Sightings(start, ops, id))
              else Sightings(start, ops, id) == []
  {
    hide Describes, Run, Sightings;
    var start := Tables({}, map[], {});
    RunDescribes(start, ops, id, []);
    assert [] + Sightings(start, ops, id) == Sightings(start, ops, id);
  }

  // ---------------------------------------------------------------- cooldown

  /** No reservation of `id` succeeds in the run. */
  ghost predicate NoAlert(t: Tables, ops: seq<Op>, id: string)
    decreases |ops|
  {
    ops == [] || (!(ops[0].Reserve? && ops[0].id == id && MayAlert(t, id, ops[0].cooldown, ops[0].now))
        && NoAlert(Step(t, ops[0]), ops[1..], id))
  }

  lemma {:induction false} RunKeepsLastAlerted(t: Tables, ops: seq<Op>, id: string)
    requires id in t.findings && NoAlert(t, ops, id)
    ensures id in Run(t, ops).findings && Run(t, ops).findings[id].lastAlerted == t.findings[id].lastAlerted
    decreases |ops|
  {
    hide Refreshed, New, Matches, Known, Accepted;
    if ops != [] {
      if ops[0].Upsert? && Accepted(t, ops[0].input, ops[0].newId) {
        var target := Target(t, ops[0].input, ops[0].newId);
        if target in t.findings {
          RefreshedKeepsKey(t.findings[target], ops[0].input, (target, ops[0].input.event) !in t.links, ops[0].now);
        }
      }
      RunKeepsLastAlerted(Step(t, ops[0]), ops[1..], id);
    }
  }

  /** Successive alerts of one finding are a cooldown apart, whatever ran between them. */
  lemma AlertsAreSpaced(t: Tables, id: string, cooldown: int, at: int, ops: seq<Op>, cooldown': int, now: int)
    requires MayAlert(t, id, cooldown, at)
    requires NoAlert(Step(t, Reserve(id, cooldown, at)), ops, id)
    requires MayAlert(Run(Step(t, Reserve(id, cooldown, at)), ops), id, cooldown', now)
    ensures now - at >= cooldown'
  {
    hide Run, NoAlert;
    RunKeepsLastAlerted(Step(t, Reserve(id, cooldown, at)), ops, id);
  }

  // ---------------------------------------------------------------- the store

  /** Which call of recording a finding fails: the upsert's transaction, its read-back, or the reservation. */
  datatype Faults = Faults(tx: bool, read: bool, reserve: bool)

  const NO_FAULTS := Faults(false, false, false)

  class Store {
    var t: Tables

    constructor ()
      ensures t == Tables({}, map[], {}) && Valid(t)
    {
      t := Tables({}, map[], {});
    }

    /**
     * `newId` is the ID drawn for a new finding; None is an error. `txFails`: some statement or the commit fails.
     * `readFails`: the finding cannot be read back after the commit. The flag says whether the call changed anything.
     */
    method UpsertFinding(input: Input, newId: string, now: int, txFails: bool, readFails: bool)
      returns (r: Option<(string, bool)>)
      requires Valid(t)
      modifies this
      ensures Valid(t) && t == if txFails then old(t) else Step(old(t), Upsert(input, newId, now))
      ensures r == if Accepted(old(t), input, newId) && !txFails && !readFails
                   then Some((Target(old(t), input, newId),
                       (Target(old(t), input, newId), input.event) !in old(t).links))
                   else None
    {
      StepValid(t, Upsert(input, newId, now));
      hide LinkedEvents;
      if input.rule == "" || input.fingerprint == "" || input.event == "" || input.event !in t.events { return None; }
      var id, tx := newId, t;
      if existing :| existing in tx.findings && Matches(tx.findings[existing], input.rule, input.fingerprint) {
        id := existing;
      } else if newId in tx.findings {
        return None;
      } else {
        tx := tx.(findings := tx.findings[id := New(input, now)]);
        NoLinks(t, id);
      }
      var added := (id, input.event) !in tx.links;
      tx := tx.(links := tx.links + {(id, input.event)});
      tx := tx.(findings := tx.findings[id := Refreshed(tx.findings[id], input, added, now)]);
      assert id == Target(t, input, newId);
      if txFails { return None; }
      t := tx;
      if readFails { return None; }
      return Some((id, added));
    }

    /** False when there is no such finding. */
    method UpdateStatus(id: string, status: Status, now: int) returns (found: bool)
      requires Valid(t)
      modifies this
      ensures Valid(t) && t == Step(old(t), SetStatus(id, status, now)) && found == (id in old(t).findings)
    {
      StepValid(t, SetStatus(id, status, now));
      found := id in t.findings;
      if found {
        t := t.(findings := t.findings[id := t.findings[id].(status := status, updatedAt := now)]);
      }
    }

    /** Claim the right to alert, at most once per cooldown. */
    method ReserveAlert(id: string, cooldown: int, now: int) returns (reserved: bool)
      requires Valid(t)
      modifies this
      ensures Valid(t) && t == Step(old(t), Reserve(id, cooldown, now))
              && reserved == MayAlert(old(t), id, cooldown, now)
    {
      StepValid(t, Reserve(id, cooldown, now));
      reserved := MayAlert(t, id, cooldown, now);
      if reserved {
        t := t.(findings := t.findings[id := t.findings[id].(lastAlerted := Some(now), updatedAt := now)]);
      }
    }

    /**
     * The alert engine's use of both; `enabled` and `cooldown` are the rule's settings. An error after the
     * finding was stored loses the alert for good: by the first clause no replay of the event raises it.
     */
    method RecordFinding(input: Input, newId: string, now: int, enabled: bool, cooldown: int, f: Faults)
      returns (alert: Option<string>)
      requires Valid(t)
      modifies this
      ensures Valid(t)
      ensures !f.tx && Accepted(old(t), input, newId) ==>
                Known(t, input) && forall id :: (Target(t, input, id), input.event) in t.links
      ensures Known(old(t), input) && (Target(old(t), input, newId), input.event) in old(t).links ==>
                alert == None && Quiet(old(t), t)
      ensures alert.Some? <==>
                && enabled && f == NO_FAULTS && Accepted(old(t), input, newId)
                && (Target(old(t), input, newId), input.event) !in old(t).links
                && MayAlert(Upserted(old(t), input, newId, now), Target(old(t), input, newId), cooldown, now)
      ensures alert.Some? ==> alert.value == Target(old(t), input, newId)
      ensures t == (if f.tx then old(t)
                else if alert.Some? then Step(Upserted(old(t), input, newId, now),
                Reserve(alert.value, cooldown, now)) else Upserted(old(t), input, newId, now))
    {
      if Known(t, input) && (Target(t, input, newId), input.event) in t.links {
        LinkedUpsertIsQuiet(t, Target(t, input, newId), input, newId, now);
      }
      hide Upserted, Valid, Quiet, Accepted, Known;
      var r := UpsertFinding(input, newId, now, f.tx, f.read);
      if r == None || !r.value.1 || !enabled || f.reserve { return None; }
      var reserved := ReserveAlert(r.value.0, cooldown, now);
      if !reserved { return None; }
      return Some(r.value.0);
    }
  }
}
