/** The step system, step by step and run by run, without unfolding it. */
module PipelineSteps {
  import opened Text
  import opened Model
  import Spool
  import opened EventStore
  import opened Transport
  import opened Pipeline

  /** The generator never repeats the path of an existing evidence file. */
  ghost predicate NewIds(env: Env, m: Moment) {
    forall files: Files, e: Event :: FreshPaths(env, files, e, Supplied(m, files, |e.evidence|))
  }

  lemma NewIdsAreFresh(c: Config, db: Db, env: Envelope, m: Moment)
    requires NewIds(c.env, m)
    ensures FreshMoment(c.env, c.decode, db, env, m)
  {
    hide FreshPaths;
  }

  lemma {:induction false} RunConcat(c: Config, s: State, a: seq<Step>, b: seq<Step>)
    ensures Run(c, s, a + b) == Run(c, Run(c, s, a), b)
    decreases |a|
  {
    hide Next;
    if a == [] {
      assert a + b == b;
    } else {
      assert (a + b)[0] == a[0] && (a + b)[1..] == a[1..] + b;
      RunConcat(c, Next(c, s, a[0]), a[1..], b);
    }
  }

  lemma RunExtend(c: Config, s: State, trail: seq<Step>, step: Step)
    ensures Run(c, s, trail + [step]) == Next(c, Run(c, s, trail), step)
  {
    hide Next;
    RunConcat(c, s, trail, [step]);
    assert [step][1..] == [];
  }

  lemma RunNone(c: Config, s: State)
    ensures Run(c, s, []) == s
  {
  }

  lemma RunTwo(c: Config, s: State, a: Step, b: Step)
    ensures Run(c, s, [a]) == Next(c, s, a)
    ensures Run(c, s, [a, b]) == Next(c, Next(c, s, a), b)
  {
    hide Next;
    assert [a] == [] + [a] && [a, b] == [a] + [b];
    RunExtend(c, s, [], a);
    RunExtend(c, s, [a], b);
  }

  lemma NextOnline(c: Config, s: State)
    requires s.link.Online?
    ensures Next(c, s, Break) == s.(link := Offline, orphans := s.orphans + InFlight(s.link))
    ensures s.link.batch != [] && s.link.wire == Quiet ==>
              Next(c, s, Step.Send) == s.(link := s.link.(wire := Sent(s.link.batch[0])))
  {
  }

  lemma NextQueue(c: Config, s: State)
    ensures s.link == Offline ==> Next(c, s, Connect) == s.(link := Online([], Quiet))
    ensures s.link == Online([], Quiet) ==>
              var l := Spool.ListSpec(s.disk.dir);
              Next(c, s, Step.List) == s.(link := if l.Listed? then Online(l.records, Quiet) else Offline)
  {
    hide Spool.ListSpec;
  }

  lemma NextOpened(c: Config, s: State, now: int)
    ensures Next(c, s, StreamOpened(now)) == if Touchable(c.sensor) then s.(db := Opened(s.db, c.sensor, now)) else s
  {
  }

  lemma NextHeartbeat(c: Config, s: State, id: Str, m: Moment)
    requires s.link == Online([], Quiet)
    ensures Next(c, s, Step.Heartbeat(id, m))
         == s.(db := Handle(c.env, c.decode, s.db, c.sensor, Envelope(VERSION, c.sensor, id, "", true), m).0)
  {
    hide Handle;
  }

  lemma NextDeliver(c: Config, s: State, m: Moment)
    requires s.link.Online? && s.link.wire.Sent? && NewIds(c.env, m)
    ensures var (after, reply) := Handled(c, s, s.link.wire.r, m);
            Next(c, s, Deliver(m)) == if reply == Silence then after.(link := Offline)
                else after.(link := s.link.(wire := Answered(reply.ack)))
  {
    hide Handled, FreshPaths;
  }

  lemma NextReceive(c: Config, s: State)
    requires s.link.Online? && s.link.wire.Answered? && s.link.batch != []
    ensures var ack, r := s.link.wire.ack, s.link.batch[0];
            Next(c, s, Step.Receive)
            == if ack.messageId != r.id || !ack.Accepted() then s.(link := Offline)
               else s.(disk := Spool.AckStep(s.disk, r.id), link := Online(s.link.batch[1..], Quiet),
                   acked := s.acked + 1)
  {
    hide Spool.AckStep;
  }

  lemma {:induction false} AckedGrows(c: Config, s: State, steps: seq<Step>)
    ensures Run(c, s, steps).acked >= s.acked
    decreases |steps|
  {
    if steps != [] {
      AckedStep(c, s, steps[0]);
      hide Next;
      AckedGrows(c, Next(c, s, steps[0]), steps[1..]);
    }
  }

  lemma AckedStep(c: Config, s: State, step: Step)
    ensures Next(c, s, step).acked >= s.acked
    ensures !step.Put? && !step.PutThenDie? ==> Next(c, s, step).puts == s.puts
  {
    hide Handle, InsertStep, Spool.PutStep, Spool.ListSpec, FreshMoment, FreshPaths, Spool.AckStep, Spool.Total;
  }

  ghost predicate NoPuts(steps: seq<Step>) {
    forall step :: step in steps ==> !step.Put? && !step.PutThenDie?
  }

  lemma {:induction false} NoPutsKeep(c: Config, s: State, steps: seq<Step>)
    requires NoPuts(steps)
    ensures Run(c, s, steps).puts == s.puts
    decreases |steps|
  {
    if steps != [] {
      assert steps[0] in steps;
      AckedStep(c, s, steps[0]);
      hide Next;
      NoPutsKeep(c, Next(c, s, steps[0]), steps[1..]);
    }
  }
}
