/** Admission of sessions under a global and a per-source limit. */
module Limiter {
  import opened Tally

  /** One admitted session: its source, and whether its release function has run (Go's sync.Once). */
  datatype Lease = Lease(source: string, released: bool)

  /** Sessions admitted and not yet released. */
  function Live(leases: seq<Lease>): nat {
    if leases == [] then 0 else Live(leases[..|leases| - 1]) + if leases[|leases| - 1].released then 0 else 1
  }

  /** Those of one source. */
  function LiveFrom(leases: seq<Lease>, source: string): nat {
    if leases == [] then 0 else
      LiveFrom(leases[..|leases| - 1], source)
      + if leases[|leases| - 1] == Lease(source, false) then 1 else 0
  }

  lemma Admitted(leases: seq<Lease>, source: string, other: string)
    ensures Live(leases + [Lease(source, false)]) == Live(leases) + 1
    ensures LiveFrom(leases + [Lease(source, false)], other)
              == LiveFrom(leases, other) + if other == source then 1 else 0
  {
    assert (leases + [Lease(source, false)])[..|leases|] == leases;
  }

  lemma {:induction false} Released(leases: seq<Lease>, i: nat, other: string)
    requires i < |leases| && !leases[i].released
    ensures var after := leases[i := Lease(leases[i].source, true)];
            && Live(after) == Live(leases) - 1
            && LiveFrom(after, other) == LiveFrom(leases, other) - if other == leases[i].source then 1 else 0
  {
    var last := |leases| - 1;
    var after := leases[i := Lease(leases[i].source, true)];
    if i < last {
      Released(leases[..last], i, other);
      assert after[..last] == leases[..last][i := Lease(leases[i].source, true)];
    } else {
      assert after[..last] == leases[..last];
    }
  }

  /** A counter map that agrees with the sessions and keeps no zero entry. */
  ghost predicate Agrees(sources: map<string, int>, leases: seq<Lease>) {
    && (forall s :: LiveFrom(leases, s) == if s in sources then sources[s] else 0)
    && (forall s :: s in sources ==> sources[s] > 0)
  }

  lemma AgreesAdmit(sources: map<string, int>, leases: seq<Lease>, source: string)
    requires Agrees(sources, leases)
    ensures var n := if source in sources then sources[source] else 0;
            Agrees(sources[source := n + 1], leases + [Lease(source, false)])
                && Sum(sources[source := n + 1]) == Sum(sources) + 1
  {
    hide LiveFrom;
    var n := if source in sources then sources[source] else 0;
    SumPut(sources, source, n + 1);
    forall s ensures LiveFrom(leases + [Lease(source, false)], s)
        == LiveFrom(leases, s) + if s == source then 1 else 0 {
      Admitted(leases, source, s);
    }
  }

  lemma AgreesRelease(sources: map<string, int>, leases: seq<Lease>, i: nat)
    requires Agrees(sources, leases) && i < |leases| && !leases[i].released
    ensures var (source, after) := (leases[i].source, leases[i := Lease(leases[i].source, true)]);
            && source in sources
            && var rest := if sources[source] == 1 then sources - {source} else sources[source := sources[source] - 1];
            Agrees(rest, after) && Sum(rest) == Sum(sources) - 1
  {
    hide LiveFrom;
    var (source, after) := (leases[i].source, leases[i := Lease(leases[i].source, true)]);
    forall s ensures LiveFrom(after, s) == LiveFrom(leases, s) - if s == source then 1 else 0 {
      Released(leases, i, s);
    }
    assert LiveFrom(after, source) >= 0;
    SumRemove(sources, source);
    SumPut(sources, source, sources[source] - 1);
  }

  class Limiter {
    const maxGlobal: int
    const maxPerSource: int
    var global: int
    var sources: map<string, int>
    /** Every session ever admitted; the index stands for the release function handed out. */
    var leases: seq<Lease>

    ghost predicate Valid()
      reads this
    {
      && global == Live(leases) == Sum(sources) && Agrees(sources, leases)
      && (global == 0 || global <= maxGlobal)
      && forall s :: s in sources ==> sources[s] <= maxPerSource
    }

    constructor (global: int, perSource: int)
      ensures Valid() && maxGlobal == global && maxPerSource == perSource && leases == []
    {
      maxGlobal, maxPerSource := global, perSource;
      this.global, sources, leases := 0, map[], [];
    }

    /** Admit a session of `ip`, returning its release function, unless a limit is reached. */
    method Acquire(ip: string) returns (admitted: bool, release: nat)
      requires Valid()
      modifies this
      ensures Valid()
      ensures admitted <==> Live(old(leases)) < maxGlobal && LiveFrom(old(leases), ip) < maxPerSource
      ensures leases == if admitted then old(leases) + [Lease(ip, false)] else old(leases)
      ensures admitted ==> release == |old(leases)|
    {
      hide Live, LiveFrom, Sum;
      assert LiveFrom(leases, ip) == if ip in sources then sources[ip] else 0;
      admitted, release := false, |leases|;
      if global >= maxGlobal { return; }
      var n := if ip in sources then sources[ip] else 0;
      if n >= maxPerSource { return; }
      AgreesAdmit(sources, leases, ip);
      Admitted(leases, ip, ip);
      hide Agrees;
      sources := sources[ip := n + 1];
      global := global + 1;
      leases := leases + [Lease(ip, false)];
      admitted := true;
    }

    /** Run a release function; only its first call does anything. */
    method Release(release: nat)
      requires Valid() && release < |leases|
      modifies this
      ensures Valid()
      ensures leases == old(leases)[release := Lease(old(leases)[release].source, true)]
      ensures Live(leases) == Live(old(leases)) - if old(leases)[release].released then 0 else 1
    {
      hide Live, LiveFrom, Sum;
      if !leases[release].released {
        AgreesRelease(sources, leases, release);
        Released(leases, release, leases[release].source);
        hide Agrees;
        var source := leases[release].source;
        global := global - 1;
        sources := sources[source := sources[source] - 1];
        if sources[source] == 0 {
          assert old(sources)[source := 0] - {source} == old(sources) - {source};
          sources := sources - {source};
        }
        leases := leases[release := Lease(source, true)];
      }
    }
  }
}
