/** The broker: live events to subscribers over bounded channels that drop their oldest message. */
module Broker {

  type Message = string

  const CAPACITY := 128

  // ----------------------------------------------------------------- sequences

  /** The first `n` messages without those at the positions in `lost`. */
  ghost function Without(offered: seq<Message>, n: nat, lost: set<int>): seq<Message>
    requires n <= |offered|
  {
    if n == 0 then [] else Without(offered, n - 1, lost) + if n - 1 in lost then [] else [offered[n - 1]]
  }

  lemma {:induction false} WithoutAgrees(a: seq<Message>, b: seq<Message>, n: nat, lost: set<int>, more: set<int>)
    requires n <= |a| && n <= |b| && a[..n] == b[..n]
    requires forall i: nat :: i < n ==> (i in lost <==> i in more)
    ensures Without(a, n, lost) == Without(b, n, more)
  {
    if n > 0 {
      assert a[n - 1] == a[..n][n - 1] == b[..n][n - 1] == b[n - 1];
      assert a[..n - 1] == a[..n][..n - 1] == b[..n][..n - 1] == b[..n - 1];
      WithoutAgrees(a, b, n - 1, lost, more);
    }
  }

  /** Nothing is lost past `n`, so the rest is kept whole. */
  lemma {:induction false} WithoutRest(offered: seq<Message>, n: nat, m: nat, lost: set<int>)
    requires n <= m <= |offered| && forall i :: i in lost ==> i < n
    ensures Without(offered, m, lost) == Without(offered, n, lost) + offered[n..m]
    decreases m
  {
    if n < m {
      WithoutRest(offered, n, m - 1, lost);
      assert offered[n..m] == offered[n..m - 1] + [offered[m - 1]];
    } else {
      assert offered[n..m] == [];
    }
  }

  lemma {:induction false} WithoutSize(offered: seq<Message>, n: nat, lost: set<int>)
    requires n <= |offered| && forall i :: i in lost ==> 0 <= i < n
    ensures |Without(offered, n, lost)| == n - |lost|
  {
    if n == 0 {
      assert forall i: int :: i !in lost;
    } else {
      var fewer := lost - {n - 1};
      WithoutSize(offered, n - 1, fewer);
      WithoutAgrees(offered, offered, n - 1, lost, fewer);
      assert n - 1 !in lost ==> fewer == lost;
    }
  }

  // ------------------------------------------------------------------- a channel

  /** A channel's messages: published, taken by the consumer, dropped (by position), and still buffered. */
  datatype View = View(offered: seq<Message>, received: seq<Message>, lost: set<int>, buffer: seq<Message>)

  /** Messages no longer in the channel. */
  function Gone(v: View): int {
    |v.offered| - |v.buffer|
  }

  /** The buffer is the newest messages; of the others, the consumer has all but the lost ones, in order. */
  ghost predicate Sound(v: View) {
    && |v.buffer| <= CAPACITY && Gone(v) >= 0 && v.buffer == v.offered[Gone(v)..]
    && (forall i :: i in v.lost ==> 0 <= i < Gone(v))
    && v.received == Without(v.offered, Gone(v), v.lost)
  }

  function Min(a: nat, b: nat): nat {
    if a < b then a else b
  }

  function Receive(v: View, n: nat): View {
    v.(received := v.received + v.buffer[..Min(n, |v.buffer|)], buffer := v.buffer[Min(n, |v.buffer|)..])
  }

  function Drop(v: View): View {
    if v.buffer == [] then v else v.(buffer := v.buffer[1..], lost := v.lost + {Gone(v)})
  }

  function Send(v: View, m: Message): View {
    v.(offered := v.offered + [m], buffer := v.buffer + [m])
  }

  /** How many messages the consumer may take ahead of each of the three selects. */
  datatype Drains = Drains(before0: nat, before1: nat, before2: nat)

  function Offer(v: View, m: Message, d: Drains): View {
    var v0 := Receive(v, d.before0);
    Send(if |v0.buffer| < CAPACITY then v0 else Receive(Drop(Receive(v0, d.before1)), d.before2), m)
  }

  lemma ReceiveSound(v: View, n: nat)
    requires Sound(v)
    ensures Sound(Receive(v, n)) && |Receive(v, n).buffer| <= |v.buffer|
  {
    var k := Min(n, |v.buffer|);
    WithoutRest(v.offered, Gone(v), Gone(v) + k, v.lost);
    hide Without;
    assert v.offered[Gone(v)..][..k] == v.offered[Gone(v)..Gone(v) + k];
    assert v.offered[Gone(v)..][k..] == v.offered[Gone(v) + k..];
  }

  lemma DropSound(v: View)
    requires Sound(v)
    ensures Sound(Drop(v)) && |Drop(v).buffer| < CAPACITY
  {
    if v.buffer != [] {
      var gone := Gone(v);
      WithoutAgrees(v.offered, v.offered, gone, v.lost, v.lost + {gone});
      assert Without(v.offered, gone + 1, v.lost + {gone}) == Without(v.offered, gone, v.lost + {gone}) + [];
      hide Without;
    }
  }

  lemma SendSound(v: View, m: Message)
    requires Sound(v) && |v.buffer| < CAPACITY
    ensures Sound(Send(v, m))
  {
    WithoutAgrees(v.offered, v.offered + [m], Gone(v), v.lost, v.lost);
    hide Without;
  }

  /** An offer to a sound channel finds room, and leaves it sound. */
  lemma OfferSound(v: View, m: Message, d: Drains)
    requires Sound(v)
    ensures Sound(Offer(v, m, d))
    ensures var v0 := Receive(v, d.before0);
            |v0.buffer| >= CAPACITY ==> |Receive(Drop(Receive(v0, d.before1)), d.before2).buffer| < CAPACITY
  {
    hide Without, Sound, Receive, Drop, Send;
    var v0 := Receive(v, d.before0);
    ReceiveSound(v, d.before0);
    var v1 := Receive(v0, d.before1);
    ReceiveSound(v0, d.before1);
    DropSound(v1);
    ReceiveSound(Drop(v1), d.before2);
    if |v0.buffer| < CAPACITY {
      SendSound(v0, m);
    } else {
      SendSound(Receive(Drop(v1), d.before2), m);
    }
  }

  lemma SmallBuffer(v: View)
    requires Sound(v)
    ensures |v.buffer| <= CAPACITY
  {
  }

  /**
   The message is always enqueued, as the newest; at most one message is dropped, the oldest left at
   the time, and only from a buffer found full; the consumer takes no more than it asked for.
   */
  lemma OfferDropsOldest(v: View, m: Message, d: Drains)
    requires Sound(v)
    ensures var after := Offer(v, m, d);
            && after.offered == v.offered + [m] && after.buffer != [] && after.buffer[|after.buffer| - 1] == m
            && v.received <= after.received && |after.received| - |v.received| <= d.before0 + d.before1 + d.before2
            && (after.lost == v.lost
                || (|v.buffer| == 128 && d.before0 == 0 && d.before1 < 128
                    && after.lost == v.lost + {Gone(v) + d.before1}))
  {
    SmallBuffer(v);
    hide Sound, Without, Receive, Drop;
    var v0 := Receive(v, d.before0);
    var v1 := Receive(v0, d.before1);
    ReceiveTakes(v, d.before0);
    ReceiveTakes(v0, d.before1);
    DropTakes(v1);
    ReceiveTakes(Drop(v1), d.before2);
    var v2 := Receive(Drop(v1), d.before2);
    assert v.received <= v0.received && v0.received <= v1.received && v1.received <= v2.received;
  }

  lemma ReceiveTakes(v: View, n: nat)
    ensures var after := Receive(v, n);
            && after.offered == v.offered && after.lost == v.lost && v.received <= after.received
            && |after.received| - |v.received| == |v.buffer| - |after.buffer| == Min(n, |v.buffer|)
  {
  }

  lemma DropTakes(v: View)
    ensures var after := Drop(v);
            && after.offered == v.offered && after.received == v.received
            && (v.buffer == [] ==> after == v)
            && (v.buffer != [] ==> |after.buffer| == |v.buffer| - 1 && after.lost == v.lost + {Gone(v)})
  {
  }

  /** What a consumer has and can still take is what was published without what was dropped, in order. */
  lemma ReceivedInOrder(v: View)
    requires Sound(v)
    ensures v.received + v.buffer == Without(v.offered, |v.offered|, v.lost)
    ensures |v.received| + |v.buffer| + |v.lost| == |v.offered|
  {
    WithoutRest(v.offered, Gone(v), |v.offered|, v.lost);
    assert v.offered[Gone(v)..|v.offered|] == v.buffer;
    WithoutSize(v.offered, |v.offered|, v.lost);
  }

  /** One subscriber's channel. */
  class Channel {
    var buffer: seq<Message>
    var closed: bool
    ghost var offered: seq<Message>
    ghost var received: seq<Message>
    ghost var lost: set<int>

    ghost function State(): View
      reads this
    {
      View(offered, received, lost, buffer)
    }

    constructor ()
      ensures Sound(State()) && State() == View([], [], {}, []) && !closed
    {
      buffer, closed, offered, received, lost := [], false, [], [], {};
      new;
      assert Without([], 0, {}) == [];
      hide Without;
    }

    /** The consumer takes up to `n` messages; this may happen at any time, also after the channel closed. */
    method Take(n: nat) returns (taken: seq<Message>)
      requires Sound(State())
      modifies this
      ensures Sound(State()) && State() == Receive(old(State()), n) && closed == old(closed)
      ensures received == old(received) + taken
    {
      ReceiveSound(State(), n);
      hide Sound;
      var k := Min(n, |buffer|);
      taken := buffer[..k];
      received := received + taken;
      buffer := buffer[k..];
    }

    /** A send that finds room. */
    method Push(m: Message)
      requires Sound(State()) && !closed && |buffer| < CAPACITY
      modifies this
      ensures Sound(State()) && State() == Send(old(State()), m) && !closed
    {
      SendSound(State(), m);
      hide Sound;
      buffer := buffer + [m];
      offered := offered + [m];
    }

    /** Take the oldest message and throw it away, if there is one. */
    method DropOldest()
      requires Sound(State())
      modifies this
      ensures Sound(State()) && State() == Drop(old(State())) && closed == old(closed)
    {
      DropSound(State());
      hide Sound;
      if buffer != [] {
        lost := lost + {|offered| - |buffer|};
        buffer := buffer[1..];
      }
    }

    /** One message to this subscriber. */
    method Publish(m: Message, d: Drains)
      requires Sound(State()) && !closed
      modifies this
      ensures Sound(State()) && State() == Offer(old(State()), m, d) && !closed
    {
      OfferSound(State(), m, d);
      hide Sound, Receive, Drop, Send;
      var _ := Take(d.before0);
      if |buffer| >= CAPACITY {
        var _ := Take(d.before1);
        DropOldest();
        var _ := Take(d.before2);
      }
      Push(m);
    }

    method Close()
      requires !closed
      modifies this`closed
      ensures closed
    {
      closed := true;
    }
  }

  // ---------------------------------------------------------------- the broker

  class Broker {
    var next: nat
    var subs: map<nat, Channel>

    /** Every registered channel is open, and no two registrations share one. */
    ghost predicate Valid()
      reads this, subs.Values
    {
      && (forall id :: id in subs ==> id <= next && Sound(subs[id].State()) && !subs[id].closed)
      && (forall i, j :: i in subs && j in subs && subs[i] == subs[j] ==> i == j)
    }

    constructor ()
      ensures Valid() && subs == map[]
    {
      next, subs := 0, map[];
    }

    method Subscribe() returns (id: nat, ch: Channel)
      requires Valid()
      modifies this
      ensures Valid() && fresh(ch) && id !in old(subs) && subs == old(subs)[id := ch]
      ensures !ch.closed && ch.State() == View([], [], {}, [])
    {
      next := next + 1;
      ch := new Channel();
      subs := subs[next := ch];
      id := next;
    }

    /** One subscription's turn. */
    method PublishTo(id: nat, m: Message, d: Drains)
      requires Valid() && id in subs
      modifies subs[id]
      ensures Valid() && subs == old(subs) && subs[id].State() == Offer(old(subs[id].State()), m, d)
      ensures forall i :: i in subs && i != id ==> subs[i].State() == old(subs[i].State())
    {
      hide Sound, Offer;
      assert subs[id] in subs.Values;
      subs[id].Publish(m, d);
    }

    /** `drains` says how many messages each consumer takes before each of the three selects. */
    method Publish(m: Message, drains: nat -> Drains)
      requires Valid()
      modifies subs.Values
      ensures Valid() && subs == old(subs)
      ensures forall id :: id in subs ==> subs[id].State() == Offer(old(subs[id].State()), m, drains(id))
    {
      hide Sound, Offer, Valid;
      var todo := subs.Keys;
      while todo != {}
        invariant todo <= subs.Keys && subs == old(subs) && Valid()
        invariant forall id :: id in todo ==> subs[id].State() == old(subs[id].State())
        invariant forall id :: id in subs && id !in todo ==>
                    subs[id].State() == Offer(old(subs[id].State()), m, drains(id))
        decreases |todo|
      {
        var id :| id in todo;
        todo := todo - {id};
        assert subs[id] in subs.Values;
        PublishTo(id, m, drains(id));
      }
    }

    /** Close and forget a subscription; an unknown ID is ignored. */
    method Unsubscribe(id: nat)
      requires Valid()
      modifies this, subs.Values
      ensures Valid() && subs == old(subs) - {id}
      ensures id in old(subs) ==> old(subs)[id].closed && old(subs)[id].State() == old(subs[id].State())
      ensures forall i :: i in subs ==> unchanged(subs[i])
    {
      if id in subs {
        var ch := subs[id];
        assert ch in subs.Values;
        subs := subs - {id};
        ch.Close();
      }
    }
  }
}
