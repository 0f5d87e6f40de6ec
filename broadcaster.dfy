/**
 The broadcaster itself: the state its control loop owns (the registry of
 subscriber endpoints, the timeout, whether the value queue and the
 subscription path are closed) and one handler per event the loop reacts to.
 Every method is proved to leave the state that the functions of module
 WaitSet describe, so the lemmas proved there are facts about these methods.

 The control loop is a single task, so each handler runs to completion
 before the next event; events, the answers of the multi-way wait and the
 readiness of probed receivers are inputs. Which endpoints are closed is the
 field `closedEndpoints`: the broadcaster adds to it when it closes an
 endpoint, and a subscriber that closes its own endpoint is modelled by a
 call of `CloseEndpoint` between events.
 */
module Broadcast {
  import opened Sequences
  import opened WaitSet

  /** A Go `time.Duration`: a signed 64-bit count of nanoseconds. */
  newtype Duration = x: int | -0x8000_0000_0000_0000 <= x < 0x8000_0000_0000_0000

  /** The default round timeout, the largest duration, which in practice never expires. */
  const NoTimeout: Duration := 0x7FFF_FFFF_FFFF_FFFF

  /** What closing an endpoint did: closed it, or found it closed already (the panic that is swallowed). */
  datatype CloseOutcome = ClosedNow | AlreadyClosed

  /** An event the control loop reacts to. */
  datatype Event<T> =
    | Value(v: T)           // a value received from the value queue
    | QueueClosed           // the value queue is closed and drained
    | Subscription(ch: Endpoint)

  class Broadcaster<T(!new)> {
    /** The subscriber endpoints, in subscription order, duplicates allowed. */
    var registry: seq<Endpoint>
    /** How long one round waits for slow subscribers. */
    var timeout: Duration
    /** The capacity of the value queue. */
    const capacity: nat
    /** The value queue has been closed by Close. */
    var valuesClosed: bool
    /** The subscription path has been closed by teardown. */
    var subscriptionsClosed: bool
    /** The endpoints that are closed, by the broadcaster or by their subscriber. */
    var closedEndpoints: set<Endpoint>

    /** Teardown only follows the close of the value queue, and it leaves every registered endpoint closed. */
    ghost predicate Valid()
      reads this
    {
      subscriptionsClosed ==> valuesClosed && forall e :: e in registry ==> e in closedEndpoints
    }

    /** New: an empty, open broadcaster whose value queue holds n values and whose rounds never time out. */
    constructor(n: nat)
      ensures Valid()
      ensures registry == [] && timeout == NoTimeout && capacity == n
      ensures !valuesClosed && !subscriptionsClosed && closedEndpoints == {}
    {
      registry := [];
      timeout := NoTimeout;
      capacity := n;
      valuesClosed := false;
      subscriptionsClosed := false;
      closedEndpoints := {};
    }

    /** WithTimeout: sets the round timeout and returns the same broadcaster, for chaining. */
    method WithTimeout(d: Duration) returns (b: Broadcaster<T>)
      modifies this`timeout
      ensures old(Valid()) ==> Valid()
      ensures b == this && timeout == d
    {
      timeout := d;
      b := this;
    }

    /** The run loop taking a subscription: the endpoint joins the tail of the registry, without a duplicate check. */
    method OnSubscribe(ch: Endpoint)
      requires Valid() && !subscriptionsClosed
      modifies this`registry
      ensures Valid()
      ensures registry == old(registry) + [ch]
    {
      registry := registry + [ch];
    }

    /** Closes endpoint e, swallowing the failure when it is closed already. */
    method CloseEndpoint(e: Endpoint) returns (outcome: CloseOutcome)
      modifies this`closedEndpoints
      ensures old(Valid()) ==> Valid()
      ensures closedEndpoints == old(closedEndpoints) + {e}
      ensures outcome == if e in old(closedEndpoints) then AlreadyClosed else ClosedNow
    {
      outcome := if e in closedEndpoints then AlreadyClosed else ClosedNow;
      closedEndpoints := closedEndpoints + {e};
    }

    /** The linear search for the first registry entry equal to ch; |registry| when there is none. */
    method FindSubscriber(ch: Endpoint) returns (j: nat)
      ensures j == FirstIndex(registry, ch)
    {
      j := 0;
      while j < |registry| && registry[j] != ch
        invariant j <= |registry|
        invariant forall k :: 0 <= k < j ==> registry[k] != ch
      {
        j := j + 1;
      }
      FirstIndexOnly(registry, ch, j);
    }

    /** Removes the first registry entry equal to ch, if any, and says whether there was one. */
    method RemoveSubscriber(ch: Endpoint) returns (found: bool)
      modifies this`registry
      ensures registry == RemoveFirst(old(registry), ch)
      ensures found <==> ch in old(registry)
    {
      var j := FindSubscriber(ch);
      if j < |registry| {
        registry := registry[..j] + registry[j + 1..];
        found := true;
      } else {
        found := false;
      }
    }

    /** The wait-set of a round for value v: the timer, then a send of v to each registry entry, in registry order. */
    method PrepareCases(v: T) returns (cases: seq<Case<T>>)
      ensures cases == Offer(registry, v)
    {
      cases := [Timer];
      for i := 0 to |registry|
        invariant |cases| == i + 1 && cases[0] == Timer
        invariant forall k :: 1 <= k <= i ==> cases[k] == Send(registry[k - 1], v)
      {
        cases := cases + [Send(registry[i], v)];
      }
    }

    /**
     The probe pass after a failed wait: walks the sends from index 1, each
     probed once with the next readiness answer; a send that went through
     leaves the wait-set, a blocked one stays and the walk moves past it, and
     a closed one leaves the wait-set and has its first registry entry removed
     (without closing it).
     */
    method ProbeAll(c: seq<Case<T>>, ready: seq<bool>) returns (cases: seq<Case<T>>)
      requires IsWaitSet(c) && |ready| == |c| - 1
      modifies this`registry
      ensures var s := ProbePass(c, ready, closedEndpoints);
        cases == s.cases && registry == RemoveEach(old(registry), s.dropped)
    {
      TailIsSends(c);
      ghost var closed := closedEndpoints;
      ghost var tail := c[1..];
      cases := c;
      var i, n := 1, 0;
      ghost var kept: seq<Case<T>>, gone: seq<Endpoint> := [], [];
      while i < |cases|
        invariant n <= |tail| && Probed(tail, ready, closed, n) == (kept, gone) && closedEndpoints == closed
        invariant cases == [c[0]] + kept + tail[n..] && i == 1 + |kept|
        invariant registry == RemoveEach(old(registry), gone)
        decreases |cases| - i
      {
        WalkStep(c, ready, closed, n, kept, gone, cases, i);
        ghost var x := cases[i];
        ghost var p := TrySend(x, closed, ready[n]);
        if p == Closed {
          RemoveEachSnoc(old(registry), gone, x.ch);
        }
        cases, i := ProbeOne(cases, i, ready[n]);
        kept, gone := Grow(kept, gone, x, p).0, Grow(kept, gone, x, p).1;
        n := n + 1;
      }
      assert tail[n..] == [] && n == |tail|;
      ProbedAll(c, ready, closed, kept, gone);
    }

    /**
     One step of the probe walk: probes the send at index i of cases with
     receiver readiness ready; a send that went through leaves the wait-set,
     a blocked one stays and the walk moves past it, and a closed one leaves
     the wait-set and has its first registry entry removed.
     */
    method ProbeOne(cases: seq<Case<T>>, i: nat, ready: bool) returns (next: seq<Case<T>>, j: nat)
      requires 1 <= i < |cases| && cases[i].Send?
      modifies this`registry
      ensures var p := TrySend(cases[i], closedEndpoints, ready);
        && next == (if p == Blocked then cases else cases[..i] + cases[i + 1..])
        && j == (if p == Blocked then i + 1 else i)
        && registry == if p == Closed then RemoveFirst(old(registry), cases[i].ch) else old(registry)
    {
      next, j := cases, i;
      match TrySend(cases[i], closedEndpoints, ready) {
        case Done =>
          next := cases[..i] + cases[i + 1..];
        case Blocked =>
          j := i + 1;
        case Closed =>
          var _ := RemoveSubscriber(cases[i].ch);
          next := cases[..i] + cases[i + 1..];
      }
    }

    /**
     doSelect: one wait step on wait-set c, r being what the multi-way wait
     reported. The timer reports the timeout and leaves c as it is; a send
     that went through leaves c; a failure runs the probe pass.
     */
    method DoSelect(c: seq<Case<T>>, r: SelectResult) returns (cases: seq<Case<T>>, timedOut: bool)
      requires IsWaitSet(c) && |c| > 1 && ValidSelect(c, r, closedEndpoints)
      modifies this`registry
      ensures var s := Step(c, r, closedEndpoints);
        cases == s.cases && timedOut == s.timedOut && registry == RemoveEach(old(registry), s.dropped)
    {
      match r
      case Chosen(k) =>
        if k == 0 {
          return c, true;
        }
        cases, timedOut := c[..k] + c[k + 1..], false;
      case Failed(ready) =>
        cases := ProbeAll(c, ready);
        timedOut := false;
    }

    /**
     broadcast: offers v to every registry entry, runs wait steps until no
     send is outstanding or the timer fires (step t asks the oracle), then
     removes from the registry the first entry of each endpoint still
     outstanding and closes it.
     */
    method Broadcast(v: T, oracle: Oracle<T>)
      requires OracleValid(oracle, closedEndpoints)
      modifies this`registry, this`closedEndpoints
      ensures var d := Deliver(old(registry), v, old(closedEndpoints), oracle);
        && registry == d.registry
        && closedEndpoints == old(closedEndpoints) + Elements(d.evicted)
    {
      ghost var closed := closedEndpoints;
      ghost var round := Round(Offer(registry, v), registry, [], [], closed, oracle, 0);
      OfferAccounted(registry, v, closed);
      RoundKeepsAccounts(registry, Offer(registry, v), registry, [], [], closed, oracle, 0);
      var cases := PrepareCases(v);
      var t: nat := 0;
      ghost var accepted: seq<Endpoint>, dropped: seq<Endpoint> := [], [];
      while |cases| > 1
        invariant IsWaitSet(cases) && closedEndpoints == closed
        invariant Round(cases, registry, accepted, dropped, closed, oracle, t) == round
        decreases |cases|
      {
        ghost var s := Step(cases, oracle(t, cases), closed);
        var timedOut;
        cases, timedOut := DoSelect(cases, oracle(t, cases));
        if timedOut {
          break;
        }
        accepted, dropped := accepted + s.accepted, dropped + s.dropped;
        t := t + 1;
      }
      assert cases == round.cases && registry == round.registry;
      Evict(cases, round.accepted);
    }

    /**
     The end of a round: for each send still outstanding in cases, removes
     the first registry entry of its endpoint and closes that endpoint. Every
     such endpoint is found, because the registry holds exactly the
     outstanding endpoints and those that accepted the value.
     */
    method Evict(cases: seq<Case<T>>, ghost accepted: seq<Endpoint>)
      requires IsWaitSet(cases) && AllSends(cases[1..])
      requires multiset(registry) == multiset(Ends(cases[1..])) + multiset(accepted)
      modifies this`registry, this`closedEndpoints
      ensures registry == RemoveEach(old(registry), Ends(cases[1..]))
      ensures closedEndpoints == old(closedEndpoints) + Elements(Ends(cases[1..]))
    {
      ghost var ends := Ends(cases[1..]);
      var k := 1;
      while k < |cases|
        invariant 1 <= k <= |cases|
        invariant registry == RemoveEach(old(registry), ends[..k - 1])
        invariant closedEndpoints == old(closedEndpoints) + Elements(ends[..k - 1])
        invariant multiset(registry) == multiset(ends[k - 1..]) + multiset(accepted)
      {
        var ch := cases[k].ch;
        assert ch == ends[k - 1];
        Advance(ends, k - 1);
        TakeFirst(registry, ends[k - 1..], accepted);
        RemoveEachSnoc(old(registry), ends[..k - 1], ch);
        var found := RemoveSubscriber(ch);
        if found {
          var _ := CloseEndpoint(ch);
        }
        k := k + 1;
      }
      assert ends[..k - 1] == ends;
    }

    /** destroy: closes the subscription path, then every registry entry's endpoint, each close on its own. */
    method Destroy()
      requires valuesClosed
      modifies this`subscriptionsClosed, this`closedEndpoints
      ensures Valid()
      ensures subscriptionsClosed
      ensures closedEndpoints == old(closedEndpoints) + Elements(registry)
    {
      subscriptionsClosed := true;
      for i := 0 to |registry|
        invariant subscriptionsClosed
        invariant closedEndpoints == old(closedEndpoints) + Elements(registry[..i])
      {
        assert registry[..i + 1] == registry[..i] + [registry[i]];
        var _ := CloseEndpoint(registry[i]);
      }
      assert registry[..|registry|] == registry;
    }

    /**
     One iteration of the run loop: a value is broadcast, a subscription is
     registered, and the close of the value queue tears the broadcaster down
     and ends the loop.
     */
    method Handle(ev: Event<T>, oracle: Oracle<T>) returns (running: bool)
      requires Valid() && !subscriptionsClosed
      requires ev.QueueClosed? ==> valuesClosed
      requires ev.Value? ==> OracleValid(oracle, closedEndpoints)
      modifies this`registry, this`closedEndpoints, this`subscriptionsClosed
      ensures Valid()
      ensures running <==> !ev.QueueClosed?
      ensures subscriptionsClosed <==> ev.QueueClosed?
      ensures match ev
        case Value(v) =>
          var d := Deliver(old(registry), v, old(closedEndpoints), oracle);
          registry == d.registry && closedEndpoints == old(closedEndpoints) + Elements(d.evicted)
        case Subscription(ch) =>
          registry == old(registry) + [ch] && closedEndpoints == old(closedEndpoints)
        case QueueClosed =>
          registry == old(registry) && closedEndpoints == old(closedEndpoints) + Elements(registry)
    {
      match ev
      case Value(v) =>
        Broadcast(v, oracle);
        running := true;
      case Subscription(ch) =>
        OnSubscribe(ch);
        running := true;
      case QueueClosed =>
        Destroy();
        running := false;
    }

    /** Close: closes the value queue; closing it again is swallowed. */
    method Close()
      requires Valid()
      modifies this`valuesClosed
      ensures Valid() && valuesClosed
    {
      valuesClosed := true;
    }

    /**
     Subscribe: hands ch to the run loop, which registers it; once teardown
     has closed the subscription path it reports an error and registers
     nothing.
     */
    method Subscribe(ch: Endpoint) returns (ok: bool)
      requires Valid()
      modifies this`registry
      ensures Valid()
      ensures ok <==> !subscriptionsClosed
      ensures registry == if ok then old(registry) + [ch] else old(registry)
    {
      if subscriptionsClosed {
        ok := false;
      } else {
        OnSubscribe(ch);
        ok := true;
      }
    }
  }
}
