/**
 The probe pass as the code writes it, for a round value that `reflect`
 cannot send. `trySend` reports "closed" for every panic of its one-case
 select, not only for the send on a closed endpoint; and a send case whose
 value is the zero `reflect.Value` (what `reflect.ValueOf` gives for a nil
 interface value) makes every select over it panic. So a broadcast of nil on
 a `Broadcaster[any]` probes every subscriber as closed and drops all of them
 from the registry, though none is closed.

 The rest of the model uses `WaitSet.TrySend`, where only a closed endpoint
 probes closed and a nil value is delivered like any other.
 */
module Unsendable {
  import opened Sequences
  import opened WaitSet

  /**
   trySend as written: a value that cannot be sent panics the select, and
   any panic is reported as a closed endpoint; for a sendable value it is
   the classification of `TrySend`.
   */
  function TrySendAsWritten<T>(c: Case<T>, closed: set<Endpoint>, ready: bool, sendable: bool): (p: Probe)
    requires c.Send?
    ensures sendable ==> p == TrySend(c, closed, ready)
    ensures !sendable ==> p == Closed
  {
    if !sendable || c.ch in closed then Closed else if ready then Done else Blocked
  }

  /** The probe results of the sends cs as written, the j-th with readiness ready[j]. */
  function ProbesAsWritten<T>(cs: seq<Case<T>>, ready: seq<bool>, closed: set<Endpoint>, sendable: bool): (ps: seq<Probe>)
    requires AllSends(cs) && |ready| == |cs|
    ensures |ps| == |cs|
    ensures forall j :: 0 <= j < |cs| ==> ps[j] == TrySendAsWritten(cs[j], closed, ready[j], sendable)
  {
    seq(|cs|, j requires 0 <= j < |cs| => TrySendAsWritten(cs[j], closed, ready[j], sendable))
  }

  /** The probe pass of doSelect as written: the walk of `ProbePass`, with every probe classified by trySend as written. */
  function ProbePassAsWritten<T>(ws: seq<Case<T>>, ready: seq<bool>, closed: set<Endpoint>, sendable: bool): StepResult<T>
    requires IsWaitSet(ws) && |ready| == |ws| - 1
  {
    TailIsSends(ws);
    var tail := ws[1..];
    var ps := ProbesAsWritten(tail, ready, closed, sendable);
    StepResult([ws[0]] + Pick(tail, ps, Blocked), false, Ends(Pick(tail, ps, Done)), Ends(Pick(tail, ps, Closed)))
  }

  /** For a sendable value the pass as written is the modelled probe pass. */
  lemma SendableAsModelled<T>(ws: seq<Case<T>>, ready: seq<bool>, closed: set<Endpoint>)
    requires IsWaitSet(ws) && |ready| == |ws| - 1
    ensures ProbePassAsWritten(ws, ready, closed, true) == ProbePass(ws, ready, closed)
  {
    TailIsSends(ws);
    var tail := ws[1..];
    assert ProbesAsWritten(tail, ready, closed, true) == Probes(tail, ready, closed);
  }

  /** Picking the outcome every probe has keeps every case. */
  lemma {:induction false} PickEvery<T>(cs: seq<Case<T>>, ps: seq<Probe>, o: Probe)
    requires |ps| == |cs| && forall j :: 0 <= j < |ps| ==> ps[j] == o
    ensures Pick(cs, ps, o) == cs
    decreases |cs|
  {
    if cs != [] {
      var n := |cs| - 1;
      PickEvery(cs[..n], ps[..n], o);
      assert cs[..n] + [cs[n]] == cs;
    }
  }

  /** Picking an outcome no probe has keeps nothing. */
  lemma {:induction false} PickNone<T>(cs: seq<Case<T>>, ps: seq<Probe>, o: Probe)
    requires |ps| == |cs| && forall j :: 0 <= j < |ps| ==> ps[j] != o
    ensures Pick(cs, ps, o) == []
    decreases |cs|
  {
    if cs != [] {
      var n := |cs| - 1;
      PickNone(cs[..n], ps[..n], o);
    }
  }

  /**
   For a value that cannot be sent, the probe pass as written empties the
   wait-set down to the timer and drops every registry entry, closed or not;
   the registry the pass leaves is empty.
   */
  lemma UnsendableDropsEveryone<T>(registry: seq<Endpoint>, v: T, ready: seq<bool>, closed: set<Endpoint>)
    requires |ready| == |registry|
    ensures var s := ProbePassAsWritten(Offer(registry, v), ready, closed, false);
      && s.cases == [Timer] && s.accepted == [] && s.dropped == registry
      && RemoveEach(registry, s.dropped) == []
  {
    var ws := Offer(registry, v);
    var tail := ws[1..];
    var ps := ProbesAsWritten(tail, ready, closed, false);
    PickEvery(tail, ps, Closed);
    PickNone(tail, ps, Blocked);
    PickNone(tail, ps, Done);
    RemoveEachMultiset(registry, registry);
    assert |RemoveEach(registry, registry)| == |multiset(RemoveEach(registry, registry))| == 0;
  }

  /**
   A concrete broadcast of a nil value to one open subscriber 7: the pass
   as written drops endpoint 7 although it is not closed, which the modelled
   pass never does (`WaitSet.ProbePassAccounts`).
   */
  lemma NilValueDropsOpenEndpoint()
    ensures var s := ProbePassAsWritten(Offer([7], 0), [true], {}, false);
      7 in s.dropped && 7 !in s.accepted
    ensures var s := ProbePass(Offer([7], 0), [true], {});
      7 !in s.dropped && 7 in s.accepted
  {
    UnsendableDropsEveryone([7], 0, [true], {});
    var ws := Offer([7], 0);
    var tail := ws[1..];
    var ps := Probes(tail, [true], {});
    assert ps == [Done];
    PickEvery(tail, ps, Done);
    PickNone(tail, ps, Closed);
  }
}
