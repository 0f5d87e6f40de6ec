/**
 The multicast round of the broadcaster as pure functions: the wait-set that
 `broadcast` hands to the multi-way wait, what one wait step (`doSelect`)
 does to it, the fallback probe pass that runs when the wait fails on a
 closed endpoint, the whole select loop of a round, and the post-round
 eviction. The class in module Broadcast runs the same steps imperatively and
 is proved to end in the states these functions compute.

 Channel readiness is not computed here: which case the wait picks, and
 whether the receiver of a probed send was ready, are given as inputs
 (a `SelectResult`, an `Oracle`). Which endpoints are closed is state
 (`closed`), because it decides both whether the wait can fail and what a
 probe reports.
 */
module WaitSet {
  import opened Sequences

  /** A subscriber endpoint (the channel a subscriber registered), by identity. */
  type Endpoint = nat

  /** One case of the multi-way wait: the round's timer, or a send of value to endpoint ch. */
  datatype Case<T> = Timer | Send(ch: Endpoint, value: T)

  /** The three outcomes of a non-blocking send attempt (trySend). */
  datatype Probe = Blocked | Done | Closed

  /**
   What the multi-way wait reported: the index of the case that fired, or a
   failure because a send targets a closed endpoint. With a failure comes, for
   the j-th outstanding send visited by the probe pass, whether its receiver
   was ready to take the value.
   */
  datatype SelectResult = Chosen(index: nat) | Failed(ready: seq<bool>)

  /** The wait's answer at step t of a round, for the wait-set it is given. */
  type Oracle<!T> = (nat, seq<Case<T>>) -> SelectResult

  /** The shape of a wait-set: the timer at index 0, sends after it. */
  predicate IsWaitSet<T>(ws: seq<Case<T>>)
  {
    |ws| >= 1 && ws[0].Timer? && forall k :: 1 <= k < |ws| ==> ws[k].Send?
  }

  predicate AllSends<T>(cs: seq<Case<T>>)
  {
    forall k :: 0 <= k < |cs| ==> cs[k].Send?
  }

  /** The endpoints the sends cs go to, in order. */
  function Ends<T>(cs: seq<Case<T>>): (es: seq<Endpoint>)
    requires AllSends(cs)
    ensures |es| == |cs| && forall k :: 0 <= k < |cs| ==> es[k] == cs[k].ch
  {
    seq(|cs|, k requires 0 <= k < |cs| => cs[k].ch)
  }

  lemma EndsAppend<T>(xs: seq<Case<T>>, ys: seq<Case<T>>)
    requires AllSends(xs) && AllSends(ys)
    ensures AllSends(xs + ys) && Ends(xs + ys) == Ends(xs) + Ends(ys)
  {
  }

  /** The send cases of a wait-set, after the timer. */
  lemma TailIsSends<T>(ws: seq<Case<T>>)
    requires IsWaitSet(ws)
    ensures AllSends(ws[1..])
  {
  }

  /**
   The wait-set a round starts from: the timer, then one send of v for each
   registry entry, in registry order.
   */
  function Offer<T>(registry: seq<Endpoint>, v: T): (ws: seq<Case<T>>)
    ensures IsWaitSet(ws) && |ws| == |registry| + 1
    ensures forall k :: 1 <= k < |ws| ==> ws[k] == Send(registry[k - 1], v)
    ensures AllSends(ws[1..]) && Ends(ws[1..]) == registry
  {
    var ws := [Timer] + seq(|registry|, k requires 0 <= k < |registry| => Send(registry[k], v));
    TailIsSends(ws);
    ws
  }

  /**
   trySend: a closed endpoint panics the send, a ready receiver takes it,
   otherwise it would block. The round value is taken to be sendable; the
   code's classification for any value is `Unsendable.TrySendAsWritten`.
   */
  function TrySend<T>(c: Case<T>, closed: set<Endpoint>, ready: bool): Probe
    requires c.Send?
  {
    if c.ch in closed then Closed else if ready then Done else Blocked
  }

  /** The probe results for the sends cs, the j-th with readiness ready[j]. */
  function Probes<T>(cs: seq<Case<T>>, ready: seq<bool>, closed: set<Endpoint>): (ps: seq<Probe>)
    requires AllSends(cs) && |ready| == |cs|
    ensures |ps| == |cs|
    ensures forall j :: 0 <= j < |cs| ==> ps[j] == TrySend(cs[j], closed, ready[j])
  {
    seq(|cs|, j requires 0 <= j < |cs| => TrySend(cs[j], closed, ready[j]))
  }

  /** The cases of cs whose probe result is o, in their order in cs. */
  function Pick<T>(cs: seq<Case<T>>, ps: seq<Probe>, o: Probe): (r: seq<Case<T>>)
    requires |ps| == |cs|
    ensures |r| <= |cs|
    ensures AllSends(cs) ==> AllSends(r)
    decreases |cs|
  {
    if cs == [] then []
    else
      var n := |cs| - 1;
      Pick(cs[..n], ps[..n], o) + (if ps[n] == o then [cs[n]] else [])
  }

  /** Every picked case is a case of cs whose probe result is o. */
  lemma {:induction false} PickMembers<T>(cs: seq<Case<T>>, ps: seq<Probe>, o: Probe)
    requires |ps| == |cs|
    ensures forall c :: c in Pick(cs, ps, o) ==> exists j :: 0 <= j < |cs| && cs[j] == c && ps[j] == o
    decreases |cs|
  {
    if cs != [] {
      var n := |cs| - 1;
      var r := Pick(cs[..n], ps[..n], o);
      PickMembers(cs[..n], ps[..n], o);
      forall c | c in Pick(cs, ps, o) ensures exists j :: 0 <= j < |cs| && cs[j] == c && ps[j] == o {
        if c in r {
          var j :| 0 <= j < n && cs[..n][j] == c && ps[..n][j] == o;
          assert cs[j] == c && ps[j] == o;
        } else {
          assert cs[n] == c && ps[n] == o;
        }
      }
    }
  }

  /** Picking from cs extended by one case extends the pick by that case exactly when its probe is o. */
  lemma PickSnoc<T>(cs: seq<Case<T>>, ps: seq<Probe>, o: Probe)
    requires |ps| == |cs| > 0 && AllSends(cs)
    ensures var n := |cs| - 1;
      Ends(Pick(cs, ps, o)) == Ends(Pick(cs[..n], ps[..n], o)) + (if ps[n] == o then [cs[n].ch] else [])
  {
    var n := |cs| - 1;
    var last: seq<Case<T>> := if ps[n] == o then [cs[n]] else [];
    EndsAppend(Pick(cs[..n], ps[..n], o), last);
  }

  /** The picked cases keep their order in cs. */
  lemma {:induction false} PickSubsequence<T>(cs: seq<Case<T>>, ps: seq<Probe>, o: Probe)
    requires |ps| == |cs|
    ensures IsSubsequence(Pick(cs, ps, o), cs)
    decreases |cs|
  {
    if cs != [] {
      var n := |cs| - 1;
      var r := Pick(cs[..n], ps[..n], o);
      PickSubsequence(cs[..n], ps[..n], o);
      assert cs[..n] + [cs[n]] == cs;
      if ps[n] == o {
        SubsequenceSnoc(r, cs[..n], cs[n]);
        assert Pick(cs, ps, o) == r + [cs[n]];
      } else {
        SubsequenceExtend(r, cs[..n], cs[n]);
        assert Pick(cs, ps, o) == r + [];
        assert r + [] == r;
      }
    }
  }

  /** Probing one more send extends each of the three picks by at most that send, in order. */
  lemma PickGrow<T>(cs: seq<Case<T>>, ps: seq<Probe>, o: Probe, n: nat)
    requires |ps| == |cs| && n < |cs| && AllSends(cs)
    ensures Pick(cs[..n + 1], ps[..n + 1], o) == Pick(cs[..n], ps[..n], o) + (if ps[n] == o then [cs[n]] else [])
    ensures AllSends(cs[..n + 1]) && AllSends(Pick(cs[..n], ps[..n], o))
    ensures Ends(Pick(cs[..n + 1], ps[..n + 1], o)) == Ends(Pick(cs[..n], ps[..n], o)) + (if ps[n] == o then [cs[n].ch] else [])
  {
    assert cs[..n + 1][..n] == cs[..n] && ps[..n + 1][..n] == ps[..n];
    PickSnoc(cs[..n + 1], ps[..n + 1], o);
  }

  /**
   The probe walk itself: after the first n probes of the sends tail, the
   j-th with receiver readiness ready[j], the blocked sends kept so far and
   the endpoints of the closed ones, in visit order.
   */
  ghost function Probed<T>(tail: seq<Case<T>>, ready: seq<bool>, closed: set<Endpoint>, n: nat): (seq<Case<T>>, seq<Endpoint>)
    requires n <= |tail| && |ready| == |tail| && AllSends(tail)
  {
    if n == 0 then ([], [])
    else
      var (kept, gone) := Probed(tail, ready, closed, n - 1);
      match TrySend(tail[n - 1], closed, ready[n - 1])
      case Blocked => (kept + [tail[n - 1]], gone)
      case Done => (kept, gone)
      case Closed => (kept, gone + [tail[n - 1].ch])
  }

  /** The walk keeps exactly the blocked sends and drops exactly the closed ones, in order. */
  lemma {:induction false} ProbedIsPick<T>(tail: seq<Case<T>>, ready: seq<bool>, closed: set<Endpoint>, n: nat)
    requires n <= |tail| && |ready| == |tail| && AllSends(tail)
    ensures var ps := Probes(tail, ready, closed);
      && AllSends(Pick(tail[..n], ps[..n], Closed))
      && Probed(tail, ready, closed, n) == (Pick(tail[..n], ps[..n], Blocked), Ends(Pick(tail[..n], ps[..n], Closed)))
    decreases n
  {
    if n > 0 {
      var ps := Probes(tail, ready, closed);
      ProbedIsPick(tail, ready, closed, n - 1);
      PickGrow(tail, ps, Blocked, n - 1);
      PickGrow(tail, ps, Closed, n - 1);
      var kept, gone := Pick(tail[..n - 1], ps[..n - 1], Blocked), Ends(Pick(tail[..n - 1], ps[..n - 1], Closed));
      assert kept + [] == kept && gone + [] == gone;
    }
  }

  /** What one probe with outcome p adds to the kept sends and the dropped endpoints. */
  function Grow<T>(kept: seq<Case<T>>, gone: seq<Endpoint>, x: Case<T>, p: Probe): (seq<Case<T>>, seq<Endpoint>)
    requires x.Send?
  {
    match p
    case Blocked => (kept + [x], gone)
    case Done => (kept, gone)
    case Closed => (kept, gone + [x.ch])
  }

  /**
   One step of the walk over wait-set cases = c[0], the kept sends, then the
   sends not yet probed: the walk stands at the first unprobed send; a blocked
   send joins the kept ones, and a done or closed one is cut out.
   */
  lemma WalkStep<T>(c: seq<Case<T>>, ready: seq<bool>, closed: set<Endpoint>, n: nat, kept: seq<Case<T>>,
                    gone: seq<Endpoint>, cases: seq<Case<T>>, i: nat)
    requires IsWaitSet(c) && |ready| == |c| - 1 && n < |c| - 1 && AllSends(c[1..])
    requires Probed(c[1..], ready, closed, n) == (kept, gone)
    requires cases == [c[0]] + kept + c[1..][n..] && i == 1 + |kept|
    ensures i < |cases| && cases[i] == c[1..][n] && cases[i].Send?
    ensures var p := TrySend(cases[i], closed, ready[n]);
      var g := Grow(kept, gone, cases[i], p);
      && Probed(c[1..], ready, closed, n + 1) == g
      && (if p == Blocked then cases else cases[..i] + cases[i + 1..]) == [c[0]] + g.0 + c[1..][n + 1..]
  {
    var rest := c[1..][n..];
    assert rest[0] == c[1..][n] && rest[1..] == c[1..][n + 1..];
    assert cases[..i] == [c[0]] + kept;
    assert cases[i + 1..] == rest[1..];
    assert rest == [rest[0]] + rest[1..];
  }

  /** Once every send is probed, the walk has kept and dropped what the probe pass keeps and drops. */
  lemma ProbedAll<T>(ws: seq<Case<T>>, ready: seq<bool>, closed: set<Endpoint>, kept: seq<Case<T>>, gone: seq<Endpoint>)
    requires IsWaitSet(ws) && |ready| == |ws| - 1 && AllSends(ws[1..])
    requires Probed(ws[1..], ready, closed, |ws| - 1) == (kept, gone)
    ensures ProbePass(ws, ready, closed).cases == [ws[0]] + kept
    ensures ProbePass(ws, ready, closed).dropped == gone
  {
    var tail := ws[1..];
    var ps := Probes(tail, ready, closed);
    ProbedIsPick(tail, ready, closed, |tail|);
    assert tail[..|tail|] == tail && ps[..|tail|] == ps;
  }

  /**
   Every probed send lands in exactly one of the three classes: the endpoints
   of cs are those of the blocked, the done and the closed sends together.
   */
  lemma {:induction false} PickPartition<T>(cs: seq<Case<T>>, ps: seq<Probe>)
    requires |ps| == |cs| && AllSends(cs)
    ensures multiset(Ends(cs)) == multiset(Ends(Pick(cs, ps, Blocked))) + multiset(Ends(Pick(cs, ps, Done)))
                            + multiset(Ends(Pick(cs, ps, Closed)))
    decreases |cs|
  {
    if cs != [] {
      var n := |cs| - 1;
      var x := cs[n].ch;
      PickPartition(cs[..n], ps[..n]);
      assert cs == cs[..n] + [cs[n]];
      EndsAppend(cs[..n], [cs[n]]);
      PickSnoc(cs, ps, Blocked);
      PickSnoc(cs, ps, Done);
      PickSnoc(cs, ps, Closed);
      var e, b, d, c := Ends(cs[..n]), Ends(Pick(cs[..n], ps[..n], Blocked)), Ends(Pick(cs[..n], ps[..n], Done)),
                        Ends(Pick(cs[..n], ps[..n], Closed));
      assert Ends(cs) == e + [x];
      AddToOne(multiset(e), multiset(b), multiset(d), multiset(c), x);
      match ps[n] {
        case Blocked =>
          assert Ends(Pick(cs, ps, Blocked)) == b + [x];
          assert Ends(Pick(cs, ps, Done)) == d + [] == d && Ends(Pick(cs, ps, Closed)) == c + [] == c;
        case Done =>
          assert Ends(Pick(cs, ps, Done)) == d + [x];
          assert Ends(Pick(cs, ps, Blocked)) == b + [] == b && Ends(Pick(cs, ps, Closed)) == c + [] == c;
        case Closed =>
          assert Ends(Pick(cs, ps, Closed)) == c + [x];
          assert Ends(Pick(cs, ps, Blocked)) == b + [] == b && Ends(Pick(cs, ps, Done)) == d + [] == d;
      }
    }
  }

  /** Adding one entry to a sum of three multisets adds it to one of the three. */
  lemma AddToOne(e: multiset<Endpoint>, b: multiset<Endpoint>, d: multiset<Endpoint>, c: multiset<Endpoint>, x: Endpoint)
    requires e == b + d + c
    ensures e + multiset{x} == (b + multiset{x}) + d + c
    ensures e + multiset{x} == b + (d + multiset{x}) + c
    ensures e + multiset{x} == b + d + (c + multiset{x})
  {
  }

  /** A send whose probe result is o is among the cases picked for o. */
  lemma {:induction false} PickFinds<T>(cs: seq<Case<T>>, ps: seq<Probe>, o: Probe, j: nat)
    requires |ps| == |cs| && j < |cs| && ps[j] == o
    ensures cs[j] in Pick(cs, ps, o)
    decreases |cs|
  {
    var n := |cs| - 1;
    if j < n {
      PickFinds(cs[..n], ps[..n], o, j);
    }
  }

  /**
   What the multi-way wait can report for wait-set ws while the endpoints in
   closed are closed: any case index, but never a send to a closed endpoint
   (that send fails instead); a failure only when some send targets a closed
   endpoint, with one readiness answer per outstanding send. This is the
   wait for a sendable round value over at most 65536 cases; the wait also
   fails for a value it cannot send (module Unsendable) and for more cases
   than that, which the model does not cover.
   */
  predicate ValidSelect<T>(ws: seq<Case<T>>, r: SelectResult, closed: set<Endpoint>)
  {
    match r
    case Chosen(k) => k < |ws| && (k >= 1 ==> ws[k].Send? && ws[k].ch !in closed)
    case Failed(ready) =>
      |ready| == |ws| - 1 && exists k :: 1 <= k < |ws| && ws[k].Send? && ws[k].ch in closed
  }

  /**
   One wait step: the wait-set after it, whether it reported the timeout, the
   endpoints that accepted the value in it and those found closed (dropped).
   */
  datatype StepResult<T> = StepResult(cases: seq<Case<T>>, timedOut: bool, accepted: seq<Endpoint>, dropped: seq<Endpoint>)

  /**
   The fallback pass of doSelect: starting at index 1, each outstanding send
   is probed once, in order; done ones leave the wait-set, blocked ones stay,
   closed ones leave the wait-set and are dropped from the registry.
   */
  function ProbePass<T>(ws: seq<Case<T>>, ready: seq<bool>, closed: set<Endpoint>): (s: StepResult<T>)
    requires IsWaitSet(ws) && |ready| == |ws| - 1
    ensures IsWaitSet(s.cases) && AllSends(s.cases[1..]) && !s.timedOut
  {
    TailIsSends(ws);
    var tail := ws[1..];
    var ps := Probes(tail, ready, closed);
    var kept := Pick(tail, ps, Blocked);
    assert ([ws[0]] + kept)[1..] == kept;
    StepResult([ws[0]] + kept, false, Ends(Pick(tail, ps, Done)), Ends(Pick(tail, ps, Closed)))
  }

  /**
   The probe pass leaves in the wait-set only sends that probed blocked, and
   when the wait failed because of a closed endpoint, it removes at least
   that send.
   */
  lemma ProbePassKeepsBlocked<T>(ws: seq<Case<T>>, ready: seq<bool>, closed: set<Endpoint>)
    requires IsWaitSet(ws) && |ready| == |ws| - 1
    ensures var s := ProbePass(ws, ready, closed);
      && (forall k :: 1 <= k < |s.cases| ==>
            exists j :: 0 <= j < |ready| && s.cases[k] == ws[j + 1] && TrySend(ws[j + 1], closed, ready[j]) == Blocked)
      && ((exists k :: 1 <= k < |ws| && ws[k].ch in closed) ==> |s.cases| < |ws|)
  {
    var s := ProbePass(ws, ready, closed);
    var tail := ws[1..];
    var ps := Probes(tail, ready, closed);
    var kept := Pick(tail, ps, Blocked);
    assert s.cases == [ws[0]] + kept;
    forall k | 1 <= k < |s.cases|
      ensures exists j :: 0 <= j < |ready| && s.cases[k] == ws[j + 1] && TrySend(ws[j + 1], closed, ready[j]) == Blocked
    {
      assert s.cases[k] == kept[k - 1] && kept[k - 1] in kept;
      PickMembers(tail, ps, Blocked);
      var j :| 0 <= j < |tail| && tail[j] == kept[k - 1] && ps[j] == Blocked;
      assert tail[j] == ws[j + 1];
    }
    if exists k :: 1 <= k < |ws| && ws[k].ch in closed {
      var k :| 1 <= k < |ws| && ws[k].ch in closed;
      assert tail[k - 1] == ws[k] && ps[k - 1] == Closed;
      PickFinds(tail, ps, Closed, k - 1);
      ProbePassAccounts(ws, ready, closed);
      assert |Pick(tail, ps, Closed)| > 0;
      assert |multiset(Ends(tail))| == |multiset(Ends(kept))| + |multiset(s.accepted)| + |multiset(s.dropped)|;
    }
  }

  /**
   Every send the probe pass visits is kept, accepted or dropped, and it is
   dropped exactly when its endpoint is closed.
   */
  lemma ProbePassAccounts<T>(ws: seq<Case<T>>, ready: seq<bool>, closed: set<Endpoint>)
    requires IsWaitSet(ws) && |ready| == |ws| - 1
    ensures var s := ProbePass(ws, ready, closed);
      && multiset(Ends(ws[1..])) == multiset(Ends(s.cases[1..])) + multiset(s.accepted) + multiset(s.dropped)
      && (forall e :: e in s.dropped ==> e in closed)
      && (forall e :: e in s.accepted ==> e !in closed)
  {
    var s := ProbePass(ws, ready, closed);
    var tail := ws[1..];
    var ps := Probes(tail, ready, closed);
    PickPartition(tail, ps);
    assert s.cases[1..] == Pick(tail, ps, Blocked);
    forall e | e in s.dropped ensures e in closed {
      var i :| 0 <= i < |s.dropped| && s.dropped[i] == e;
      var c := Pick(tail, ps, Closed)[i];
      assert c in Pick(tail, ps, Closed);
      PickMembers(tail, ps, Closed);
      var j :| 0 <= j < |tail| && tail[j] == c && ps[j] == Closed;
    }
    forall e | e in s.accepted ensures e !in closed {
      var i :| 0 <= i < |s.accepted| && s.accepted[i] == e;
      var c := Pick(tail, ps, Done)[i];
      assert c in Pick(tail, ps, Done);
      PickMembers(tail, ps, Done);
      var j :| 0 <= j < |tail| && tail[j] == c && ps[j] == Done;
    }
  }

  /** Every visited send whose endpoint is closed is dropped by the probe pass, so the dropped endpoints are exactly the closed ones. */
  lemma ProbePassDropsClosed<T>(ws: seq<Case<T>>, ready: seq<bool>, closed: set<Endpoint>)
    requires IsWaitSet(ws) && |ready| == |ws| - 1
    ensures forall k :: 1 <= k < |ws| && ws[k].ch in closed ==> ws[k].ch in ProbePass(ws, ready, closed).dropped
  {
    TailIsSends(ws);
    var tail := ws[1..];
    var ps := Probes(tail, ready, closed);
    var gone := Pick(tail, ps, Closed);
    forall k | 1 <= k < |ws| && ws[k].ch in closed
      ensures ws[k].ch in ProbePass(ws, ready, closed).dropped
    {
      assert tail[k - 1] == ws[k] && ps[k - 1] == Closed;
      PickFinds(tail, ps, Closed, k - 1);
      var i :| 0 <= i < |gone| && gone[i] == ws[k];
      assert Ends(gone)[i] == ws[k].ch;
    }
  }

  /** Removing send k from a wait-set removes entry k - 1 from its endpoints. */
  lemma EndsRemoveAt<T>(ws: seq<Case<T>>, k: nat)
    requires IsWaitSet(ws) && 1 <= k < |ws|
    ensures IsWaitSet(RemoveAt(ws, k)) && AllSends(ws[1..]) && AllSends(RemoveAt(ws, k)[1..])
    ensures Ends(RemoveAt(ws, k)[1..]) == RemoveAt(Ends(ws[1..]), k - 1)
  {
    var cases := RemoveAt(ws, k);
    var a, b := Ends(cases[1..]), RemoveAt(Ends(ws[1..]), k - 1);
    assert |a| == |b|;
    forall i | 0 <= i < |a| ensures a[i] == b[i] {
      assert a[i] == cases[i + 1].ch;
    }
  }

  /**
   One call of doSelect on wait-set ws, given what the multi-way wait
   reported: the timer ends the round and leaves the wait-set as it is; a
   send that fired leaves the wait-set and nothing else moves; a failure runs
   the probe pass.
   */
  function Step<T>(ws: seq<Case<T>>, r: SelectResult, closed: set<Endpoint>): (s: StepResult<T>)
    requires IsWaitSet(ws) && |ws| > 1 && ValidSelect(ws, r, closed)
    ensures IsWaitSet(s.cases) && AllSends(s.cases[1..])
    ensures s.timedOut <==> r == Chosen(0)
    ensures s.timedOut ==> s.cases == ws && s.accepted == [] && s.dropped == []
    ensures !s.timedOut ==> |s.cases| < |ws|
    ensures r.Chosen? && r.index > 0 ==>
              && |s.cases| == |ws| - 1
              && (forall k :: 0 <= k < |s.cases| ==> s.cases[k] == if k < r.index then ws[k] else ws[k + 1])
              && s.accepted == [ws[r.index].ch] && s.dropped == []
  {
    match r
    case Chosen(k) =>
      if k == 0 then StepResult(ws, true, [], [])
      else
        TailIsSends(ws);
        EndsRemoveAt(ws, k);
        StepResult(RemoveAt(ws, k), false, [ws[k].ch], [])
    case Failed(ready) =>
      ProbePassKeepsBlocked(ws, ready, closed);
      ProbePass(ws, ready, closed)
  }

  /**
   Every send a wait step removes either accepted the value or was dropped;
   dropped endpoints are closed, accepting ones are not.
   */
  lemma StepAccounts<T>(ws: seq<Case<T>>, r: SelectResult, closed: set<Endpoint>)
    requires IsWaitSet(ws) && |ws| > 1 && ValidSelect(ws, r, closed)
    ensures var s := Step(ws, r, closed);
      && AllSends(ws[1..])
      && multiset(Ends(ws[1..])) == multiset(Ends(s.cases[1..])) + multiset(s.accepted) + multiset(s.dropped)
      && (forall e :: e in s.dropped ==> e in closed)
      && (forall e :: e in s.accepted ==> e !in closed)
  {
    TailIsSends(ws);
    match r
    case Chosen(k) =>
      if k > 0 {
        var s := Step(ws, r, closed);
        assert s.cases == RemoveAt(ws, k) && s.accepted == [ws[k].ch] && s.dropped == [];
        RemoveAtAccounts(ws, k);
        assert multiset(s.dropped) == multiset{};
      }
    case Failed(ready) =>
      ProbePassAccounts(ws, ready, closed);
  }

  /** Removing send k from a wait-set moves its endpoint out of the outstanding ones. */
  lemma RemoveAtAccounts<T>(ws: seq<Case<T>>, k: nat)
    requires IsWaitSet(ws) && 1 <= k < |ws|
    ensures AllSends(ws[1..]) && AllSends(RemoveAt(ws, k)[1..])
    ensures multiset(Ends(ws[1..])) == multiset(Ends(RemoveAt(ws, k)[1..])) + multiset([ws[k].ch])
  {
    var e := Ends(ws[1..]);
    EndsRemoveAt(ws, k);
    RemoveAtMultiset(e, k - 1);
    assert e[k - 1] == ws[k].ch;
    PutBack(multiset(e), ws[k].ch);
    assert multiset([ws[k].ch]) == multiset{ws[k].ch};
  }

  /** Taking out one copy of an entry and putting it back gives the same multiset. */
  lemma PutBack(m: multiset<Endpoint>, x: Endpoint)
    requires x in m
    ensures m == (m - multiset{x}) + multiset{x}
  {
  }

  /** A wait step keeps the timer at index 0 and the remaining sends in their order. */
  lemma StepKeepsOrder<T>(ws: seq<Case<T>>, r: SelectResult, closed: set<Endpoint>)
    requires IsWaitSet(ws) && |ws| > 1 && ValidSelect(ws, r, closed)
    ensures IsSubsequence(Step(ws, r, closed).cases, ws)
  {
    match r
    case Chosen(k) =>
      if k == 0 {
        SubsequenceRefl(ws);
      } else {
        RemoveAtSubsequence(ws, k);
      }
    case Failed(ready) =>
      TailIsSends(ws);
      var tail := ws[1..];
      var kept := Pick(tail, Probes(tail, ready, closed), Blocked);
      PickSubsequence(tail, Probes(tail, ready, closed), Blocked);
      var cases := Step(ws, r, closed).cases;
      assert cases == [ws[0]] + kept && cases[1..] == kept;
      assert ws[1..] == tail;
  }

  /** The wait's answers are possible ones for every wait-set it may be given. */
  ghost predicate OracleValid<T(!new)>(oracle: Oracle<T>, closed: set<Endpoint>)
  {
    forall t: nat, ws: seq<Case<T>> :: IsWaitSet(ws) && |ws| > 1 ==> ValidSelect(ws, oracle(t, ws), closed)
  }

  /** The state of a round: the wait-set, the registry and what happened to the sends so far. */
  datatype RoundState<T> = RoundState(
    cases: seq<Case<T>>, registry: seq<Endpoint>, accepted: seq<Endpoint>, dropped: seq<Endpoint>, timedOut: bool)

  /**
   The select loop of broadcast, from wait-set ws at step t on: while a send
   is outstanding, run one wait step; stop at once when it reports the
   timeout; drop the endpoints the step found closed from the registry.
   */
  function Round<T(!new)>(ws: seq<Case<T>>, registry: seq<Endpoint>, accepted: seq<Endpoint>, dropped: seq<Endpoint>,
                    closed: set<Endpoint>, oracle: Oracle<T>, t: nat): (r: RoundState<T>)
    requires IsWaitSet(ws) && OracleValid(oracle, closed)
    ensures IsWaitSet(r.cases) && |r.cases| <= |ws|
    ensures r.timedOut || |r.cases| == 1
    decreases |ws|
  {
    if |ws| == 1 then RoundState(ws, registry, accepted, dropped, false)
    else
      var s := Step(ws, oracle(t, ws), closed);
      if s.timedOut then RoundState(ws, registry, accepted, dropped, true)
      else Round(s.cases, RemoveEach(registry, s.dropped), accepted + s.accepted, dropped + s.dropped, closed, oracle, t + 1)
  }

  /**
   The bookkeeping a round keeps, measured against the registry reg0 it
   started from: every registry entry is an outstanding send or an endpoint
   that accepted the value; every entry of reg0 is in the registry or was
   dropped; the registry is reg0 with entries deleted, in the same order;
   dropped endpoints are closed and accepting ones are not.
   */
  ghost predicate Accounted<T>(reg0: seq<Endpoint>, ws: seq<Case<T>>, registry: seq<Endpoint>,
                               accepted: seq<Endpoint>, dropped: seq<Endpoint>, closed: set<Endpoint>)
  {
    && IsWaitSet(ws)
    && AllSends(ws[1..])
    && multiset(registry) == multiset(Ends(ws[1..])) + multiset(accepted)
    && multiset(reg0) == multiset(registry) + multiset(dropped)
    && IsSubsequence(registry, reg0)
    && (forall e :: e in dropped ==> e in closed)
    && (forall e :: e in accepted ==> e !in closed)
  }

  /** The multiset arithmetic behind one step of the bookkeeping. */
  lemma Rebalance(registry: multiset<Endpoint>, sends: multiset<Endpoint>, accepted: multiset<Endpoint>,
                  sends': multiset<Endpoint>, accepted': multiset<Endpoint>, dropped': multiset<Endpoint>,
                  reg0: multiset<Endpoint>, dropped: multiset<Endpoint>)
    requires registry == sends + accepted && sends == sends' + accepted' + dropped'
    requires reg0 == registry + dropped
    ensures registry - dropped' == sends' + (accepted + accepted')
    ensures reg0 == (registry - dropped') + (dropped + dropped')
  {
  }

  /** A wait step that does not time out keeps the bookkeeping. */
  lemma StepKeepsAccounts<T>(reg0: seq<Endpoint>, ws: seq<Case<T>>, registry: seq<Endpoint>,
                             accepted: seq<Endpoint>, dropped: seq<Endpoint>, closed: set<Endpoint>, r: SelectResult)
    requires Accounted(reg0, ws, registry, accepted, dropped, closed)
    requires |ws| > 1 && ValidSelect(ws, r, closed)
    ensures var s := Step(ws, r, closed);
      Accounted(reg0, s.cases, RemoveEach(registry, s.dropped), accepted + s.accepted, dropped + s.dropped, closed)
  {
    var s := Step(ws, r, closed);
    StepAccounts(ws, r, closed);
    var registry' := RemoveEach(registry, s.dropped);
    RemoveEachMultiset(registry, s.dropped);
    RemoveEachSubsequence(registry, s.dropped);
    SubsequenceTrans(registry', registry, reg0);
    Rebalance(multiset(registry), multiset(Ends(ws[1..])), multiset(accepted),
              multiset(Ends(s.cases[1..])), multiset(s.accepted), multiset(s.dropped), multiset(reg0), multiset(dropped));
  }

  lemma {:induction false} RoundKeepsAccounts<T(!new)>(reg0: seq<Endpoint>, ws: seq<Case<T>>, registry: seq<Endpoint>,
                                                       accepted: seq<Endpoint>, dropped: seq<Endpoint>,
                                                       closed: set<Endpoint>, oracle: Oracle<T>, t: nat)
    requires OracleValid(oracle, closed)
    requires Accounted(reg0, ws, registry, accepted, dropped, closed)
    ensures var r := Round(ws, registry, accepted, dropped, closed, oracle, t);
      Accounted(reg0, r.cases, r.registry, r.accepted, r.dropped, closed)
    decreases |ws|
  {
    if |ws| > 1 {
      var s := Step(ws, oracle(t, ws), closed);
      if !s.timedOut {
        StepKeepsAccounts(reg0, ws, registry, accepted, dropped, closed, oracle(t, ws));
        RoundKeepsAccounts(reg0, s.cases, RemoveEach(registry, s.dropped), accepted + s.accepted, dropped + s.dropped,
                           closed, oracle, t + 1);
      }
    }
  }

  /** The wait-set of a round only loses sends; the timer and the remaining sends keep their order. */
  lemma {:induction false} RoundKeepsOrder<T(!new)>(ws: seq<Case<T>>, registry: seq<Endpoint>, accepted: seq<Endpoint>,
                                                    dropped: seq<Endpoint>, closed: set<Endpoint>, oracle: Oracle<T>, t: nat)
    requires IsWaitSet(ws) && OracleValid(oracle, closed)
    ensures IsSubsequence(Round(ws, registry, accepted, dropped, closed, oracle, t).cases, ws)
    decreases |ws|
  {
    var r := Round(ws, registry, accepted, dropped, closed, oracle, t);
    if |ws| == 1 {
      SubsequenceRefl(ws);
    } else {
      var s := Step(ws, oracle(t, ws), closed);
      StepKeepsOrder(ws, oracle(t, ws), closed);
      if s.timedOut {
        SubsequenceRefl(ws);
      } else {
        RoundKeepsOrder(s.cases, RemoveEach(registry, s.dropped), accepted + s.accepted, dropped + s.dropped,
                        closed, oracle, t + 1);
        SubsequenceTrans(r.cases, s.cases, ws);
      }
    }
  }

  /** What one broadcast did: the registry after it, and which endpoints accepted, were dropped or were evicted. */
  datatype Delivery = Delivery(
    registry: seq<Endpoint>, accepted: seq<Endpoint>, dropped: seq<Endpoint>, evicted: seq<Endpoint>, timedOut: bool)

  /**
   One broadcast of v over the registry: the select loop from the offer of v
   to every entry, then the eviction of every endpoint whose send is still
   outstanding (it is removed from the registry and closed).
   */
  function Deliver<T(!new)>(registry: seq<Endpoint>, v: T, closed: set<Endpoint>, oracle: Oracle<T>): (d: Delivery)
    requires OracleValid(oracle, closed)
    ensures d.evicted != [] ==> d.timedOut
  {
    var r := Round(Offer(registry, v), registry, [], [], closed, oracle, 0);
    TailIsSends(r.cases);
    var evicted := Ends(r.cases[1..]);
    Delivery(RemoveEach(r.registry, evicted), r.accepted, r.dropped, evicted, r.timedOut)
  }

  /**
   After a broadcast: the registry is the old one with entries deleted, in
   the same order, and holds exactly the endpoints that accepted the value;
   each old entry accepted, was dropped or was evicted; dropped endpoints are
   the closed ones, and evictions happen only when the timer fired.
   */
  lemma DeliverAccounts<T(!new)>(registry: seq<Endpoint>, v: T, closed: set<Endpoint>, oracle: Oracle<T>)
    requires OracleValid(oracle, closed)
    ensures var d := Deliver(registry, v, closed, oracle);
      && IsSubsequence(d.registry, registry)
      && multiset(d.registry) == multiset(d.accepted)
      && multiset(registry) == multiset(d.accepted) + multiset(d.dropped) + multiset(d.evicted)
      && (forall e :: e in d.dropped ==> e in closed)
      && (forall e :: e in d.accepted ==> e !in closed)
      && (d.evicted != [] ==> d.timedOut)
  {
    var ws := Offer(registry, v);
    OfferAccounted(registry, v, closed);
    RoundKeepsAccounts(registry, ws, registry, [], [], closed, oracle, 0);
    var r := Round(ws, registry, [], [], closed, oracle, 0);
    var d := Deliver(registry, v, closed, oracle);
    RemoveEachMultiset(r.registry, d.evicted);
    RemoveEachSubsequence(r.registry, d.evicted);
    SubsequenceTrans(d.registry, r.registry, registry);
    EvictBalance(multiset(r.registry), multiset(d.evicted), multiset(r.accepted), multiset(registry), multiset(r.dropped));
  }

  /** The offer of a value to every registry entry starts a round with nothing accounted for yet. */
  lemma OfferAccounted<T>(registry: seq<Endpoint>, v: T, closed: set<Endpoint>)
    ensures Accounted(registry, Offer(registry, v), registry, [], [], closed)
  {
    SubsequenceRefl(registry);
  }

  /** The multiset arithmetic behind the eviction at the end of a round. */
  lemma EvictBalance(registry: multiset<Endpoint>, evicted: multiset<Endpoint>, accepted: multiset<Endpoint>,
              reg0: multiset<Endpoint>, dropped: multiset<Endpoint>)
    requires registry == evicted + accepted && reg0 == registry + dropped
    ensures registry - evicted == accepted
    ensures reg0 == accepted + dropped + evicted
  {
  }

  /** The wait never reports the timer: the round's timeout does not expire during it. */
  ghost predicate NeverTimesOut<T(!new)>(oracle: Oracle<T>)
  {
    forall t: nat, ws: seq<Case<T>> :: oracle(t, ws) != Chosen(0)
  }

  /** Without the timer firing, the select loop runs until no send is outstanding. */
  lemma {:induction false} RoundWithoutTimeout<T(!new)>(ws: seq<Case<T>>, registry: seq<Endpoint>, accepted: seq<Endpoint>,
                                                        dropped: seq<Endpoint>, closed: set<Endpoint>, oracle: Oracle<T>, t: nat)
    requires IsWaitSet(ws) && OracleValid(oracle, closed) && NeverTimesOut(oracle)
    ensures var r := Round(ws, registry, accepted, dropped, closed, oracle, t);
      !r.timedOut && |r.cases| == 1
    decreases |ws|
  {
    if |ws| > 1 {
      var s := Step(ws, oracle(t, ws), closed);
      assert oracle(t, ws) != Chosen(0);
      RoundWithoutTimeout(s.cases, RemoveEach(registry, s.dropped), accepted + s.accepted, dropped + s.dropped,
                          closed, oracle, t + 1);
    }
  }

  /**
   A broadcast whose timer does not fire evicts nobody: afterwards the
   registry holds every entry whose endpoint is open, as often as before, and
   no entry whose endpoint is closed. With the registry being the old one with
   entries deleted in order, this makes it the old registry without its
   closed endpoints.
   */
  lemma DeliverWithoutTimeout<T(!new)>(registry: seq<Endpoint>, v: T, closed: set<Endpoint>, oracle: Oracle<T>)
    requires OracleValid(oracle, closed) && NeverTimesOut(oracle)
    ensures var d := Deliver(registry, v, closed, oracle);
      && !d.timedOut && d.evicted == []
      && (forall e :: e !in closed ==> multiset(d.registry)[e] == multiset(registry)[e])
      && (forall e :: e in closed ==> e !in d.registry)
  {
    var d := Deliver(registry, v, closed, oracle);
    RoundWithoutTimeout(Offer(registry, v), registry, [], [], closed, oracle, 0);
    DeliverAccounts(registry, v, closed, oracle);
    assert d.evicted == [];
    forall e | e !in closed
      ensures multiset(d.registry)[e] == multiset(registry)[e]
    {
      assert e !in d.dropped;
    }
    forall e | e in closed
      ensures e !in d.registry
    {
      assert e !in d.accepted;
      assert e !in multiset(d.registry);
    }
  }
}
