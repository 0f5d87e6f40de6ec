# go-broadcast-channel: the broadcaster's control loop in Dafny

A model of the generic `Broadcaster` in `broadcast.go`, with proofs about it.
One control task owns the broadcaster's state:

- the registry of subscriber endpoints (the `sendCases` slice);
- the round timeout;
- whether the value queue and the subscription path are closed.

The model has one handler per event that task reacts to. A value arrives and is multicast in a round. A subscription arrives and is registered. The value queue closes and the broadcaster tears down. Beside the handlers sit the `Close` and `Subscribe` entry points.

A round works as follows:

1. The broadcaster offers the value to every registry entry.
2. It builds a wait-set: the timer at index 0, then one send per entry.
3. It runs wait steps (`doSelect`) until no send is outstanding or the timer fires.
4. It evicts the endpoints still outstanding: each one's first registry entry is removed and the endpoint is closed.

A wait step can fail because some endpoint is closed. It then runs a probe pass, which classifies each outstanding send:

- done: the send leaves the wait-set;
- blocked: the send stays;
- closed: the send leaves the wait-set, and the endpoint's first registry entry is removed without closing it.

The project has three modules:

- `Sequences` (sequences.dfy): index removal, first-match removal, removing a list of entries, and the order-preserving subsequence relation, with their multiset and order lemmas.
- `WaitSet` (waitset.dfy): the round as pure functions over the wait-set, each proved to keep its invariants. `Offer` builds the wait-set. `Step` is one `doSelect`. `ProbePass` is the recovery pass. `Round` is the select loop. `Deliver` is a whole `broadcast`.
- `Broadcast` (broadcaster.dfy): the class `Broadcaster`. Its methods change the registry and the set of closed endpoints in place with loops, as the Go code does. Each method is proved to leave exactly the state that the `WaitSet` functions compute, so the lemmas about those functions are facts about the methods.

The environment is given as input, never computed:

- which case `reflect.Select` picks, or that it fails, is a `SelectResult`;
- the readiness of each probed receiver comes with that failure;
- a whole round's answers form an `Oracle`, indexed by the step number;
- which endpoints are closed is the field `closedEndpoints`.

An oracle is valid when it never picks a send to a closed endpoint and fails only when some outstanding send targets a closed endpoint. That is how `reflect.Select` behaves when the round's value can be sent and the wait-set has at most 65536 cases. `reflect.Select` also panics in two other cases. One is a value it cannot send, which is a nil value of an interface type; it is covered under "## Findings". The other is more than 65536 cases, which is covered under "## Left out".

The design describes the registry as holding each endpoint at most once. The code never checks for duplicates: `run` appends every endpoint it receives. The model follows the code. The registry may hold duplicates, and every removal takes out the first matching entry, as the Go loops at broadcast.go:97-102 and broadcast.go:121-126 do.

## Model

| member | source | states |
|---|---|---|
| Sequences.RemoveAt | broadcast.go:99 | removing index i shortens the slice by one and keeps every other entry in order (`append(s[:i], s[i+1:]...)`) |
| Sequences.RemoveAtMultiset | broadcast.go:99 | removing at an index takes out exactly one copy of that entry |
| Sequences.FirstIndex | broadcast.go:97-102 | the search stops at the first entry equal to the endpoint, or runs off the end when there is none |
| Sequences.FirstIndexOnly | broadcast.go:121-126 | an index holding the endpoint with no match before it is the first index; so is the length when the endpoint is absent |
| Sequences.RemoveFirst | broadcast.go:121-126 | removing by identity shortens the registry by one when the endpoint occurs and leaves it unchanged when it does not |
| Sequences.RemoveFirstMultiset | broadcast.go:121-126 | removing by identity takes out one copy of the endpoint, if there is one |
| Sequences.TakeFirst | broadcast.go:94-104 | an endpoint still to be evicted is found in a registry that holds the outstanding and the accepting endpoints, and removing it leaves the rest |
| Sequences.RemoveEachMultiset | broadcast.go:94-104 | removing a list of endpoints one by one takes out one copy of each |
| Sequences.RemoveEachSubsequence | broadcast.go:94-104 | however many endpoints are removed, the remaining registry entries keep their relative order |
| Sequences.RemoveAtSubsequence | broadcast.go:139 | removing one case keeps the other cases in their order |
| WaitSet.TrySend | broadcast.go:151-163 | a probe of a send to a closed endpoint reports closed; otherwise a ready receiver makes it done, and an unready one makes it blocked |
| WaitSet.Offer | broadcast.go:69-85 | the wait-set has the timer at index 0, then a send of the round's value to each registry entry in registry order |
| WaitSet.PickPartition | broadcast.go:113-128 | every probed send is exactly one of blocked, done or closed |
| WaitSet.PickSubsequence | broadcast.go:116-127 | the sends kept by the probe pass keep their order in the wait-set |
| WaitSet.ProbedIsPick | broadcast.go:113-129 | the index walk, which advances only past blocked sends, probes each outstanding send once, the j-th with the j-th readiness answer; it keeps exactly the blocked sends and drops exactly the closed ones, in order |
| WaitSet.WalkStep | broadcast.go:114-128 | one probe: the walk stands at the first unprobed send; blocked keeps it, and done or closed cut it out of the wait-set |
| WaitSet.ProbedAll | broadcast.go:113-129 | when the walk reaches the end of the wait-set, it has produced the probe pass's wait-set and dropped list |
| WaitSet.ProbePass | broadcast.go:113-129 | the probe pass starts at index 1, so the timer stays at index 0 and only sends follow it |
| WaitSet.ProbePassKeepsBlocked | broadcast.go:113-128 | after the pass every remaining send is one that probed blocked, and a failure caused by a closed endpoint removes at least that send |
| WaitSet.ProbePassAccounts | broadcast.go:113-163 | every visited send is kept, accepted or dropped; dropped endpoints are closed and accepting ones are open |
| WaitSet.ProbePassDropsClosed | broadcast.go:113-128 | every visited send whose endpoint is closed is dropped, so the dropped endpoints are exactly the closed ones |
| WaitSet.ValidSelect | broadcast.go:133 | the wait picks the timer or a send to an open endpoint, and fails only when some outstanding send targets a closed endpoint, with one readiness answer per send |
| WaitSet.Step | broadcast.go:133-140 | choosing index 0 reports a timeout and returns the wait-set unchanged; choosing send k removes exactly that case and keeps the others in order; any step that does not time out shrinks the wait-set |
| WaitSet.StepAccounts | broadcast.go:107-141 | every send a wait step removes either accepted the value or was dropped as closed |
| WaitSet.StepKeepsOrder | broadcast.go:133-140 | a wait step keeps the timer first and the remaining sends in order |
| WaitSet.OracleValid | broadcast.go:87-93 | every wait of a round answers as `ValidSelect` allows |
| WaitSet.Round | broadcast.go:87-93 | the wait-set never grows during a round, and the loop ends only when the timer alone is left or a step reports the timeout |
| WaitSet.RoundKeepsAccounts | broadcast.go:87-93 | through the round, the registry holds exactly the outstanding and the accepting endpoints, is the old registry with entries deleted in order, and loses only closed endpoints |
| WaitSet.RoundKeepsOrder | broadcast.go:87-93 | the round's wait-set only loses sends and keeps its order |
| WaitSet.RoundWithoutTimeout | broadcast.go:87-93 | when the timer never fires, the loop runs until no send is outstanding |
| WaitSet.Deliver | broadcast.go:68-105 | one broadcast: the select loop from the offer of the value, then the eviction of the sends still outstanding; there are evictions only when the timer fired |
| WaitSet.DeliverAccounts | broadcast.go:68-105 | after a broadcast the registry is the old one with entries deleted in order and holds exactly the endpoints that accepted; each old entry accepted, was dropped as closed, or was evicted, and evictions happen only after a timeout |
| WaitSet.DeliverWithoutTimeout | broadcast.go:68-105 | a broadcast whose timer does not fire evicts nobody, keeps every open endpoint's entries and removes every closed one |
| Unsendable.TrySendAsWritten | broadcast.go:151-163 | as written, a probe reports closed for a value that cannot be sent; for a sendable value it agrees with `TrySend` |
| Unsendable.SendableAsModelled | broadcast.go:113-128 | for a sendable value, the probe pass as written is the modelled probe pass |
| Unsendable.UnsendableDropsEveryone | broadcast.go:113-128 | for a value that cannot be sent, the probe pass as written drops every registry entry, open or closed, and leaves only the timer |
| Unsendable.NilValueDropsOpenEndpoint | broadcast.go:69-72 | broadcasting nil to one open, ready subscriber drops it as written; the modelled pass delivers to it |
| Broadcast.Broadcaster.constructor | broadcast.go:19-27 | a new broadcaster has an empty registry, the largest duration as its timeout, a value queue of capacity n, and nothing closed |
| Broadcast.Broadcaster.WithTimeout | broadcast.go:31-34 | sets the timeout and returns the same broadcaster, keeping the broadcaster's invariant |
| Broadcast.Broadcaster.OnSubscribe | broadcast.go:45-46 | a subscription appends the endpoint at the tail, with earlier entries unchanged and no duplicate check |
| Broadcast.Broadcaster.CloseEndpoint | broadcast.go:59-66 | closing an endpoint leaves it closed; closing one already closed is reported and swallowed; the broadcaster's invariant is kept |
| Broadcast.Broadcaster.FindSubscriber | broadcast.go:97-102 | the linear search returns the first registry index holding the endpoint |
| Broadcast.Broadcaster.RemoveSubscriber | broadcast.go:121-126 | the first registry entry equal to the endpoint is removed, and the method reports whether there was one |
| Broadcast.Broadcaster.PrepareCases | broadcast.go:69-85 | the loop builds exactly the round's wait-set `Offer(registry, v)` |
| Broadcast.Broadcaster.ProbeAll | broadcast.go:113-130 | the index walk leaves the probe pass's wait-set, and it removes from the registry the first entry of each closed endpoint, in visit order, without closing anything |
| Broadcast.Broadcaster.ProbeOne | broadcast.go:114-128 | one probe of the send at index i: done removes it, blocked advances i, and closed removes it and its first registry entry |
| Broadcast.Broadcaster.DoSelect | broadcast.go:107-141 | one wait step leaves the wait-set, timeout flag and registry that `Step` describes |
| Broadcast.Broadcaster.Broadcast | broadcast.go:68-105 | a broadcast leaves the registry that `Deliver` describes and closes exactly the evicted endpoints |
| Broadcast.Broadcaster.Evict | broadcast.go:94-104 | each endpoint still outstanding loses its first registry entry and is closed |
| Broadcast.Broadcaster.Destroy | broadcast.go:51-57 | teardown closes the subscription path and every registered endpoint, each close on its own, so one already closed does not stop the rest |
| Broadcast.Broadcaster.Handle | broadcast.go:36-49 | a value runs a broadcast, a subscription is registered, and the close of the value queue tears down and ends the loop |
| Broadcast.Broadcaster.Close | broadcast.go:172-180 | closing the value queue always succeeds, also when it is closed already |
| Broadcast.Broadcaster.Subscribe | broadcast.go:185-193 | before teardown the endpoint is registered; after teardown an error is reported and nothing is registered |

## Left out

- Goroutines and the two-way `select` in `run` (broadcast.go:25, broadcast.go:37-47) are not modelled. Each event's handler is modelled, with the event as input (`Handle`). The race between a closed value queue and a pending subscription is not modelled.
- `reflect.Select`, `trySend`'s non-blocking select and the timer (broadcast.go:74-75, 133, 158) are replaced by inputs: the wait's answer per step (`Oracle`) and each probed receiver's readiness. `TrySend` keeps the classification itself. Stopping the timer (broadcast.go:75) has no counterpart.
- The timeout is kept as an opaque 64-bit `Duration`. Nothing computes with it, since whether the timer fired is an oracle answer.
- Panics and `recover` are modelled as result values and flags. `CloseEndpoint` reports an already-closed endpoint. A send to a closed endpoint makes the wait return `Failed`. A closed subscription path makes `Subscribe` return false.
- Subscribe's error message text (broadcast.go:188) is left out. Only whether an error is returned is modelled.
- `Chan` (broadcast.go:166-168) and the contents of the value queue are left out. The queue is modelled by its capacity and its closed flag, and a value taken from it is a `Value` event.
- The `Send` field stored in each registry entry (broadcast.go:69-72) is not kept. The wait-set's send cases carry the round's value instead, which is what the select uses.
- Broadcast.Broadcaster.Broadcast: a subscriber closing its own endpoint during a round is not modelled. `closedEndpoints` is constant while the select loop runs, and such a close is a `CloseEndpoint` call between events.
- Broadcast.Broadcaster.Destroy: the registry is left as it is after teardown, as in the code (broadcast.go:51-57). Only the endpoints' closed state changes.
- Broadcast.Broadcaster.OnSubscribe: the model does not enforce the design's rule that an endpoint is in the registry at most once and is never re-added, because the code does not enforce it either.
- WaitSet.TrySend: a probe reports closed only for a closed endpoint, so the round value is assumed sendable. The code reports closed for any panic of the probe (broadcast.go:152-156). That includes the panic for a nil value of an interface type, which `reflect.ValueOf` turns into a zero `Value` (broadcast.go:69). That behaviour is modelled separately in module `Unsendable` and described under "## Findings".
- WaitSet.ValidSelect: assumes the wait-set has at most 65536 cases, so at most 65535 subscribers. With more cases, `reflect.Select` panics on every wait, and the probe pass runs on every step (broadcast.go:109-112). When every send is blocked, the loop at broadcast.go:87 then spins without ever seeing the timer. `Round` and `Broadcast` are proved to terminate, so they do not model that spin.
- Broadcast.Broadcaster.constructor: takes the queue capacity as a `nat`. Go's `New(n int)` accepts a negative n and then panics in `make` (broadcast.go:21). A Dafny constructor cannot fail, so that panic path is not modelled.

## Findings

| source | as written | input that shows it | evidently intended | confidence | as-written member | corrected member |
|---|---|---|---|---|---|---|
| broadcast.go:69, broadcast.go:151-163 | `trySend` reports every panic as a closed endpoint, and a nil value of an interface type panics every send case | `Broadcaster[any]` with one open, ready subscriber, then broadcasting nil: the wait fails, the probe reports closed, and the subscriber is removed from the registry without being closed, so teardown never closes it | nil is delivered like any other value, and only a closed endpoint is dropped | medium, not executed | Unsendable.NilValueDropsOpenEndpoint | WaitSet.ProbePassAccounts |
