/** The single-flight, three-zone bearer token cache of auth/bearer-cache.ts.

    `Step` is the protocol as a transition system: one action per synchronous span of the source, so a fetch
    that publishes its token and the same fetch giving up the slot are two separate actions. `BearerTokenCache`
    is the object itself; each of its methods is proved to perform the corresponding step on `View()`. */
module BearerCache {
  import opened Wrappers

  // ---------------------------------------------------------------- tokens and calls

  type Millis = real

  datatype Token = Token(value: string, expiresAt: Option<Millis>)

  predicate IsExpired(token: Token, nowMs: Millis, marginMs: Millis) {
    token.expiresAt.Some? && nowMs + marginMs > token.expiresAt.value
  }

  /** The header value a request stamped with `token` carries. */
  function HeaderValue(token: Token): string {
    "Bearer " + token.value
  }

  datatype Signal = NoSignal | Live | AlreadyAborted

  datatype Call = Call(marginMs: Millis, nowMs: Millis, signal: Signal)

  // What a provider's promise comes to: a token, a null-like value, or a rejection (thrown or awaited).
  datatype Answer = Yields(token: Token) | YieldsNothing | Rejects

  datatype Outcome = Resolved(token: Token) | Failed

  // -------------------------------------------------------------------------- fetches

  /** A provider call: `Running` until its `then` runs, `Published` until its `finally` runs. */
  datatype Phase = Running | Published(outcome: Outcome) | Settled(outcome: Outcome)

  const NO_EVICTION_GENERATION := -1

  datatype Fetch = Fetch(generation: nat, evictionGeneration: int, nowMs: Millis, phase: Phase)

  datatype Delivery = Waiting | Aborted | Delivered(outcome: Outcome)

  /** A caller awaiting the shared promise of `fetch`, possibly raced against its own signal. */
  datatype Waiter = Waiter(fetch: nat, cancellable: bool, afterEviction: bool, delivery: Delivery)

  /** `stores` records which fetches wrote `cached`, oldest first. */
  datatype State = State(
    cached: Option<Token>,
    inFlight: Option<nat>,
    generation: nat,
    inFlightEvictionGeneration: int,
    fetches: seq<Fetch>,
    waiters: seq<Waiter>,
    stores: seq<nat>)

  const INITIAL := State(None, None, 0, NO_EVICTION_GENERATION, [], [], [])

  /** What the caller's synchronous span ends in: a token, the index of its waiter, or a cancellation. */
  datatype Reply = Stamped(token: Token) | Awaiting(waiter: nat) | Cancelled

  // ---------------------------------------------------------------------------- steps

  function Refresh(s: State, nowMs: Millis, eviction: int): (State, nat) {
    if s.inFlight.Some? then
      (s, s.inFlight.value)
    else
      (s.(fetches := s.fetches + [Fetch(s.generation, eviction, nowMs, Running)],
          inFlight := Some(|s.fetches|),
          inFlightEvictionGeneration := eviction),
       |s.fetches|)
  }

  function Join(s: State, fetch: nat, call: Call, afterEviction: bool): (State, Reply) {
    (s.(waiters := s.waiters + [Waiter(fetch, call.signal.Live?, afterEviction, Waiting)]),
     Awaiting(|s.waiters|))
  }

  function Stamp(s: State, call: Call): (State, Reply) {
    if s.cached.Some? && !IsExpired(s.cached.value, call.nowMs, call.marginMs) then
      (s, Stamped(s.cached.value))
    else if s.cached.Some? && !IsExpired(s.cached.value, call.nowMs, 0.0) then
      (Refresh(s, call.nowMs, NO_EVICTION_GENERATION).0, Stamped(s.cached.value))
    else if call.signal.AlreadyAborted? then
      (s, Cancelled)
    else
      var (s', fetch) := Refresh(s, call.nowMs, NO_EVICTION_GENERATION);
      Join(s', fetch, call, false)
  }

  /** Drops the cached token when it is the rejected one; otherwise hands it back as the survivor. */
  function Evict(s: State, rejected: string): (State, Option<Token>) {
    if s.cached.Some? && HeaderValue(s.cached.value) == rejected then
      (s.(cached := None), None)
    else
      (s, s.cached)
  }

  /** A new generation, which whatever is in flight does not belong to. */
  function Superseded(s: State): State {
    s.(generation := s.generation + 1, inFlight := None)
  }

  function StartPostEviction(s: State, nowMs: Millis): (State, nat) {
    if s.inFlight.Some? && s.inFlightEvictionGeneration == s.generation then
      (s, s.inFlight.value)
    else
      Refresh(Superseded(s), nowMs, s.generation + 1)
  }

  /** Whether a 401 on `rejected` finds no surviving token and goes on to fetch. */
  predicate FallsThrough(s: State, rejected: string) {
    Evict(s, rejected).1.None?
  }

  /** The 401 reaction: evict and the post-eviction fetch form one span, since nothing awaits between them. */
  function Challenge(s: State, rejected: string, call: Call): (State, Reply) {
    var (evicted, survivor) := Evict(s, rejected);
    if survivor.Some? then
      (evicted, Stamped(survivor.value))
    else if call.signal.AlreadyAborted? then
      (evicted, Cancelled)
    else
      var (s', fetch) := StartPostEviction(evicted, call.nowMs);
      Join(s', fetch, call, true)
  }

  function Judge(answer: Answer, nowMs: Millis): Outcome {
    match answer
    case Yields(token) => if IsExpired(token, nowMs, 0.0) then Failed else Resolved(token)
    case YieldsNothing => Failed
    case Rejects => Failed
  }

  predicate CanPublish(s: State, id: nat) {
    id < |s.fetches| && s.fetches[id].phase.Running?
  }

  function Publish(s: State, id: nat, answer: Answer): State
    requires CanPublish(s, id)
  {
    var fetch := s.fetches[id];
    var outcome := Judge(answer, fetch.nowMs);
    var s' := s.(fetches := s.fetches[id := fetch.(phase := Published(outcome))]);
    if outcome.Resolved? && fetch.generation == s.generation then
      s'.(cached := Some(outcome.token), stores := s.stores + [id])
    else
      s'
  }

  predicate CanClear(s: State, id: nat) {
    id < |s.fetches| && s.fetches[id].phase.Published?
  }

  function Clear(s: State, id: nat): State
    requires CanClear(s, id)
  {
    var fetch := s.fetches[id];
    var s' := s.(fetches := s.fetches[id := fetch.(phase := Settled(fetch.phase.outcome))]);
    if fetch.generation == s.generation then s'.(inFlight := None) else s'
  }

  predicate CanAbort(s: State, w: nat) {
    w < |s.waiters| && s.waiters[w].delivery.Waiting? && s.waiters[w].cancellable
  }

  predicate CanDeliver(s: State, w: nat) {
    && w < |s.waiters| && s.waiters[w].delivery.Waiting?
    && s.waiters[w].fetch < |s.fetches| && s.fetches[s.waiters[w].fetch].phase.Settled?
  }

  function Answered(s: State, w: nat, delivery: Delivery): State
    requires w < |s.waiters|
  {
    s.(waiters := s.waiters[w := s.waiters[w].(delivery := delivery)])
  }

  datatype Action =
    | StampAction(call: Call)
    | ChallengeAction(rejected: string, call: Call)
    | PublishAction(id: nat, answer: Answer)
    | ClearAction(id: nat)
    | AbortAction(waiter: nat)
    | DeliverAction(waiter: nat)

  /** One step; an action that is not enabled changes nothing. */
  function Step(s: State, a: Action): State {
    match a
    case StampAction(call) => Stamp(s, call).0
    case ChallengeAction(rejected, call) => Challenge(s, rejected, call).0
    case PublishAction(id, answer) => if CanPublish(s, id) then Publish(s, id, answer) else s
    case ClearAction(id) => if CanClear(s, id) then Clear(s, id) else s
    case AbortAction(w) => if CanAbort(s, w) then Answered(s, w, Aborted) else s
    case DeliverAction(w) =>
      if CanDeliver(s, w) then Answered(s, w, Delivered(s.fetches[s.waiters[w].fetch].phase.outcome)) else s
  }

  function Run(s: State, actions: seq<Action>): State
    decreases |actions|
  {
    if actions == [] then s else Run(Step(s, actions[0]), actions[1..])
  }

  // ------------------------------------------------------------------------ invariant

  predicate Unsettled(s: State, id: nat)
    requires id < |s.fetches|
  {
    !s.fetches[id].phase.Settled?
  }

  /** The slot is empty or holds the one unsettled fetch of the current generation. */
  ghost predicate SlotInv(s: State) {
    && (s.inFlight.Some? ==>
          && s.inFlight.value < |s.fetches|
          && Unsettled(s, s.inFlight.value)
          && s.fetches[s.inFlight.value].generation == s.generation
          && s.fetches[s.inFlight.value].evictionGeneration == s.inFlightEvictionGeneration)
    && (forall i: nat :: i < |s.fetches| && Unsettled(s, i) && s.fetches[i].generation == s.generation
                         ==> s.inFlight == Some(i))
    && (forall i: nat, j: nat :: i < j < |s.fetches| && Unsettled(s, i) && Unsettled(s, j)
                                 ==> s.fetches[i].generation != s.fetches[j].generation)
  }

  /** A fetch belongs to a generation already reached, and holds no token that was expired when it began. */
  predicate FetchOk(s: State, fetch: Fetch) {
    && fetch.generation <= s.generation
    && (fetch.evictionGeneration == NO_EVICTION_GENERATION || fetch.evictionGeneration == fetch.generation > 0)
    && (!fetch.phase.Running? && fetch.phase.outcome.Resolved? ==>
          !IsExpired(fetch.phase.outcome.token, fetch.nowMs, 0.0))
  }

  predicate WaiterOk(s: State, w: Waiter) {
    && w.fetch < |s.fetches|
    && (w.afterEviction ==> s.fetches[w.fetch].evictionGeneration != NO_EVICTION_GENERATION)
    && (w.delivery.Delivered? ==> s.fetches[w.fetch].phase == Settled(w.delivery.outcome))
  }

  /** Every store came from a fetch that resolved, and generations in the log never go backwards. */
  ghost predicate StoresInv(s: State) {
    && (forall k :: 0 <= k < |s.stores| ==>
          && s.stores[k] < |s.fetches|
          && !s.fetches[s.stores[k]].phase.Running?
          && s.fetches[s.stores[k]].phase.outcome.Resolved?)
    && (forall k, l :: 0 <= k < l < |s.stores| ==>
          s.fetches[s.stores[k]].generation <= s.fetches[s.stores[l]].generation)
    && (s.cached.Some? ==>
          s.stores != [] && s.fetches[s.stores[|s.stores| - 1]].phase.outcome.token == s.cached.value)
  }

  ghost predicate Inv(s: State) {
    && SlotInv(s)
    && (forall i :: 0 <= i < |s.fetches| ==> FetchOk(s, s.fetches[i]))
    && (forall w :: 0 <= w < |s.waiters| ==> WaiterOk(s, s.waiters[w]))
    && StoresInv(s)
  }

  lemma RefreshKeepsStores(s: State, nowMs: Millis, eviction: int)
    requires StoresInv(s)
    ensures StoresInv(Refresh(s, nowMs, eviction).0)
  {
  }

  lemma RefreshKeepsInv(s: State, nowMs: Millis, eviction: int)
    requires Inv(s)
    requires eviction == NO_EVICTION_GENERATION || eviction == s.generation > 0
    ensures Inv(Refresh(s, nowMs, eviction).0)
  {
    RefreshKeepsStores(s, nowMs, eviction);
  }

  lemma StartPostEvictionKeepsInv(s: State, nowMs: Millis)
    requires Inv(s)
    ensures var (s', id) := StartPostEviction(s, nowMs);
            && Inv(s')
            && s'.inFlight == Some(id)
            && s'.inFlightEvictionGeneration == s'.generation == s'.fetches[id].evictionGeneration
  {
    if s.inFlight.Some? && s.inFlightEvictionGeneration == s.generation {
    } else {
      RefreshKeepsInv(Superseded(s), nowMs, s.generation + 1);
    }
  }

  lemma JoinKeepsInv(s: State, fetch: nat, call: Call, afterEviction: bool)
    requires Inv(s) && fetch < |s.fetches|
    requires afterEviction ==> s.fetches[fetch].evictionGeneration != NO_EVICTION_GENERATION
    ensures Inv(Join(s, fetch, call, afterEviction).0)
  {
  }

  lemma StampKeepsInv(s: State, call: Call)
    requires Inv(s)
    ensures Inv(Stamp(s, call).0)
  {
    RefreshKeepsInv(s, call.nowMs, NO_EVICTION_GENERATION);
    var (s', fetch) := Refresh(s, call.nowMs, NO_EVICTION_GENERATION);
    JoinKeepsInv(s', fetch, call, false);
  }

  lemma ChallengeKeepsInv(s: State, rejected: string, call: Call)
    requires Inv(s)
    ensures Inv(Challenge(s, rejected, call).0)
  {
    var evicted := Evict(s, rejected).0;
    StartPostEvictionKeepsInv(evicted, call.nowMs);
    var (s', fetch) := StartPostEviction(evicted, call.nowMs);
    JoinKeepsInv(s', fetch, call, true);
  }

  lemma PublishedKeepsInv(s: State, id: nat, outcome: Outcome)
    requires Inv(s) && CanPublish(s, id)
    requires outcome.Resolved? ==> !IsExpired(outcome.token, s.fetches[id].nowMs, 0.0)
    ensures Inv(s.(fetches := s.fetches[id := s.fetches[id].(phase := Published(outcome))]))
  {
    var s' := s.(fetches := s.fetches[id := s.fetches[id].(phase := Published(outcome))]);
    assert id !in s.stores;
    assert SlotInv(s');
    assert StoresInv(s');
  }

  lemma StoreKeepsInv(s: State, id: nat)
    requires Inv(s) && CanClear(s, id) && s.fetches[id].phase.outcome.Resolved?
    requires s.fetches[id].generation == s.generation
    ensures Inv(s.(cached := Some(s.fetches[id].phase.outcome.token), stores := s.stores + [id]))
  {
  }

  lemma PublishKeepsInv(s: State, id: nat, answer: Answer)
    requires Inv(s) && CanPublish(s, id)
    ensures Inv(Publish(s, id, answer))
  {
    var fetch := s.fetches[id];
    var outcome := Judge(answer, fetch.nowMs);
    PublishedKeepsInv(s, id, outcome);
    if outcome.Resolved? && fetch.generation == s.generation {
      StoreKeepsInv(s.(fetches := s.fetches[id := fetch.(phase := Published(outcome))]), id);
    }
  }

  /** Clearing changes one fetch's phase and nothing else of any fetch. */
  lemma ClearChanges(s: State, id: nat)
    requires CanClear(s, id)
    ensures |Clear(s, id).fetches| == |s.fetches|
    ensures forall i :: 0 <= i < |s.fetches| ==>
              && Clear(s, id).fetches[i].generation == s.fetches[i].generation
              && (i != id ==> Clear(s, id).fetches[i] == s.fetches[i])
    ensures Clear(s, id).fetches[id] == s.fetches[id].(phase := Settled(s.fetches[id].phase.outcome))
  {
  }

  lemma ClearKeepsSlot(s: State, id: nat)
    requires SlotInv(s) && CanClear(s, id)
    ensures SlotInv(Clear(s, id))
  {
    ClearChanges(s, id);
  }

  lemma ClearKeepsInv(s: State, id: nat)
    requires Inv(s) && CanClear(s, id)
    ensures Inv(Clear(s, id))
  {
    ClearChanges(s, id);
    ClearKeepsSlot(s, id);
  }

  lemma AnswerKeepsInv(s: State, w: nat, delivery: Delivery)
    requires Inv(s) && w < |s.waiters|
    requires delivery.Delivered? ==> s.fetches[s.waiters[w].fetch].phase == Settled(delivery.outcome)
    ensures Inv(Answered(s, w, delivery))
  {
  }

  lemma StepKeepsInv(s: State, a: Action)
    requires Inv(s)
    ensures Inv(Step(s, a))
  {
    match a
    case StampAction(call) => StampKeepsInv(s, call);
    case ChallengeAction(rejected, call) => ChallengeKeepsInv(s, rejected, call);
    case PublishAction(id, answer) => if CanPublish(s, id) { PublishKeepsInv(s, id, answer); }
    case ClearAction(id) => if CanClear(s, id) { ClearKeepsInv(s, id); }
    case AbortAction(w) => if CanAbort(s, w) { AnswerKeepsInv(s, w, Aborted); }
    case DeliverAction(w) =>
      if CanDeliver(s, w) {
        AnswerKeepsInv(s, w, Delivered(s.fetches[s.waiters[w].fetch].phase.outcome));
      }
  }

  lemma {:induction false} RunKeepsInv(s: State, actions: seq<Action>)
    requires Inv(s)
    ensures Inv(Run(s, actions))
    decreases |actions|
  {
    if actions == [] {
    } else {
      StepKeepsInv(s, actions[0]);
      RunKeepsInv(Step(s, actions[0]), actions[1..]);
    }
  }

  // ------------------------------------------------------------------- what runs only add

  predicate SameOrigin(a: Fetch, b: Fetch) {
    a.generation == b.generation && a.evictionGeneration == b.evictionGeneration && a.nowMs == b.nowMs
  }

  /** `t` is a later state than `s`: fetches keep their origin, and the stores added since are not superseded. */
  ghost predicate Later(s: State, t: State) {
    && s.generation <= t.generation
    && |s.fetches| <= |t.fetches|
    && (forall i :: 0 <= i < |s.fetches| ==> SameOrigin(s.fetches[i], t.fetches[i]))
    && |s.stores| <= |t.stores| && t.stores[..|s.stores|] == s.stores
    && (forall k :: |s.stores| <= k < |t.stores| ==>
          t.stores[k] < |t.fetches| && s.generation <= t.fetches[t.stores[k]].generation)
    && (|t.stores| == |s.stores| && t.cached.Some? ==> t.cached == s.cached)
  }

  lemma LaterTransitive(s: State, t: State, u: State)
    requires Later(s, t) && Later(t, u)
    ensures Later(s, u)
  {
    forall k | |s.stores| <= k < |u.stores|
      ensures u.stores[k] < |u.fetches| && s.generation <= u.fetches[u.stores[k]].generation
    {
      if k < |t.stores| {
        assert u.stores[k] == u.stores[..|t.stores|][k] == t.stores[k];
      }
    }
    assert u.stores[..|s.stores|] == u.stores[..|t.stores|][..|s.stores|];
  }

  lemma PublishIsLater(s: State, id: nat, answer: Answer)
    requires CanPublish(s, id)
    ensures Later(s, Publish(s, id, answer))
  {
    var t := Publish(s, id, answer);
    assert forall i :: 0 <= i < |s.fetches| ==> SameOrigin(s.fetches[i], t.fetches[i]);
  }

  lemma ChallengeIsLater(s: State, rejected: string, call: Call)
    requires Inv(s)
    ensures Later(s, Challenge(s, rejected, call).0)
  {
    assert Later(s, Evict(s, rejected).0);
  }

  lemma StepIsLater(s: State, a: Action)
    requires Inv(s)
    ensures Later(s, Step(s, a))
  {
    assert Later(s, s);
    match a
    case StampAction(call) =>
    case ChallengeAction(rejected, call) => ChallengeIsLater(s, rejected, call);
    case PublishAction(id, answer) => if CanPublish(s, id) { PublishIsLater(s, id, answer); }
    case ClearAction(id) =>
    case AbortAction(w) =>
    case DeliverAction(w) =>
  }

  lemma {:induction false} RunIsLater(s: State, actions: seq<Action>)
    requires Inv(s)
    ensures Later(s, Run(s, actions))
    decreases |actions|
  {
    if actions == [] {
    } else {
      var next := Step(s, actions[0]);
      StepIsLater(s, actions[0]);
      StepKeepsInv(s, actions[0]);
      RunIsLater(next, actions[1..]);
      LaterTransitive(s, next, Run(next, actions[1..]));
    }
  }

  lemma ReachableInv(actions: seq<Action>)
    ensures Inv(Run(INITIAL, actions))
  {
    RunKeepsInv(INITIAL, actions);
  }

  // ------------------------------------------------------------------- eviction is final

  /** Once a 401 falls through to a fetch, whatever the cache holds afterwards, in any continuation, was stored
      after the 401 by a fetch of the generation then current or a newer one. */
  lemma EvictionSupersedes(before: seq<Action>, rejected: string, call: Call, after: seq<Action>)
    requires FallsThrough(Run(INITIAL, before), rejected)
    requires !call.signal.AlreadyAborted?
    ensures var s := Challenge(Run(INITIAL, before), rejected, call).0;
            var t := Run(s, after);
            && (forall k :: |s.stores| <= k < |t.stores| ==> t.stores[k] < |t.fetches|)
            && (t.cached.Some? ==> |s.stores| < |t.stores|)
            && (forall k :: |s.stores| <= k < |t.stores| ==>
                  t.fetches[t.stores[k]].generation >= s.generation)
  {
    ReachableInv(before);
    ChallengeKeepsInv(Run(INITIAL, before), rejected, call);
    RunIsLater(Challenge(Run(INITIAL, before), rejected, call).0, after);
  }

  /** The generations of the tokens stored along a run never go backwards. */
  lemma StoresNeverGoBack(actions: seq<Action>)
    ensures var s := Run(INITIAL, actions);
            && (forall k :: 0 <= k < |s.stores| ==> s.stores[k] < |s.fetches|)
            && (forall k, l :: 0 <= k < l < |s.stores| ==>
                  s.fetches[s.stores[k]].generation <= s.fetches[s.stores[l]].generation)
  {
    ReachableInv(actions);
  }

  /** A superseded fetch never stores a token again and never holds the slot again. */
  lemma SupersededStaysSilent(before: seq<Action>, id: nat, after: seq<Action>)
    requires id < |Run(INITIAL, before).fetches|
    requires Run(INITIAL, before).fetches[id].generation < Run(INITIAL, before).generation
    ensures var s := Run(INITIAL, before);
            var t := Run(s, after);
            && |s.stores| <= |t.stores|
            && id !in t.stores[|s.stores|..]
            && t.inFlight != Some(id)
  {
    var s := Run(INITIAL, before);
    ReachableInv(before);
    RunIsLater(s, after);
    RunKeepsInv(s, after);
  }

  // ---------------------------------------------------------------------- single flight

  ghost function UnsettledFetches(s: State): set<nat> {
    set i: nat | i < |s.fetches| && Unsettled(s, i)
  }

  lemma {:induction false} InjectionBound(s: State, ids: set<nat>, bound: nat)
    requires forall i :: i in ids ==> i < |s.fetches| && s.fetches[i].generation < bound
    requires forall i, j :: i in ids && j in ids && i != j ==> s.fetches[i].generation != s.fetches[j].generation
    ensures |ids| <= bound
    decreases bound
  {
    if ids == {} {
    } else {
      if i :| i in ids && s.fetches[i].generation == bound - 1 {
        InjectionBound(s, ids - {i}, bound - 1);
      } else {
        var i :| i in ids;
        InjectionBound(s, ids, bound - 1);
      }
    }
  }

  /** In every reachable state the slot is empty or holds an unsettled fetch of the current generation, no two
      unsettled fetches share a generation, and so at most `generation + 1` provider calls are outstanding. */
  lemma SingleFlight(actions: seq<Action>)
    ensures var s := Run(INITIAL, actions);
            && SlotInv(s)
            && |UnsettledFetches(s)| <= s.generation + 1
  {
    var s := Run(INITIAL, actions);
    ReachableInv(actions);
    forall i, j | i in UnsettledFetches(s) && j in UnsettledFetches(s) && i != j
      ensures s.fetches[i].generation != s.fetches[j].generation
    {
      if j < i {
        assert s.fetches[j].generation != s.fetches[i].generation;
      }
    }
    assert forall i :: i in UnsettledFetches(s) ==> FetchOk(s, s.fetches[i]);
    InjectionBound(s, UnsettledFetches(s), s.generation + 1);
  }

  predicate SettlesSlot(s: State, a: Action) {
    a.ClearAction? && CanClear(s, a.id) && s.inFlight == Some(a.id)
  }

  /** No action of the run settles the fetch holding the slot. */
  predicate SlotHeld(s: State, actions: seq<Action>)
    decreases |actions|
  {
    actions == [] || (!SettlesSlot(s, actions[0]) && SlotHeld(Step(s, actions[0]), actions[1..]))
  }

  function EvictionFetches(fetches: seq<Fetch>): nat {
    if fetches == [] then 0
    else EvictionFetches(fetches[..|fetches| - 1])
         + if fetches[|fetches| - 1].evictionGeneration == NO_EVICTION_GENERATION then 0 else 1
  }

  predicate HoldsEvictionFetch(s: State) {
    s.inFlight.Some? && s.inFlightEvictionGeneration == s.generation
  }

  // Provider calls, of any kind, that can still start before the slot settles.
  function Room(s: State): nat {
    if HoldsEvictionFetch(s) then 0 else if s.inFlight.Some? then 1 else 2
  }

  // Post-eviction provider calls that can still start before the slot settles.
  function EvictionRoom(s: State): nat {
    if HoldsEvictionFetch(s) then 0 else 1
  }

  lemma {:induction false} EvictionFetchesSame(a: seq<Fetch>, b: seq<Fetch>)
    requires |a| == |b| && forall i :: 0 <= i < |a| ==> SameOrigin(a[i], b[i])
    ensures EvictionFetches(a) == EvictionFetches(b)
  {
    if a == [] {
    } else {
      EvictionFetchesSame(a[..|a| - 1], b[..|b| - 1]);
    }
  }

  /** A step other than a call starts no fetch, and unless it settles the slot it leaves the slot as it was. */
  lemma NoCallNoFetch(s: State, a: Action)
    requires Inv(s) && !SettlesSlot(s, a) && !a.StampAction? && !a.ChallengeAction?
    ensures var t := Step(s, a);
            && |t.fetches| == |s.fetches| && t.generation == s.generation
            && t.inFlight == s.inFlight && t.inFlightEvictionGeneration == s.inFlightEvictionGeneration
  {
  }

  lemma RefreshUsesRoom(s: State, nowMs: Millis, eviction: int)
    requires s.inFlight.None?
    ensures var t := Refresh(s, nowMs, eviction).0;
            && |t.fetches| == |s.fetches| + 1
            && EvictionFetches(t.fetches)
               == EvictionFetches(s.fetches) + if eviction == NO_EVICTION_GENERATION then 0 else 1
  {
    var t := Refresh(s, nowMs, eviction).0;
    assert t.fetches[..|t.fetches| - 1] == s.fetches;
  }

  predicate UsesRoom(s: State, t: State) {
    && |t.fetches| + Room(t) <= |s.fetches| + Room(s)
    && EvictionFetches(t.fetches) + EvictionRoom(t) <= EvictionFetches(s.fetches) + EvictionRoom(s)
  }

  lemma StampUsesRoom(s: State, call: Call)
    requires Inv(s)
    ensures UsesRoom(s, Stamp(s, call).0)
  {
    if s.inFlight.None? {
      RefreshUsesRoom(s, call.nowMs, NO_EVICTION_GENERATION);
    }
  }

  lemma ChallengeUsesRoom(s: State, rejected: string, call: Call)
    requires Inv(s)
    ensures UsesRoom(s, Challenge(s, rejected, call).0)
  {
    var evicted := Evict(s, rejected).0;
    if !HoldsEvictionFetch(s) {
      RefreshUsesRoom(evicted.(generation := s.generation + 1, inFlight := None), call.nowMs, s.generation + 1);
    }
  }

  lemma StepUsesRoom(s: State, a: Action)
    requires Inv(s) && !SettlesSlot(s, a)
    ensures UsesRoom(s, Step(s, a))
  {
    match a
    case StampAction(call) => StampUsesRoom(s, call);
    case ChallengeAction(rejected, call) => ChallengeUsesRoom(s, rejected, call);
    case _ =>
      NoCallNoFetch(s, a);
      StepIsLater(s, a);
      EvictionFetchesSame(s.fetches, Step(s, a).fetches);
  }

  /** A burst of calls and 401s during which the slot is not settled starts at most one post-eviction provider
      call, and at most two provider calls in all. */
  lemma {:induction false} BurstStartsAtMostOne(s: State, actions: seq<Action>)
    requires Inv(s) && SlotHeld(s, actions)
    ensures var t := Run(s, actions);
            && EvictionFetches(t.fetches) <= EvictionFetches(s.fetches) + EvictionRoom(s)
            && |t.fetches| <= |s.fetches| + Room(s)
    decreases |actions|
  {
    if actions == [] {
    } else {
      StepUsesRoom(s, actions[0]);
      StepKeepsInv(s, actions[0]);
      BurstStartsAtMostOne(Step(s, actions[0]), actions[1..]);
    }
  }

  // ------------------------------------------------------------- what a 401 caller is given

  /** A 401 that falls through joins a post-eviction fetch of the generation current after it: one it starts, or
      one that a 401 of the same burst started; never a fetch begun by `stamp`. */
  lemma ChallengeJoinsEvictionFetch(before: seq<Action>, rejected: string, call: Call)
    requires FallsThrough(Run(INITIAL, before), rejected)
    requires !call.signal.AlreadyAborted?
    ensures var s := Run(INITIAL, before);
            var (t, reply) := Challenge(s, rejected, call);
            && t.cached.None?
            && reply == Awaiting(|s.waiters|) && |t.waiters| == |s.waiters| + 1
            && var id := t.waiters[|s.waiters|].fetch;
               && t.inFlight == Some(id) && id < |t.fetches|
               && t.fetches[id].generation == t.fetches[id].evictionGeneration == t.generation > 0
               && (id < |s.fetches| <==> HoldsEvictionFetch(s))
  {
    var s := Run(INITIAL, before);
    ReachableInv(before);
    StartPostEvictionKeepsInv(Evict(s, rejected).0, call.nowMs);
  }

  /** In every reachable state, a caller waiting after an eviction waits on a fetch that an eviction started. */
  lemma EvictionWaitersNeverShareStampFetch(actions: seq<Action>, w: nat)
    requires w < |Run(INITIAL, actions).waiters| && Run(INITIAL, actions).waiters[w].afterEviction
    ensures var s := Run(INITIAL, actions);
            && s.waiters[w].fetch < |s.fetches|
            && s.fetches[s.waiters[w].fetch].evictionGeneration == s.fetches[s.waiters[w].fetch].generation > 0
  {
    var s := Run(INITIAL, actions);
    ReachableInv(actions);
    assert WaiterOk(s, s.waiters[w]);
    assert FetchOk(s, s.fetches[s.waiters[w].fetch]);
  }

  /** The fetch a 401 joins has already published, and may so resolve to the very token just rejected, exactly
      when the slot holds a post-eviction fetch whose publish has run and whose clear has not. */
  lemma StaleJoinExactly(before: seq<Action>, rejected: string, call: Call)
    requires FallsThrough(Run(INITIAL, before), rejected)
    requires !call.signal.AlreadyAborted?
    ensures var s := Run(INITIAL, before);
            var t := Challenge(s, rejected, call).0;
            && |t.waiters| == |s.waiters| + 1
            && t.waiters[|s.waiters|].fetch < |t.fetches|
            && (t.fetches[t.waiters[|s.waiters|].fetch].phase.Published? <==>
                  HoldsEvictionFetch(s) && s.inFlight.value < |s.fetches|
                  && s.fetches[s.inFlight.value].phase.Published?)
  {
    ChallengeJoinsEvictionFetch(before, rejected, call);
  }

  /** That window is real: a 401 landing inside it is answered with the token it rejected. */
  lemma StaleJoinHappens()
    ensures var token := Token("t", None);
            var call := Call(0.0, 0.0, NoSignal);
            var actions := [ChallengeAction("Bearer s", call), PublishAction(0, Yields(token)),
                            ChallengeAction("Bearer t", call), ClearAction(0), DeliverAction(1)];
            var s := Run(INITIAL, actions);
            && |s.waiters| == 2
            && s.waiters[1] == Waiter(0, false, true, Delivered(Resolved(token)))
            && HeaderValue(token) == "Bearer t"
  {
    var token := Token("t", None);
    var call := Call(0.0, 0.0, NoSignal);
    var a0, a1, a2 := ChallengeAction("Bearer s", call), PublishAction(0, Yields(token)), ChallengeAction("Bearer t", call);
    var a3, a4 := ClearAction(0), DeliverAction(1);
    var fetch := Fetch(1, 1, 0.0, Running);
    var waiter := Waiter(0, false, true, Waiting);
    var s1 := State(None, Some(0), 1, 1, [fetch], [waiter], []);
    assert Step(INITIAL, a0) == s1;
    var s2 := State(Some(token), Some(0), 1, 1, [fetch.(phase := Published(Resolved(token)))], [waiter], [0]);
    assert Step(s1, a1) == s2;
    assert HeaderValue(token) == "Bearer t";
    var s3 := s2.(cached := None, waiters := [waiter, waiter]);
    assert Step(s2, a2) == s3;
    var s4 := s3.(inFlight := None, fetches := [fetch.(phase := Settled(Resolved(token)))]);
    assert Step(s3, a3) == s4;
    var s5 := s4.(waiters := [waiter, waiter.(delivery := Delivered(Resolved(token)))]);
    assert Step(s4, a4) == s5;
    assert Run(INITIAL, [a0, a1, a2, a3, a4]) == s5 by {
      assert [a0, a1, a2, a3, a4][1..] == [a1, a2, a3, a4];
      assert [a1, a2, a3, a4][1..] == [a2, a3, a4];
      assert [a2, a3, a4][1..] == [a3, a4];
      assert [a3, a4][1..] == [a4];
      assert Run(s4, [a4]) == Run(s5, []);
      assert Run(s3, [a3, a4]) == Run(s4, [a4]);
      assert Run(s2, [a2, a3, a4]) == Run(s3, [a3, a4]);
      assert Run(s1, [a1, a2, a3, a4]) == Run(s2, [a2, a3, a4]);
    }
  }

  // ---------------------------------------------------------------- isolation and expiry

  /** The two states differ at most in how waiter `w` was answered. */
  ghost predicate SameButWaiter(s: State, t: State, w: nat) {
    && s.cached == t.cached && s.inFlight == t.inFlight && s.generation == t.generation
    && s.inFlightEvictionGeneration == t.inFlightEvictionGeneration
    && s.fetches == t.fetches && s.stores == t.stores
    && |s.waiters| == |t.waiters|
    && (forall v :: 0 <= v < |s.waiters| && v != w ==> s.waiters[v] == t.waiters[v])
    && (w < |s.waiters| ==> s.waiters[w].fetch == t.waiters[w].fetch)
  }

  lemma StepSameButWaiter(s: State, t: State, w: nat, a: Action)
    requires SameButWaiter(s, t, w) && w < |s.waiters|
    ensures SameButWaiter(Step(s, a), Step(t, a), w) && w < |Step(s, a).waiters|
  {
    match a
    case StampAction(call) => StampSameButWaiter(s, t, w, call);
    case ChallengeAction(rejected, call) => ChallengeSameButWaiter(s, t, w, rejected, call);
    case _ =>
  }

  lemma StampSameButWaiter(s: State, t: State, w: nat, call: Call)
    requires SameButWaiter(s, t, w) && w < |s.waiters|
    ensures SameButWaiter(Stamp(s, call).0, Stamp(t, call).0, w) && w < |Stamp(s, call).0.waiters|
  {
  }

  lemma ChallengeSameButWaiter(s: State, t: State, w: nat, rejected: string, call: Call)
    requires SameButWaiter(s, t, w) && w < |s.waiters|
    ensures SameButWaiter(Challenge(s, rejected, call).0, Challenge(t, rejected, call).0, w)
    ensures w < |Challenge(s, rejected, call).0.waiters|
  {
  }

  lemma {:induction false} RunSameButWaiter(s: State, t: State, w: nat, actions: seq<Action>)
    requires SameButWaiter(s, t, w) && w < |s.waiters|
    ensures SameButWaiter(Run(s, actions), Run(t, actions), w)
    decreases |actions|
  {
    if actions == [] {
    } else {
      StepSameButWaiter(s, t, w, actions[0]);
      RunSameButWaiter(Step(s, actions[0]), Step(t, actions[0]), w, actions[1..]);
    }
  }

  /** One caller giving up is invisible to everyone else: whatever happens next, the cache, the slot, every fetch
      and every other waiter come out as if it had kept waiting. */
  lemma AbortIsInvisible(s: State, w: nat, after: seq<Action>)
    requires CanAbort(s, w)
    ensures SameButWaiter(Run(s, after), Run(Step(s, AbortAction(w)), after), w)
  {
    RunSameButWaiter(s, Step(s, AbortAction(w)), w, after);
  }

  /** The cached token changes only when a current fetch resolves or a 401 rejects exactly that token; a failed
      fetch in particular leaves it alone. */
  lemma CacheChangesOnlyBy(s: State, a: Action)
    requires Step(s, a).cached != s.cached
    ensures if Step(s, a).cached.Some? then
              && a.PublishAction? && CanPublish(s, a.id) && s.fetches[a.id].generation == s.generation
              && a.answer == Yields(Step(s, a).cached.value)
            else
              a.ChallengeAction? && s.cached.Some? && HeaderValue(s.cached.value) == a.rejected
  {
  }

  /** A stamp is served without waiting exactly when the cached token is unexpired at the caller's own reading;
      a caller already aborted that finds none is cancelled and starts no fetch. */
  lemma StampReplies(s: State, call: Call)
    requires call.marginMs >= 0.0
    ensures var (t, reply) := Stamp(s, call);
            && (reply.Stamped? <==> s.cached.Some? && !IsExpired(s.cached.value, call.nowMs, 0.0))
            && (reply.Stamped? ==> Some(reply.token) == s.cached == t.cached)
            && (reply.Cancelled? <==> !reply.Stamped? && call.signal.AlreadyAborted?)
            && (reply.Cancelled? ==> t == s)
            && (|t.fetches| > |s.fetches| <==>
                  s.inFlight.None? && !reply.Cancelled?
                  && (s.cached.Some? ==> IsExpired(s.cached.value, call.nowMs, call.marginMs)))
  {
  }

  /** A 401 is answered from the cache exactly when another token than the rejected one is there, whatever the time: unlike
      a stamp's, that answer is expired exactly when the cached token is. */
  lemma ChallengeReplies(s: State, rejected: string, call: Call)
    ensures var (t, reply) := Challenge(s, rejected, call);
            && (reply.Stamped? <==> s.cached.Some? && HeaderValue(s.cached.value) != rejected)
            && (reply.Stamped? ==> t == s)
            && (reply.Stamped? && IsExpired(reply.token, call.nowMs, 0.0)
                <==> s.cached.Some? && HeaderValue(s.cached.value) != rejected && IsExpired(s.cached.value, call.nowMs, 0.0))
            && (reply.Cancelled? <==> !reply.Stamped? && call.signal.AlreadyAborted?)
  {
  }

  /** It happens to any token that expires: fetched while it is good, it is handed out when it no longer is, to a 401 on
      another one. */
  lemma ExpiredSurvivorHappens(token: Token, rejected: string, call: Call)
    requires token.expiresAt.Some? && 0.0 <= token.expiresAt.value < call.nowMs && HeaderValue(token) != rejected
    requires call.marginMs >= 0.0
    ensures var s := Run(INITIAL, [StampAction(Call(0.0, 0.0, NoSignal)), PublishAction(0, Yields(token))]);
            && Challenge(s, rejected, call).1 == Stamped(token) && IsExpired(token, call.nowMs, 0.0)
            && !Stamp(s, call).1.Stamped?
  {
    var a0, a1 := StampAction(Call(0.0, 0.0, NoSignal)), PublishAction(0, Yields(token));
    var fetch := Fetch(0, NO_EVICTION_GENERATION, 0.0, Running);
    var waiter := Waiter(0, false, false, Waiting);
    var s1 := State(None, Some(0), 0, NO_EVICTION_GENERATION, [fetch], [waiter], []);
    assert Step(INITIAL, a0) == s1;
    var s2 := s1.(cached := Some(token), fetches := [fetch.(phase := Published(Resolved(token)))], stores := [0]);
    assert Step(s1, a1) == s2;
    assert [a0, a1][1..] == [a1] && Run(s1, [a1]) == Run(s2, []);
  }

  /** In every reachable state a delivered token was unexpired at the reading of the call that began its fetch. */
  lemma DeliveredTokensUnexpired(actions: seq<Action>, w: nat)
    requires w < |Run(INITIAL, actions).waiters|
    requires Run(INITIAL, actions).waiters[w].delivery.Delivered?
    ensures var s := Run(INITIAL, actions);
            var waiter := s.waiters[w];
            && waiter.fetch < |s.fetches|
            && s.fetches[waiter.fetch].phase == Settled(waiter.delivery.outcome)
            && (waiter.delivery.outcome.Resolved? ==>
                  !IsExpired(waiter.delivery.outcome.token, s.fetches[waiter.fetch].nowMs, 0.0))
  {
    var s := Run(INITIAL, actions);
    ReachableInv(actions);
    assert WaiterOk(s, s.waiters[w]);
    assert FetchOk(s, s.fetches[s.waiters[w].fetch]);
  }

  // ------------------------------------------------------------------------- the object

  /** The cache as the source writes it: four fields updated in place. `fetches` and `waiters` are the promise
      callbacks still registered with the runtime, in the order they were made. */
  class BearerTokenCache {
    var cached: Option<Token>
    var inFlight: Option<nat>
    var generation: nat
    var inFlightEvictionGeneration: int
    var fetches: seq<Fetch>
    var waiters: seq<Waiter>
    ghost var stores: seq<nat>

    ghost function View(): State
      reads this
    {
      State(cached, inFlight, generation, inFlightEvictionGeneration, fetches, waiters, stores)
    }

    constructor ()
      ensures View() == INITIAL && Inv(View())
    {
      cached, inFlight, generation := None, None, 0;
      inFlightEvictionGeneration := NO_EVICTION_GENERATION;
      fetches, waiters, stores := [], [], [];
    }

    method StampCall(call: Call) returns (reply: Reply)
      requires Inv(View())
      modifies this
      ensures Inv(View()) && (View(), reply) == Stamp(old(View()), call)
    {
      StampKeepsInv(View(), call);
      if cached.Some? {
        var expiring := IsExpired(cached.value, call.nowMs, call.marginMs);
        if !expiring {
          return Stamped(cached.value);
        }
        var expired := IsExpired(cached.value, call.nowMs, 0.0);
        if !expired {
          var stillValid := cached.value;
          var _ := RefreshNow(call.nowMs, NO_EVICTION_GENERATION);
          return Stamped(stillValid);
        }
      }
      if call.signal.AlreadyAborted? {
        return Cancelled;
      }
      var fetch := RefreshNow(call.nowMs, NO_EVICTION_GENERATION);
      reply := Wait(fetch, call, false);
    }

    /** A 401 on `rejected`: the survivor if there is one, else a post-eviction fetch. */
    method ChallengeCall(rejected: string, call: Call) returns (reply: Reply)
      requires Inv(View())
      modifies this
      ensures Inv(View()) && (View(), reply) == Challenge(old(View()), rejected, call)
    {
      ChallengeKeepsInv(View(), rejected, call);
      var survivor := EvictExact(rejected);
      if survivor.Some? {
        return Stamped(survivor.value);
      }
      if call.signal.AlreadyAborted? {
        return Cancelled;
      }
      var fetch := StartPostEvictionNow(call.nowMs);
      reply := Wait(fetch, call, true);
    }

    /** Joins the eviction fetch of the current generation, or supersedes whatever is in flight with one of a new. */
    method StartPostEvictionNow(nowMs: Millis) returns (fetch: nat)
      modifies `generation, `inFlight, `inFlightEvictionGeneration, `fetches
      ensures (View(), fetch) == StartPostEviction(old(View()), nowMs)
    {
      if inFlight.Some? && inFlightEvictionGeneration == generation {
        return inFlight.value;
      }
      generation := generation + 1;
      inFlight := None;
      fetch := RefreshNow(nowMs, generation);
    }

    method EvictExact(rejected: string) returns (survivor: Option<Token>)
      modifies `cached
      ensures (View(), survivor) == Evict(old(View()), rejected)
    {
      if cached.None? {
        return None;
      }
      if HeaderValue(cached.value) == rejected {
        cached := None;
        return None;
      }
      return cached;
    }

    method RefreshNow(nowMs: Millis, eviction: int) returns (fetch: nat)
      modifies `inFlight, `inFlightEvictionGeneration, `fetches
      ensures (View(), fetch) == Refresh(old(View()), nowMs, eviction)
    {
      if inFlight.Some? {
        return inFlight.value;
      }
      inFlightEvictionGeneration := eviction;
      fetch := |fetches|;
      fetches := fetches + [Fetch(generation, eviction, nowMs, Running)];
      inFlight := Some(fetch);
    }

    method Wait(fetch: nat, call: Call, afterEviction: bool) returns (reply: Reply)
      modifies `waiters
      ensures (View(), reply) == Join(old(View()), fetch, call, afterEviction)
    {
      reply := Awaiting(|waiters|);
      waiters := waiters + [Waiter(fetch, call.signal.Live?, afterEviction, Waiting)];
    }

    /** The provider's promise settles and its `then` runs. */
    method OnSettled(id: nat, answer: Answer)
      requires Inv(View()) && CanPublish(View(), id)
      modifies this
      ensures Inv(View()) && View() == Publish(old(View()), id, answer)
    {
      PublishKeepsInv(View(), id, answer);
      var fetch := fetches[id];
      if answer.Yields? && !IsExpired(answer.token, fetch.nowMs, 0.0) {
        if fetch.generation == generation {
          cached := Some(answer.token);
          stores := stores + [id];
        }
        fetches := fetches[id := fetch.(phase := Published(Resolved(answer.token)))];
      } else {
        fetches := fetches[id := fetch.(phase := Published(Failed))];
      }
    }

    /** The `finally` of the same fetch runs. */
    method OnFinally(id: nat)
      requires Inv(View()) && CanClear(View(), id)
      modifies this
      ensures Inv(View()) && View() == Clear(old(View()), id)
    {
      ClearKeepsInv(View(), id);
      var fetch := fetches[id];
      if fetch.generation == generation {
        inFlight := None;
      }
      fetches := fetches[id := fetch.(phase := Settled(fetch.phase.outcome))];
    }

    /** A waiter's signal aborts before its promise settles: it stops waiting, the fetch goes on. */
    method OnAbort(w: nat)
      requires Inv(View()) && CanAbort(View(), w)
      modifies `waiters
      ensures Inv(View()) && View() == Answered(old(View()), w, Aborted)
    {
      AnswerKeepsInv(View(), w, Aborted);
      waiters := waiters[w := waiters[w].(delivery := Aborted)];
    }

    method OnDelivered(w: nat)
      requires Inv(View()) && CanDeliver(View(), w)
      modifies `waiters
      ensures Inv(View()) && View() == Step(old(View()), DeliverAction(w))
    {
      StepKeepsInv(View(), DeliverAction(w));
      waiters := waiters[w := waiters[w].(delivery := Delivered(fetches[waiters[w].fetch].phase.outcome))];
    }
  }
}
