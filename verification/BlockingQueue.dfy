/** Blocking queues built from one mutex and two condition variables: the bounded queue over a ring
    buffer, and the condition-variable wrapper around a list or around a single element. Any number
    of producers and consumers; a locked section is one step; waits may wake spuriously; the
    scheduler chooses which sleeper a `notify_one` reaches. */
module BlockingQueue {
  import opened Common

  /** What is transferred: an owning pointer, which may be null. */
  datatype Element = Null | Item(value: int)

  /** The container under the lock. */
  datatype Store =
    | Ring(capacity: nat)  // boost::circular_buffer of a given capacity
    | List                 // std::queue, full when size() > MAX_QUEUE_SIZE
    | Single               // one std::unique_ptr, empty when null

  const MAX_QUEUE_SIZE: nat := 20

  predicate Full(store: Store, q: seq<Element>) {
    match store
    case Ring(c) => |q| == c
    case List => |q| > MAX_QUEUE_SIZE
    case Single => q != []
  }

  predicate Empty(q: seq<Element>) { q == [] }

  /** Storing an element; assigning a null pointer to the single slot leaves it empty. */
  function MoveIn(store: Store, q: seq<Element>, e: Element): seq<Element> {
    match store
    case Single => if e.Null? then [] else [e]
    case _ => q + [e]
  }

  function Capacity(store: Store): nat {
    match store
    case Ring(c) => c
    case List => MAX_QUEUE_SIZE + 1
    case Single => 1
  }

  datatype Pc =
    | Idle
    | PushReady(e: Element) | PushAsleep(e: Element) | PushWoken(e: Element)
    | PopReady | PopAsleep | PopWoken

  predicate IsPushWoken(p: Pc) { p.PushWoken? }
  predicate IsPopWoken(p: Pc) { p.PopWoken? }

  datatype State = State(
    store: Store,
    q: seq<Element>,
    threads: seq<Pc>,
    pushed: seq<Element>,   // history of completed pushes, in lock order
    pushers: seq<nat>,           // history: the thread that made each of them
    popped: seq<Element>)   // history of completed pops, in lock order

  function Init(store: Store, n: nat): State {
    State(store, [], seq(n, i => Idle), [], [], [])
  }

  datatype Action =
    | CallPush(i: nat, e: Element) | CallPop(i: nat)
    | PushSection(i: nat, wake: Option<nat>) | PopSection(i: nat, wake: Option<nat>)
    | Spurious(i: nat)

  ghost predicate SomePopAsleep(threads: seq<Pc>) {
    exists j :: 0 <= j < |threads| && threads[j].PopAsleep?
  }

  ghost predicate SomePushAsleep(threads: seq<Pc>) {
    exists j :: 0 <= j < |threads| && threads[j].PushAsleep?
  }

  /** `notify_one` on "not empty": reaches a sleeping consumer if there is one. */
  ghost predicate NotifiesConsumer(threads: seq<Pc>, wake: Option<nat>) {
    match wake
    case Some(j) => j < |threads| && threads[j].PopAsleep?
    case None => !SomePopAsleep(threads)
  }

  ghost predicate NotifiesProducer(threads: seq<Pc>, wake: Option<nat>) {
    match wake
    case Some(j) => j < |threads| && threads[j].PushAsleep?
    case None => !SomePushAsleep(threads)
  }

  function Wake(threads: seq<Pc>, wake: Option<nat>): (r: seq<Pc>)
    ensures |r| == |threads|
  {
    if wake.None? || wake.value >= |threads| then threads
    else match threads[wake.value]
      case PopAsleep => threads[wake.value := PopWoken]
      case PushAsleep(e) => threads[wake.value := PushWoken(e)]
      case _ => threads
  }

  ghost function Step(s: State, a: Action): Option<State> {
    if a.i >= |s.threads| then None
    else match (a, s.threads[a.i])
      case (CallPush(i, e), Idle) => Some(s.(threads := s.threads[i := PushReady(e)]))
      case (CallPop(i), Idle) => Some(s.(threads := s.threads[i := PopReady]))
      case (PushSection(i, wake), PushReady(e)) => DoPush(s, i, e, wake)
      case (PushSection(i, wake), PushWoken(e)) => DoPush(s, i, e, wake)
      case (PopSection(i, wake), PopReady) => DoPop(s, i, wake)
      case (PopSection(i, wake), PopWoken) => DoPop(s, i, wake)
      case (Spurious(i), PushAsleep(e)) => Some(s.(threads := s.threads[i := PushWoken(e)]))
      case (Spurious(i), PopAsleep) => Some(s.(threads := s.threads[i := PopWoken]))
      case _ => None
  }

  /** push / moveIn, from the test under the lock: sleep if full, else store and notify. */
  ghost function DoPush(s: State, i: nat, e: Element, wake: Option<nat>): Option<State>
    requires i < |s.threads|
  {
    if Full(s.store, s.q) then
      if wake.Some? then None else Some(s.(threads := s.threads[i := PushAsleep(e)]))
    else if !NotifiesConsumer(s.threads, wake) then None
    else Some(s.(q := MoveIn(s.store, s.q, e), pushed := s.pushed + [e], pushers := s.pushers + [i], threads := Wake(s.threads, wake)[i := Idle]))
  }

  /** pop / moveOut. */
  ghost function DoPop(s: State, i: nat, wake: Option<nat>): Option<State>
    requires i < |s.threads|
  {
    if Empty(s.q) then
      if wake.Some? then None else Some(s.(threads := s.threads[i := PopAsleep]))
    else if !NotifiesProducer(s.threads, wake) then None
    else Some(s.(q := s.q[1..], popped := s.popped + [s.q[0]], threads := Wake(s.threads, wake)[i := Idle]))
  }

  ghost function Run(s: State, acts: seq<Action>): Option<State>
    decreases |acts|
  {
    if acts == [] then Some(s)
    else match Step(s, acts[0]) case None => None case Some(s') => Run(s', acts[1..])
  }

  /** The elements that survive being stored: all, except that a single slot forgets nulls. */
  function Stored(store: Store, pushed: seq<Element>): seq<Element> {
    if pushed == [] then []
    else Stored(store, pushed[..|pushed| - 1])
         + (if store.Single? && pushed[|pushed| - 1].Null? then [] else [pushed[|pushed| - 1]])
  }

  predicate NullFree(store: Store, pushed: seq<Element>) {
    store.Single? ==> Null !in pushed
  }

  ghost predicate Inv(s: State) {
    && |s.q| <= Capacity(s.store)
    && Stored(s.store, s.pushed) == s.popped + s.q
    && (SomePopAsleep(s.threads) ==> |s.q| <= Count(s.threads, IsPopWoken))
    && (SomePushAsleep(s.threads) && NullFree(s.store, s.pushed) ==> Capacity(s.store) - |s.q| <= Count(s.threads, IsPushWoken))
  }

  lemma InitInv(store: Store, n: nat)
    ensures Inv(Init(store, n))
  {
  }

  /** Both counts after thread `i` moves to `pc`. */
  lemma MoveThread(threads: seq<Pc>, i: nat, pc: Pc)
    requires i < |threads|
    ensures Count(threads[i := pc], IsPopWoken) + (if threads[i].PopWoken? then 1 else 0)
         == Count(threads, IsPopWoken) + (if pc.PopWoken? then 1 else 0)
    ensures Count(threads[i := pc], IsPushWoken) + (if threads[i].PushWoken? then 1 else 0)
         == Count(threads, IsPushWoken) + (if pc.PushWoken? then 1 else 0)
    ensures SomePopAsleep(threads[i := pc]) ==> SomePopAsleep(threads) || pc.PopAsleep?
    ensures SomePushAsleep(threads[i := pc]) ==> SomePushAsleep(threads) || pc.PushAsleep?
  {
    CountUpdate(threads, i, pc, IsPopWoken);
    CountUpdate(threads, i, pc, IsPushWoken);
    assert forall j :: 0 <= j < |threads| && j != i ==> threads[i := pc][j] == threads[j];
  }

  lemma PushInv(s: State, i: nat, e: Element, wake: Option<nat>, s': State)
    requires Inv(s) && i < |s.threads| && (s.threads[i] == PushReady(e) || s.threads[i] == PushWoken(e))
    requires DoPush(s, i, e, wake) == Some(s')
    ensures Inv(s')
  {
    if Full(s.store, s.q) {
      MoveThread(s.threads, i, PushAsleep(e));
    } else {
      var woken := Wake(s.threads, wake);
      if wake.Some? {
        MoveThread(s.threads, wake.value, PopWoken);
      }
      MoveThread(woken, i, Idle);
      assert s'.pushed[..|s.pushed|] == s.pushed;
      assert Stored(s.store, s'.pushed) == s'.popped + s'.q;
    }
  }

  lemma PopInv(s: State, i: nat, wake: Option<nat>, s': State)
    requires Inv(s) && i < |s.threads| && (s.threads[i].PopReady? || s.threads[i].PopWoken?)
    requires DoPop(s, i, wake) == Some(s')
    ensures Inv(s')
  {
    if Empty(s.q) {
      MoveThread(s.threads, i, PopAsleep);
    } else {
      var woken := Wake(s.threads, wake);
      if wake.Some? {
        MoveThread(s.threads, wake.value, PushWoken(s.threads[wake.value].e));
      }
      MoveThread(woken, i, Idle);
      assert s.popped + s.q == s'.popped + s'.q;
    }
  }

  lemma StepInv(s: State, a: Action)
    requires Inv(s) && Step(s, a).Some?
    ensures Inv(Step(s, a).value)
  {
    var s' := Step(s, a).value;
    match a
    case PushSection(i, wake) => PushInv(s, i, s.threads[i].e, wake, s');
    case PopSection(i, wake) => PopInv(s, i, wake, s');
    case _ => MoveThread(s.threads, a.i, s'.threads[a.i]);
  }

  lemma {:induction false} RunInv(s: State, acts: seq<Action>)
    requires Inv(s) && Run(s, acts).Some?
    ensures Inv(Run(s, acts).value)
    decreases |acts|
  {
    if acts != [] {
      StepInv(s, acts[0]);
      RunInv(Step(s, acts[0]).value, acts[1..]);
    }
  }

  ghost predicate Reachable(s: State) {
    exists store, n: nat, acts :: Run(Init(store, n), acts) == Some(s)
  }

  lemma ReachableInv(s: State)
    requires Reachable(s)
    ensures Inv(s)
  {
    var store, n: nat, acts :| Run(Init(store, n), acts) == Some(s);
    InitInv(store, n);
    RunInv(Init(store, n), acts);
  }

  // ---- What every run keeps ----

  /** What the calls of push by thread `i` were given, in order, read off the calls. */
  function GivenBy(acts: seq<Action>, i: nat): seq<Element> {
    if acts == [] then []
    else (if acts[0].CallPush? && acts[0].i == i then [acts[0].e] else []) + GivenBy(acts[1..], i)
  }

  /** What thread `i` has pushed, in order. */
  function PushedBy(pushed: seq<Element>, pushers: seq<nat>, i: nat): seq<Element>
    requires |pushed| == |pushers|
  {
    if pushers == [] then []
    else
      var n := |pushers| - 1;
      PushedBy(pushed[..n], pushers[..n], i) + (if pushers[n] == i then [pushed[n]] else [])
  }

  /** What the call of push under way has not stored yet. */
  function Carried(p: Pc): seq<Element> {
    match p
    case PushReady(e) => [e]
    case PushAsleep(e) => [e]
    case PushWoken(e) => [e]
    case _ => []
  }

  lemma PushedBySnoc(pushed: seq<Element>, pushers: seq<nat>, e: Element, j: nat, i: nat)
    requires |pushed| == |pushers|
    ensures PushedBy(pushed + [e], pushers + [j], i) == PushedBy(pushed, pushers, i) + (if j == i then [e] else [])
  {
    assert (pushed + [e])[..|pushers|] == pushed && (pushers + [j])[..|pushers|] == pushers;
  }

  lemma WakeCarries(threads: seq<Pc>, wake: Option<nat>, i: nat)
    requires i < |threads|
    ensures Carried(Wake(threads, wake)[i]) == Carried(threads[i])
  {
  }

  /** What thread `i` was given so far: what it pushed and what it carries. */
  function Account(s: State, i: nat): seq<Element>
    requires |s.pushed| == |s.pushers| && i < |s.threads|
  {
    PushedBy(s.pushed, s.pushers, i) + Carried(s.threads[i])
  }

  lemma PushAccount(s: State, j: nat, e: Element, wake: Option<nat>, s': State, i: nat)
    requires |s.pushed| == |s.pushers| && i < |s.threads| && j < |s.threads| && Carried(s.threads[j]) == [e]
    requires DoPush(s, j, e, wake) == Some(s')
    ensures |s'.pushed| == |s'.pushers| && |s'.threads| == |s.threads| && Account(s', i) == Account(s, i)
  {
    PushedBySnoc(s.pushed, s.pushers, e, j, i);
    WakeCarries(s.threads, wake, i);
  }

  lemma PopAccount(s: State, j: nat, wake: Option<nat>, s': State, i: nat)
    requires |s.pushed| == |s.pushers| && i < |s.threads| && j < |s.threads| && Carried(s.threads[j]) == []
    requires DoPop(s, j, wake) == Some(s')
    ensures |s'.pushed| == |s'.pushers| && |s'.threads| == |s.threads| && Account(s', i) == Account(s, i)
  {
    WakeCarries(s.threads, wake, i);
  }

  /** One step takes what a call was given from the caller to the thread, or from the thread to the history. */
  lemma GivenStep(s: State, a: Action, i: nat)
    requires |s.pushed| == |s.pushers| && i < |s.threads| && Step(s, a).Some?
    ensures var s' := Step(s, a).value;
      && |s'.pushed| == |s'.pushers| && |s'.threads| == |s.threads|
      && Account(s', i) == Account(s, i) + (if a.CallPush? && a.i == i then [a.e] else [])
  {
    match a
    case PushSection(j, wake) => PushAccount(s, j, s.threads[j].e, wake, Step(s, a).value, i);
    case PopSection(j, wake) => PopAccount(s, j, wake, Step(s, a).value, i);
    case _ =>
  }

  lemma {:induction false} GivenRun(s: State, acts: seq<Action>, i: nat)
    requires |s.pushed| == |s.pushers| && i < |s.threads| && Run(s, acts).Some?
    ensures var s' := Run(s, acts).value;
      && |s'.pushed| == |s'.pushers| && |s'.threads| == |s.threads|
      && Account(s', i) == Account(s, i) + GivenBy(acts, i)
    decreases |acts|
  {
    if acts != [] {
      var a, rest := acts[0], acts[1..];
      GivenStep(s, a, i);
      GivenRun(Step(s, a).value, rest, i);
      Associative(Account(s, i), if a.CallPush? && a.i == i then [a.e] else [], GivenBy(rest, i));
    }
  }

  /** Every thread pushes what its calls were given, in their order, up to the one still waiting. */
  lemma CallsPushWhatTheyAreGiven(store: Store, n: nat, acts: seq<Action>, i: nat)
    requires Run(Init(store, n), acts).Some? && i < n
    ensures var s := Run(Init(store, n), acts).value;
      && |s.pushed| == |s.pushers| && |s.threads| == n
      && GivenBy(acts, i) == PushedBy(s.pushed, s.pushers, i) + Carried(s.threads[i])
  {
    GivenRun(Init(store, n), acts, i);
    assert [] + [] + GivenBy(acts, i) == GivenBy(acts, i);
  }

  /** A container is full exactly when it holds its capacity: 21 elements in the list, one in the single slot. */
  lemma FullIff(s: State)
    requires Reachable(s)
    ensures Full(s.store, s.q) <==> |s.q| == Capacity(s.store)
    ensures s.store.List? ==> (Full(s.store, s.q) <==> |s.q| == 21)
    ensures s.store.Single? ==> (Full(s.store, s.q) <==> |s.q| == 1)
    ensures s.store.Ring? ==> (Full(s.store, s.q) <==> |s.q| == s.store.capacity)
    ensures Empty(s.q) <==> |s.q| == 0
  {
    ReachableInv(s);
  }

  /** First in, first out, nothing duplicated; and nothing lost unless a null went into the single
      slot, in which case exactly the nulls are lost. The capacity is never exceeded. */
  lemma FifoWithinCapacity(s: State)
    requires Reachable(s)
    ensures Stored(s.store, s.pushed) == s.popped + s.q
    ensures s.pushed == s.popped + s.q <==> NullFree(s.store, s.pushed)
    ensures |s.q| <= Capacity(s.store)
  {
    ReachableInv(s);
    StoredAll(s.store, s.pushed);
  }

  lemma {:induction false} StoredAll(store: Store, pushed: seq<Element>)
    ensures |Stored(store, pushed)| <= |pushed|
    ensures NullFree(store, pushed) <==> |Stored(store, pushed)| == |pushed|
    ensures NullFree(store, pushed) ==> Stored(store, pushed) == pushed
  {
    if pushed != [] {
      var front, last := pushed[..|pushed| - 1], pushed[|pushed| - 1];
      StoredAll(store, front);
      assert pushed == front + [last];
      assert Null in pushed <==> Null in front || last.Null?;
    }
  }

  /** No wake-up of a consumer is lost, whatever is transferred. */
  lemma NoLostConsumerWakeUp(s: State)
    requires Reachable(s) && SomePopAsleep(s.threads)
    ensures |s.q| <= Count(s.threads, IsPopWoken)
    ensures (forall j :: 0 <= j < |s.threads| ==> !s.threads[j].PopWoken?) ==> Empty(s.q)
  {
    ReachableInv(s);
    CountPositive(s.threads, IsPopWoken);
  }

  /** No wake-up of a producer is lost as long as no null goes into the single slot. */
  lemma NoLostProducerWakeUp(s: State)
    requires Reachable(s) && SomePushAsleep(s.threads) && NullFree(s.store, s.pushed)
    ensures Capacity(s.store) - |s.q| <= Count(s.threads, IsPushWoken)
    ensures (forall j :: 0 <= j < |s.threads| ==> !s.threads[j].PushWoken?) ==> Full(s.store, s.q)
  {
    ReachableInv(s);
    CountPositive(s.threads, IsPushWoken);
  }

  ghost predicate SomeWoken(threads: seq<Pc>) {
    exists j :: 0 <= j < |threads| && (threads[j].PushWoken? || threads[j].PopWoken?)
  }

  /** When a producer and a consumer sleep, some sleeper has been woken. */
  ghost predicate OneSideMoves(s: State) {
    SomePushAsleep(s.threads) && SomePopAsleep(s.threads) ==> SomeWoken(s.threads)
  }

  /** So producers and consumers are never asleep together with nobody woken, as long as no null goes into the
      single slot; with capacity zero every container state is both full and empty, and they may be. */
  lemma NeverStuckOnBothSides(s: State)
    requires Reachable(s) && NullFree(s.store, s.pushed) && Capacity(s.store) > 0
    ensures OneSideMoves(s)
  {
    if SomePushAsleep(s.threads) && SomePopAsleep(s.threads) {
      NoLostConsumerWakeUp(s);
      NoLostProducerWakeUp(s);
    }
  }

  lemma ZeroCapacityIsFullAndEmpty(s: State)
    requires Reachable(s) && Capacity(s.store) == 0
    ensures Full(s.store, s.q) && Empty(s.q) && s.pushed == []
  {
    ReachableInv(s);
    StoredAll(s.store, s.pushed);
    var store, n: nat, acts :| Run(Init(store, n), acts) == Some(s);
    ZeroCapacityRun(Init(store, n), acts);
  }

  lemma {:induction false} ZeroCapacityRun(s: State, acts: seq<Action>)
    requires Inv(s) && Run(s, acts).Some?
    ensures Run(s, acts).value.store == s.store
    ensures Capacity(s.store) == 0 && s.pushed == [] ==> Run(s, acts).value.pushed == []
    decreases |acts|
  {
    if acts != [] {
      StepInv(s, acts[0]);
      ZeroCapacityRun(Step(s, acts[0]).value, acts[1..]);
    }
  }

  // ---- Nulls in the single slot ----

  ghost predicate From(store: Store, n: nat, s: State) {
    exists acts :: Run(Init(store, n), acts) == Some(s)
  }

  /** The state of three busy threads among `n`. */
  function Three(a: Pc, b: Pc, c: Pc, n: nat): (r: seq<Pc>)
    requires n >= 3
    ensures |r| == n && r[0] == a && r[1] == b && r[2] == c && forall j :: 3 <= j < n ==> r[j] == Idle
  {
    [a, b, c] + seq(n - 3, j => Idle)
  }

  /** A null in the single slot can leave a producer asleep for ever beside an empty slot, with every other
      thread idle or asleep, as soon as there are three threads. */
  lemma NullStrandsProducer(n: nat)
    requires n >= 3
    ensures exists s :: From(Single, n, s) && s.store == Single && s.q == [] && s.threads == Three(Idle, PushAsleep(Item(2)), PopAsleep, n)
  {
    var s := Init(Single, n);
    assert Run(s, []) == Some(s) && s.threads == Three(Idle, Idle, Idle, n);
    s := Go(Single, n, s, CallPush(0, Item(1)));
    assert s.threads == Three(PushReady(Item(1)), Idle, Idle, n);
    s := Go(Single, n, s, PushSection(0, None));
    assert s.threads == Three(Idle, Idle, Idle, n) && s.q == [Item(1)];
    NullStrandsProducerMiddle(n, s);
  }

  lemma NullStrandsProducerMiddle(n: nat, s0: State)
    requires n >= 3 && From(Single, n, s0) && s0.store == Single && s0.threads == Three(Idle, Idle, Idle, n) && s0.q == [Item(1)]
    ensures exists s :: From(Single, n, s) && s.store == Single && s.q == [] && s.threads == Three(Idle, PushAsleep(Item(2)), PopAsleep, n)
  {
    var s := Go(Single, n, s0, CallPush(0, Null));
    s := Go(Single, n, s, PushSection(0, None));
    assert s.threads == Three(PushAsleep(Null), Idle, Idle, n);
    s := Go(Single, n, s, CallPush(1, Item(2)));
    s := Go(Single, n, s, PushSection(1, None));
    assert s.threads == Three(PushAsleep(Null), PushAsleep(Item(2)), Idle, n);
    NullStrandsProducerTail(n, s);
  }

  lemma NullStrandsProducerTail(n: nat, s0: State)
    requires n >= 3 && From(Single, n, s0) && s0.store == Single
    requires s0.threads == Three(PushAsleep(Null), PushAsleep(Item(2)), Idle, n) && s0.q == [Item(1)]
    ensures exists s :: From(Single, n, s) && s.store == Single && s.q == [] && s.threads == Three(Idle, PushAsleep(Item(2)), PopAsleep, n)
  {
    var s := Go(Single, n, s0, CallPop(2));
    s := Go(Single, n, s, PopSection(2, Some(0)));
    assert s.threads == Three(PushWoken(Null), PushAsleep(Item(2)), Idle, n) && s.q == [];
    s := Go(Single, n, s, PushSection(0, None));
    s := Go(Single, n, Go(Single, n, s, CallPop(2)), PopSection(2, None));
    assert s.threads == Three(Idle, PushAsleep(Item(2)), PopAsleep, n);
  }

  ghost function Go(store: Store, n: nat, s: State, a: Action): (s': State)
    requires From(store, n, s) && Step(s, a).Some?
    ensures Some(s') == Step(s, a) && From(store, n, s')
  {
    FromStep(store, n, s, a);
    Step(s, a).value
  }

  lemma FromStep(store: Store, n: nat, s: State, a: Action)
    requires From(store, n, s) && Step(s, a).Some?
    ensures From(store, n, Step(s, a).value)
  {
    var acts :| Run(Init(store, n), acts) == Some(s);
    RunConcat(Init(store, n), acts, [a]);
    assert Run(s, [a]) == Step(s, a);
    assert Run(Init(store, n), acts + [a]) == Step(s, a);
  }

  /** No wake-up of a producer is lost in this state. */
  ghost predicate ProducersCovered(s: State) {
    SomePushAsleep(s.threads) ==> Capacity(s.store) - |s.q| <= Count(s.threads, IsPushWoken)
  }

  /** Two threads cannot be one consumer and two producers, so a producer sleeps only beside a full slot. */
  ghost predicate Pair(s: State) {
    Inv(s) && s.store.Single? && |s.threads| <= 2 && (SomePushAsleep(s.threads) ==> s.q != [])
  }

  /** A producer falls asleep before an item only, and the only other thread cannot take it and leave it asleep. */
  lemma PairSleeper(s: State, a: Action)
    requires Pair(s) && Step(s, a).Some?
    ensures SomePushAsleep(Step(s, a).value.threads) ==> Step(s, a).value.q != []
  {
  }

  lemma PairStep(s: State, a: Action)
    requires Pair(s) && Step(s, a).Some?
    ensures Pair(Step(s, a).value)
  {
    StepInv(s, a);
    PairSleeper(s, a);
  }

  lemma {:induction false} PairRun(s: State, acts: seq<Action>)
    requires Pair(s) && Run(s, acts).Some?
    ensures Pair(Run(s, acts).value)
    decreases |acts|
  {
    if acts != [] {
      PairStep(s, acts[0]);
      PairRun(Step(s, acts[0]).value, acts[1..]);
    }
  }

  /** Whatever is transferred, nulls included: every run keeps the producers' law if and only if the
      container is not the single slot or at most two threads use it. */
  lemma ProducersCoveredIff(store: Store, n: nat)
    ensures (forall acts :: Run(Init(store, n), acts).Some? ==> ProducersCovered(Run(Init(store, n), acts).value))
            <==> !store.Single? || n <= 2
  {
    if store.Single? && n >= 3 {
      NullStrandsProducer(n);
      var s :| From(Single, n, s) && s.store == Single && s.q == [] && s.threads == Three(Idle, PushAsleep(Item(2)), PopAsleep, n);
      CountPositive(s.threads, IsPushWoken);
      assert s.threads[1].PushAsleep?;
      var acts :| Run(Init(Single, n), acts) == Some(s);
      assert !ProducersCovered(Run(Init(Single, n), acts).value);
    } else {
      forall acts | Run(Init(store, n), acts).Some?
        ensures ProducersCovered(Run(Init(store, n), acts).value)
      {
        InitInv(store, n);
        if store.Single? {
          PairRun(Init(store, n), acts);
        } else {
          RunInv(Init(store, n), acts);
          StoreKept(Init(store, n), acts);
        }
      }
    }
  }

  /** Whatever is transferred, nulls included: no run leaves producers and consumers asleep with nobody woken, if
      and only if there are not two threads, or the capacity is positive and the container is not the single
      slot shared by three or more. */
  lemma NeverStuckIff(store: Store, n: nat)
    ensures (forall acts :: Run(Init(store, n), acts).Some? ==> OneSideMoves(Run(Init(store, n), acts).value))
            <==> n <= 1 || (Capacity(store) > 0 && (!store.Single? || n <= 2))
  {
    if n <= 1 || (Capacity(store) > 0 && (!store.Single? || n <= 2)) {
      forall acts | Run(Init(store, n), acts).Some?
        ensures OneSideMoves(Run(Init(store, n), acts).value)
      {
        NotStuck(store, n, acts);
      }
    } else {
      var s := StuckState(store, n);
      var acts :| Run(Init(store, n), acts) == Some(s);
      assert !OneSideMoves(Run(Init(store, n), acts).value);
    }
  }

  lemma NotStuck(store: Store, n: nat, acts: seq<Action>)
    requires Run(Init(store, n), acts).Some? && (n <= 1 || (Capacity(store) > 0 && (!store.Single? || n <= 2)))
    ensures OneSideMoves(Run(Init(store, n), acts).value)
  {
    var s := Run(Init(store, n), acts).value;
    StoreKept(Init(store, n), acts);
    InitInv(store, n);
    if n <= 1 {
    } else if store.Single? {
      PairRun(Init(store, n), acts);
      CountPositive(s.threads, IsPopWoken);
    } else {
      NeverStuckOnBothSides(s);
    }
  }

  lemma StuckState(store: Store, n: nat) returns (s: State)
    requires n >= 2 && (Capacity(store) == 0 || (store.Single? && n >= 3))
    ensures From(store, n, s) && !OneSideMoves(s)
  {
    if store.Single? {
      NullStrandsProducer(n);
      s :| From(Single, n, s) && s.store == Single && s.q == [] && s.threads == Three(Idle, PushAsleep(Item(2)), PopAsleep, n);
      assert s.threads[1].PushAsleep? && s.threads[2].PopAsleep?;
    } else {
      s := Init(store, n);
      assert Run(s, []) == Some(s);
      s := Go(store, n, Go(store, n, s, CallPush(0, Null)), PushSection(0, None));
      s := Go(store, n, Go(store, n, s, CallPop(1)), PopSection(1, None));
      assert s.threads[0].PushAsleep? && s.threads[1].PopAsleep?;
    }
  }

  lemma {:induction false} StoreKept(s: State, acts: seq<Action>)
    requires Run(s, acts).Some?
    ensures Run(s, acts).value.store == s.store && |Run(s, acts).value.threads| == |s.threads|
    decreases |acts|
  {
    if acts != [] {
      StoreKept(Step(s, acts[0]).value, acts[1..]);
    }
  }

  lemma {:induction false} RunConcat(s: State, xs: seq<Action>, ys: seq<Action>)
    requires Run(s, xs).Some?
    ensures Run(s, xs + ys) == Run(Run(s, xs).value, ys)
    decreases |xs|
  {
    if xs == [] {
      assert xs + ys == ys;
    } else {
      assert (xs + ys)[1..] == xs[1..] + ys;
      RunConcat(Step(s, xs[0]).value, xs[1..], ys);
    }
  }

  // ---- The queue object ----

  class Queue {
    const store: Store
    var q: seq<Element>
    var threads: seq<Pc>
    ghost var pushed: seq<Element>
    ghost var pushers: seq<nat>
    ghost var popped: seq<Element>

    ghost predicate Valid()
      reads this
    {
      Inv(View())
    }

    ghost function View(): State
      reads this
    {
      State(store, q, threads, pushed, pushers, popped)
    }

    constructor (store: Store, n: nat)
      ensures Valid() && View() == Init(store, n)
    {
      this.store := store;
      q, threads, pushed, pushers, popped := [], seq(n, i => Idle), [], [], [];
      new;
      InitInv(store, n);
    }

    /** push / moveIn is called. */
    method CallPush(i: nat, e: Element)
      requires Valid() && i < |threads| && threads[i].Idle?
      modifies this
      ensures Valid() && Step(old(View()), Action.CallPush(i, e)) == Some(View())
      ensures threads == old(threads)[i := PushReady(e)] && q == old(q)
    {
      StepInv(View(), Action.CallPush(i, e));
      threads := threads[i := PushReady(e)];
    }

    /** push / moveIn by thread `i` from the moment it holds the lock: `done` unless it must wait. */
    method Push(i: nat, wake: Option<nat>) returns (done: bool)
      requires Valid() && i < |threads| && (threads[i].PushReady? || threads[i].PushWoken?)
      requires if Full(store, q) then wake == None else NotifiesConsumer(threads, wake)
      modifies this
      ensures Valid() && Step(old(View()), PushSection(i, wake)) == Some(View())
      ensures done <==> !old(Full(store, q))
      ensures done ==> pushed == old(pushed) + [old(threads[i].e)] && pushers == old(pushers) + [i]
    {
      StepInv(View(), PushSection(i, wake));
      var e := threads[i].e;
      done := !Full(store, q);
      if !done {
        threads := threads[i := PushAsleep(e)];
        return;
      }
      q := MoveIn(store, q, e);
      pushed, pushers := pushed + [e], pushers + [i];
      threads := Wake(threads, wake)[i := Idle];
    }

    /** pop / moveOut by thread `i` from the moment it holds the lock. */
    method Pop(i: nat, wake: Option<nat>) returns (r: Option<Element>)
      requires Valid() && i < |threads| && (threads[i].PopReady? || threads[i].PopWoken?)
      requires if Empty(q) then wake == None else NotifiesProducer(threads, wake)
      modifies this
      ensures Valid() && Step(old(View()), PopSection(i, wake)) == Some(View())
      ensures r == if old(q) == [] then None else Some(old(q)[0])
    {
      StepInv(View(), PopSection(i, wake));
      if Empty(q) {
        threads := threads[i := PopAsleep];
        return None;
      }
      var t := q[0];
      q := q[1..];
      popped := popped + [t];
      threads := Wake(threads, wake)[i := Idle];
      r := Some(t);
    }
  }
}
