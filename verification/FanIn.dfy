/** Many producers, one consumer: each producer owns a bounded single-producer ring; the consumer
    drains the rings one after the other into a buffer and delivers the buffer as one batch. Every
    atomic load or store is a step: a push first loads the room its ring has, then publishes as many items. Only a
    pop is one step, which takes any number of the items that are there when it ends. The rings are FIFO queues of
    bounded length. */
module FanIn {
  import opened Common

  datatype Tagged = Tagged(producer: nat, value: int)

  datatype Producer =
    | Idle
    | Testing(items: seq<int>)     // loop test: !_stop && begin != end
    | Pushing(items: seq<int>)     // push(begin, end): about to load how much room the ring has
    | Storing(items: seq<int>, k: nat)  // about to publish the first k items
    | Leaving(left: seq<int>)      // after the loop, about to test _stop and count; `left` was not pushed
    | Returning(left: seq<int>, counted: bool)  // about to load _stop for the return value
    | Retired(left: seq<int>, counted: bool)    // produce returned true; the caller does not call again

  datatype Consumer = Draining(at: nat) | Delivered | Exited

  predicate IsCounted(p: Producer) { (p.Returning? || p.Retired?) && p.counted }

  /** What the call under way, or the one that ended in retirement, was given and has not pushed. */
  function Unpushed(p: Producer): seq<int> {
    match p
    case Idle => []
    case Testing(items) => items
    case Pushing(items) => items
    case Storing(items, _) => items
    case Leaving(left) => left
    case Returning(left, _) => left
    case Retired(left, _) => left
  }

  datatype State = State(
    capacity: nat,
    rings: seq<seq<int>>,      // _producerQueues
    producers: seq<Producer>,
    stop: bool,                // _stop
    done: nat,                 // _donePorodicers
    consumer: Consumer,
    buf: seq<Tagged>,          // _consumerBuf
    offset: nat,               // _consumerBufOffset
    given: seq<seq<int>>,      // history: what each producer's calls were given
    pushed: seq<seq<int>>,     // history: what each producer pushed
    delivered: seq<Tagged>,    // history: all batches, concatenated
    firsts: seq<Tagged>,       // history: of every batch, what had not been delivered before
    untaken: bool,             // history: some f left a non-empty buffer in place
    sealed: bool,              // history: done-count was full when the current round began
    late: set<nat>)            // history: producers that pushed to a ring already visited in this round

  function Init(capacity: nat, n: nat): State {
    State(capacity, seq(n, i => []), seq(n, i => Idle), false, 0, Draining(0), [], 0, seq(n, i => []), seq(n, i => []), [], [], false, n == 0, {})
  }

  datatype Action =
    | Call(p: nat, items: seq<int>) | Test(p: nat) | PushLoad(p: nat) | PushStore(p: nat) | Leave(p: nat) | Return(p: nat)
    | Stop
    | Drain(k: nat) | NextQueue | Deliver(takes: bool) | Check

  /** The consumer has been to ring `p` in this round. */
  predicate Visited(c: Consumer, p: nat) {
    c.Draining? ==> p < c.at
  }

  predicate Shaped(s: State) {
    |s.rings| == |s.producers| == |s.given| == |s.pushed| && s.offset <= |s.buf|
  }

  function Step(s: State, a: Action): (r: Option<State>)
    requires Shaped(s)
    ensures r.Some? ==> Shaped(r.value)
  {
    match a
    case Stop => Some(s.(stop := true))
    case Drain(k) => DrainSome(s, k)
    case NextQueue =>
      if !s.consumer.Draining? || s.consumer.at >= |s.rings| || s.rings[s.consumer.at] != [] then None
      else Some(s.(consumer := Draining(s.consumer.at + 1)))
    case Deliver(takes) =>
      if s.consumer != Draining(|s.rings|) then None
      else Some(s.(consumer := Delivered, delivered := s.delivered + s.buf, firsts := s.firsts + s.buf[..s.offset], offset := 0,
                   buf := if takes then [] else s.buf, untaken := s.untaken || (!takes && s.buf != [])))
    case Check =>
      if !s.consumer.Delivered? then None
      else if s.stop && s.done == |s.rings| then Some(s.(consumer := Exited))
      else Some(s.(consumer := Draining(0), sealed := s.done == |s.rings|, late := {}))
    case _ => if a.p >= |s.producers| then None else ProducerStep(s, a, a.p)
  }

  function ProducerStep(s: State, a: Action, p: nat): (r: Option<State>)
    requires Shaped(s) && p < |s.producers|
    ensures r.Some? ==> Shaped(r.value)
  {
    match (a, s.producers[p])
    case (Call(_, items), Idle) =>
      Some(s.(producers := s.producers[p := Testing(items)], given := s.given[p := s.given[p] + items]))
    case (Test(_), Testing(items)) =>
      Some(s.(producers := s.producers[p := if !s.stop && items != [] then Pushing(items) else Leaving(items)]))
    case (PushLoad(_), Pushing(items)) =>
      if |s.rings[p]| > s.capacity then None
      else Some(s.(producers := s.producers[p := Storing(items, Min(|items|, s.capacity - |s.rings[p]|))]))
    case (PushStore(_), Storing(items, k)) =>
      if k > |items| then None
      else Some(s.(producers := s.producers[p := Testing(items[k..])], rings := s.rings[p := s.rings[p] + items[..k]],
                   pushed := s.pushed[p := s.pushed[p] + items[..k]],
                   late := if k > 0 && Visited(s.consumer, p) then s.late + {p} else s.late))
    case (Leave(_), Leaving(left)) =>
      if s.stop then Some(s.(producers := s.producers[p := Returning(left, true)], done := s.done + 1))
      else Some(s.(producers := s.producers[p := Returning(left, false)]))
    case (Return(_), Returning(left, counted)) =>
      Some(s.(producers := s.producers[p := if s.stop then Retired(left, counted) else Idle]))
    case _ => None
  }

  function Min(a: nat, b: nat): nat {
    if a <= b then a else b
  }

  function Tag(p: nat, xs: seq<int>): (r: seq<Tagged>)
    ensures |r| == |xs|
  {
    if xs == [] then [] else [Tagged(p, xs[0])] + Tag(p, xs[1..])
  }

  /** One pop of up to `capacity` items from the current ring, inserted at the buffer offset. */
  function DrainSome(s: State, k: nat): (r: Option<State>)
    requires Shaped(s)
    ensures r.Some? ==> Shaped(r.value)
  {
    if !s.consumer.Draining? || s.consumer.at >= |s.rings| || k == 0 || k > |s.rings[s.consumer.at]| || k > s.capacity then None
    else
      var at := s.consumer.at;
      var chunk := Tag(at, s.rings[at][..k]);
      Some(s.(rings := s.rings[at := s.rings[at][k..]], offset := s.offset + k,
              buf := s.buf[..s.offset] + chunk + s.buf[s.offset..]))
  }

  /** The values of producer `p`, in order. */
  function Of(xs: seq<Tagged>, p: nat): seq<int> {
    if xs == [] then [] else HeadOf(xs[0], p) + Of(xs[1..], p)
  }

  function HeadOf(x: Tagged, p: nat): seq<int> {
    if x.producer == p then [x.value] else []
  }

  lemma {:induction false} OfConcat(xs: seq<Tagged>, ys: seq<Tagged>, p: nat)
    ensures Of(xs + ys, p) == Of(xs, p) + Of(ys, p)
  {
    if xs == [] {
      assert xs + ys == ys;
    } else {
      OfConcat(xs[1..], ys, p);
      assert (xs + ys)[1..] == xs[1..] + ys;
      Associative(HeadOf(xs[0], p), Of(xs[1..], p), Of(ys, p));
    }
  }

  lemma {:induction false} OfTag(q: nat, xs: seq<int>, p: nat)
    ensures Of(Tag(q, xs), p) == if p == q then xs else []
  {
    if xs != [] {
      OfTag(q, xs[1..], p);
      assert Tag(q, xs)[1..] == Tag(q, xs[1..]);
    }
  }

  /** What producer `p` pushed is what was delivered of it for the first time, then what has been gathered since
      the last delivery, then its ring. */
  ghost predicate KeptFor(s: State, p: nat)
    requires Shaped(s) && p < |s.rings|
  {
    s.pushed[p] == Of(s.firsts, p) + Of(s.buf[..s.offset], p) + s.rings[p]
  }

  ghost predicate Kept(s: State)
    requires Shaped(s)
  {
    forall p :: 0 <= p < |s.rings| ==> KeptFor(s, p)
  }

  /** What producer `p` pushed is what was delivered of it, once, then what is buffered, then its ring. */
  ghost predicate ConservedFor(s: State, p: nat)
    requires Shaped(s) && p < |s.rings|
  {
    s.pushed[p] == Of(s.delivered, p) + Of(s.buf, p) + s.rings[p]
  }

  ghost predicate Conserved(s: State)
    requires Shaped(s)
  {
    forall p :: 0 <= p < |s.rings| ==> ConservedFor(s, p)
  }

  /** Where producer `p` may stand: a push is pending only with items, as many as were found to fit still fit,
      and before the stop nobody has retired or left its loop with items. */
  predicate Sensible(s: State, p: nat)
    requires Shaped(s) && p < |s.producers|
  {
    var q := s.producers[p];
    && (q.Pushing? || q.Storing? ==> q.items != [])
    && (q.Storing? ==> q.k <= |q.items| && |s.rings[p]| + q.k <= s.capacity)
    && (q.Retired? ==> s.stop)
    && ((q.Leaving? || q.Returning?) && q.left != [] ==> s.stop)
  }

  /** What the calls of `p` were given is what was pushed and what the current or last call still has. */
  ghost predicate GivenFor(s: State, p: nat)
    requires Shaped(s) && p < |s.producers|
  {
    s.given[p] == s.pushed[p] + Unpushed(s.producers[p])
  }

  ghost predicate Inv(s: State) {
    && Shaped(s) && Kept(s)
    && (!s.untaken ==> s.firsts == s.delivered && s.offset == |s.buf|)
    && (forall p :: 0 <= p < |s.rings| ==> |s.rings[p]| <= s.capacity && Sensible(s, p) && GivenFor(s, p))
    && CountsInv(s) && LateInv(s)
    && (s.consumer.Draining? ==> s.consumer.at <= |s.rings|)
    && (!s.consumer.Draining? ==> s.offset == 0)
    && (s.consumer.Delivered? && !s.untaken ==> s.buf == [])
    && (s.consumer.Exited? ==> s.done == |s.producers| && s.stop && (!s.untaken ==> s.buf == []))
  }

  ghost predicate CountsInv(s: State)
    requires Shaped(s)
  {
    && s.done == Count(s.producers, IsCounted)
    && (s.done > 0 ==> s.stop)
    && (s.sealed ==> s.done == |s.producers|)
  }

  /** The rings visited in this round are empty, but for those pushed to since. */
  ghost predicate LateInv(s: State)
    requires Shaped(s)
  {
    && (forall p :: p in s.late ==> p < |s.rings| && Visited(s.consumer, p))
    && (forall p :: 0 <= p < |s.rings| && Visited(s.consumer, p) ==> (s.rings[p] == [] <==> p !in s.late))
    && (s.sealed ==> s.late == {})
  }

  lemma InitInv(capacity: nat, n: nat)
    ensures Inv(Init(capacity, n))
  {
    CountPositive(Init(capacity, n).producers, IsCounted);
  }

  /** A step of producer `p` that leaves the rings alone. */
  ghost predicate Moves(s: State, p: nat, a: Action, s': State) {
    Inv(s) && p < |s.producers| && (a.Call? || a.Test? || a.PushLoad? || a.Leave? || a.Return?) && a.p == p && Step(s, a) == Some(s')
  }

  lemma OthersKept(s: State, p: nat, a: Action, s': State)
    requires Moves(s, p, a, s')
    ensures forall q :: 0 <= q < |s.rings| ==> KeptFor(s', q) && |s'.rings[q]| <= s'.capacity && Sensible(s', q)
  {
    forall q | 0 <= q < |s.rings|
      ensures KeptFor(s', q) && |s'.rings[q]| <= s'.capacity && Sensible(s', q)
    {
      assert KeptFor(s, q) && Sensible(s, q);
    }
  }

  lemma GivenKept(s: State, p: nat, a: Action, s': State)
    requires Moves(s, p, a, s')
    ensures forall q :: 0 <= q < |s.rings| ==> GivenFor(s', q)
  {
    forall q | 0 <= q < |s.rings|
      ensures GivenFor(s', q)
    {
      assert GivenFor(s, q) && Sensible(s, q);
      if q == p && a.Call? {
        assert s.given[q] == s.pushed[q] + [] == s.pushed[q];
        assert s'.given[q] == s.pushed[q] + a.items;
      }
    }
  }

  /** A producer moves on without touching its ring or the count. */
  lemma MoveInv(s: State, p: nat, a: Action, s': State)
    requires Inv(s) && (a.Call? || a.Test? || a.PushLoad? || a.Return?) && a.p == p && Step(s, a) == Some(s')
    ensures Inv(s')
  {
    CountUpdate(s.producers, p, s'.producers[p], IsCounted);
    OthersKept(s, p, a, s');
    GivenKept(s, p, a, s');
  }

  lemma LeaveInv(s: State, p: nat, s': State)
    requires Inv(s) && Step(s, Leave(p)) == Some(s')
    ensures Inv(s')
  {
    CountUpdate(s.producers, p, s'.producers[p], IsCounted);
    CountFull(s'.producers, IsCounted);
    CountFull(s.producers, IsCounted);
    OthersKept(s, p, Leave(p), s');
    GivenKept(s, p, Leave(p), s');
  }

  lemma StoreKept(s: State, p: nat, s': State)
    requires Inv(s) && Step(s, PushStore(p)) == Some(s')
    ensures forall q :: 0 <= q < |s.rings| ==> KeptFor(s', q) && GivenFor(s', q)
  {
    var items, k := s.producers[p].items, s.producers[p].k;
    forall q | 0 <= q < |s.rings|
      ensures KeptFor(s', q) && GivenFor(s', q)
    {
      assert KeptFor(s, q) && GivenFor(s, q);
      if q == p {
        assert s.rings[p] + items[..k] == s'.rings[p];
        assert items == items[..k] + items[k..];
      }
    }
  }

  lemma StoreInv(s: State, p: nat, s': State)
    requires Inv(s) && Step(s, PushStore(p)) == Some(s')
    ensures Inv(s')
  {
    CountUpdate(s.producers, p, s'.producers[p], IsCounted);
    CountFull(s.producers, IsCounted);
    StoreKept(s, p, s');
    forall q | 0 <= q < |s.rings|
      ensures |s'.rings[q]| <= s.capacity && Sensible(s', q)
    {
      assert Sensible(s, q);
    }
  }

  lemma MoveFront<X>(delivered: seq<X>, buf: seq<X>, ring: seq<X>, k: nat)
    requires k <= |ring|
    ensures delivered + buf + ring == delivered + (buf + ring[..k]) + ring[k..]
  {
  }

  /** Draining moves the front of one ring to the end of what has been gathered. */
  lemma DrainKept(pushed: seq<int>, firsts: seq<Tagged>, buf: seq<Tagged>, at: nat, ring: seq<int>, k: nat, p: nat, own: seq<int>)
    requires k <= |ring| && (p == at ==> own == ring)
    requires pushed == Of(firsts, p) + Of(buf, p) + own
    ensures pushed == Of(firsts, p) + Of(buf + Tag(at, ring[..k]), p) + (if p == at then ring[k..] else own)
  {
    OfConcat(buf, Tag(at, ring[..k]), p);
    OfTag(at, ring[..k], p);
    if p == at {
      MoveFront(Of(firsts, p), Of(buf, p), ring, k);
    } else {
      assert Of(buf, p) + [] == Of(buf, p);
    }
  }

  lemma DrainInv(s: State, k: nat, s': State)
    requires Inv(s) && Step(s, Drain(k)) == Some(s')
    ensures Inv(s')
  {
    var at := s.consumer.at;
    assert s'.buf[..s'.offset] == s.buf[..s.offset] + Tag(at, s.rings[at][..k]);
    forall p | 0 <= p < |s.rings|
      ensures KeptFor(s', p)
    {
      assert KeptFor(s, p) && Sensible(s, p);
      DrainKept(s.pushed[p], s.firsts, s.buf[..s.offset], at, s.rings[at], k, p, s.rings[p]);
    }
  }

  lemma DeliverInv(s: State, takes: bool, s': State)
    requires Inv(s) && Step(s, Deliver(takes)) == Some(s')
    ensures Inv(s')
  {
    assert s'.buf[..0] == [];
    assert s.offset == |s.buf| ==> s.buf[..s.offset] == s.buf;
    forall p | 0 <= p < |s.rings|
      ensures KeptFor(s', p)
    {
      assert KeptFor(s, p);
      OfConcat(s.firsts, s.buf[..s.offset], p);
      assert Of(s'.firsts, p) + [] == Of(s'.firsts, p);
    }
  }

  lemma ControlInv(s: State, a: Action, s': State)
    requires Inv(s) && (a.Stop? || a.NextQueue? || a.Check?) && Step(s, a) == Some(s')
    ensures Inv(s')
  {
    assert forall p :: 0 <= p < |s.rings| && KeptFor(s, p) ==> KeptFor(s', p);
  }

  lemma StepInv(s: State, a: Action)
    requires Inv(s) && Step(s, a).Some?
    ensures Inv(Step(s, a).value)
  {
    var s' := Step(s, a).value;
    match a
    case Drain(k) => DrainInv(s, k, s');
    case Deliver(takes) => DeliverInv(s, takes, s');
    case PushStore(p) => StoreInv(s, p, s');
    case PushLoad(p) => MoveInv(s, p, a, s');
    case Leave(p) => LeaveInv(s, p, s');
    case Call(p, _) => MoveInv(s, p, a, s');
    case Test(p) => MoveInv(s, p, a, s');
    case Return(p) => MoveInv(s, p, a, s');
    case _ => ControlInv(s, a, s');
  }

  function Run(s: State, acts: seq<Action>): Option<State>
    requires Shaped(s)
    decreases |acts|
  {
    if acts == [] then Some(s)
    else match Step(s, acts[0]) case None => None case Some(s') => Run(s', acts[1..])
  }

  lemma {:induction false} RunInv(s: State, acts: seq<Action>)
    requires Inv(s) && Run(s, acts).Some?
    ensures Inv(Run(s, acts).value)
    decreases |acts|
  {
    if acts != [] {
      StepInv(s, acts[0]);
      RunInv(Step(s, acts[0]).value, acts[1..]);
    }
  }

  ghost predicate Reachable(s: State) {
    exists c: nat, n: nat, acts :: Run(Init(c, n), acts) == Some(s)
  }

  lemma ReachableInv(s: State)
    requires Reachable(s)
    ensures Inv(s)
  {
    var c: nat, n: nat, acts :| Run(Init(c, n), acts) == Some(s);
    InitInv(c, n);
    RunInv(Init(c, n), acts);
  }

  // ---- What every run keeps ----

  /** Nothing is lost or reordered on its way: for each producer, what it pushed is what was delivered of it for
      the first time, then what has been gathered since the last delivery, then what is in its ring. No ring
      exceeds its capacity. As long as the consumer function takes every batch it is given, each item is
      delivered once only. */
  lemma FanInConserves(s: State, p: nat)
    requires Reachable(s) && Shaped(s) && p < |s.rings|
    ensures s.pushed[p] == Of(s.firsts, p) + Of(s.buf[..s.offset], p) + s.rings[p]
    ensures |s.rings[p]| <= s.capacity
    ensures !s.untaken ==> s.firsts == s.delivered && s.buf[..s.offset] == s.buf
  {
    ReachableInv(s);
    assert KeptFor(s, p);
  }

  /** All items that the calls of producer `p` were made with, in order, read off the calls. */
  function ItemsOf(acts: seq<Action>, p: nat): seq<int> {
    if acts == [] then []
    else (if acts[0].Call? && acts[0].p == p then acts[0].items else []) + ItemsOf(acts[1..], p)
  }

  lemma GivenStep(s: State, a: Action, p: nat)
    requires Shaped(s) && Step(s, a).Some? && p < |s.given|
    ensures var s' := Step(s, a).value;
      p < |s'.given| && s'.given[p] == if a.Call? && a.p == p then s.given[p] + a.items else s.given[p]
  {
  }

  lemma {:induction false} GivenIsItemsOf(s: State, acts: seq<Action>, p: nat)
    requires Shaped(s) && Run(s, acts).Some? && p < |s.given|
    ensures var s' := Run(s, acts).value; p < |s'.given| && s'.given[p] == s.given[p] + ItemsOf(acts, p)
    decreases |acts|
  {
    if acts != [] {
      var a, rest := acts[0], acts[1..];
      GivenStep(s, a, p);
      GivenIsItemsOf(Step(s, a).value, rest, p);
      Associative(s.given[p], if a.Call? && a.p == p then a.items else [], ItemsOf(rest, p));
    }
  }

  /** The state after a run that starts with an empty queue. */
  lemma AfterRun(capacity: nat, n: nat, acts: seq<Action>, p: nat)
    requires Run(Init(capacity, n), acts).Some? && p < n
    ensures var s := Run(Init(capacity, n), acts).value; Inv(s) && p < |s.producers| && s.given[p] == ItemsOf(acts, p)
  {
    var s0 := Init(capacity, n);
    InitInv(capacity, n);
    assert s0.given[p] == [];
    RunFrom(s0, acts, p);
  }

  lemma RunFrom(s0: State, acts: seq<Action>, p: nat)
    requires Inv(s0) && Run(s0, acts).Some? && p < |s0.given| && s0.given[p] == []
    ensures var s := Run(s0, acts).value; Inv(s) && p < |s.producers| && s.given[p] == ItemsOf(acts, p)
  {
    RunInv(s0, acts);
    GivenIsItemsOf(s0, acts, p);
  }

  /** What the calls of producer `p` were made with, all together, is what it pushed and then what its current or
      last call still has. Before the stop a call leaves its loop only when that is nothing: so produce returns
      false only if all items of the call were pushed, and only a call that met the stop can drop some, the last
      ones. */
  lemma ProduceKeepsItems(capacity: nat, n: nat, acts: seq<Action>, p: nat)
    requires Run(Init(capacity, n), acts).Some? && p < n
    ensures var s := Run(Init(capacity, n), acts).value;
      && Shaped(s) && p < |s.producers|
      && ItemsOf(acts, p) == s.pushed[p] + Unpushed(s.producers[p])
      && (!s.stop && (s.producers[p].Leaving? || s.producers[p].Returning?) ==> ItemsOf(acts, p) == s.pushed[p])
      && (s.producers[p].Idle? || (Step(s, Return(p)).Some? && Step(s, Return(p)).value.producers[p].Idle?) ==> ItemsOf(acts, p) == s.pushed[p])
  {
    AfterRun(capacity, n, acts, p);
    var s := Run(Init(capacity, n), acts).value;
    assert GivenFor(s, p) && Sensible(s, p);
  }

  /** So every item of every call is in one place, in call order: delivered, gathered, in the ring, or not pushed. */
  lemma ItemsAccountedFor(capacity: nat, n: nat, acts: seq<Action>, p: nat)
    requires Run(Init(capacity, n), acts).Some? && p < n
    ensures var s := Run(Init(capacity, n), acts).value;
      && Shaped(s) && p < |s.producers|
      && ItemsOf(acts, p) == Of(s.firsts, p) + Of(s.buf[..s.offset], p) + s.rings[p] + Unpushed(s.producers[p])
      && (!s.untaken ==> s.firsts == s.delivered && s.buf[..s.offset] == s.buf)
  {
    ProduceKeepsItems(capacity, n, acts, p);
    var s := Run(Init(capacity, n), acts).value;
    FanInConserves(s, p);
  }

  /** A call of produce begins with all its items, in the order given. */
  lemma CallStartsWhole(s: State, p: nat, items: seq<int>)
    requires Shaped(s) && Step(s, Call(p, items)).Some?
    ensures var s' := Step(s, Call(p, items)).value;
      p < |s'.producers| && s'.producers[p].Testing? && Unpushed(s'.producers[p]) == items && s'.pushed == s.pushed
  {
  }

  /** A delivery keeps the accounts of single delivery exactly when `f` takes the batch or the batch is empty: a
      batch left in place will be delivered again. */
  lemma DeliveryConservesIffTaken(s: State, takes: bool)
    requires Reachable(s) && !s.untaken && Shaped(s) && Step(s, Deliver(takes)).Some?
    ensures Conserved(s) && Shaped(Step(s, Deliver(takes)).value)
    ensures Conserved(Step(s, Deliver(takes)).value) <==> takes || s.buf == []
  {
    ReachableInv(s);
    ConservedWhileTaken(s);
    var s' := Step(s, Deliver(takes)).value;
    DeliverInv(s, takes, s');
    if takes || s.buf == [] {
      ConservedWhileTaken(s');
    } else {
      TagsInRange(s);
      var p := s.buf[0].producer;
      assert ConservedFor(s, p);
      OfConcat(s.delivered, s.buf, p);
      assert |Of(s.buf, p)| > 0;
      assert !ConservedFor(s', p);
    }
  }

  lemma ConservedWhileTaken(s: State)
    requires Inv(s) && !s.untaken
    ensures Conserved(s)
  {
    assert s.buf[..s.offset] == s.buf;
    forall p | 0 <= p < |s.rings|
      ensures ConservedFor(s, p)
    {
      assert KeptFor(s, p);
    }
  }

  /** Every buffered item carries the number of an existing producer. */
  lemma TagsInRange(s: State)
    requires Reachable(s)
    ensures forall i :: 0 <= i < |s.buf| ==> s.buf[i].producer < |s.rings|
  {
    var c: nat, n: nat, acts :| Run(Init(c, n), acts) == Some(s);
    TagsRun(Init(c, n), acts);
  }

  predicate Tagging(s: State) {
    forall i :: 0 <= i < |s.buf| ==> s.buf[i].producer < |s.rings|
  }

  lemma TagsStep(s: State, a: Action)
    requires Shaped(s) && Tagging(s) && Step(s, a).Some?
    ensures Shaped(Step(s, a).value) && Tagging(Step(s, a).value)
  {
    if a.Drain? {
      TagProducer(s.consumer.at, s.rings[s.consumer.at][..a.k]);
    }
  }

  lemma {:induction false} TagsRun(s: State, acts: seq<Action>)
    requires Shaped(s) && Tagging(s) && Run(s, acts).Some?
    ensures Tagging(Run(s, acts).value)
    decreases |acts|
  {
    if acts != [] {
      TagsStep(s, acts[0]);
      TagsRun(Step(s, acts[0]).value, acts[1..]);
    }
  }

  lemma {:induction false} TagProducer(p: nat, xs: seq<int>)
    ensures forall i :: 0 <= i < |xs| ==> Tag(p, xs)[i].producer == p
  {
    if xs != [] {
      TagProducer(p, xs[1..]);
    }
  }

  /** When the done-count equals the number of producers, no producer can push again, now or later:
      each has passed its loop, will return true, and its caller stops. */
  lemma FullCountMeansNoPush(s: State, p: nat)
    requires Reachable(s) && Shaped(s) && p < |s.producers| && s.done == |s.producers|
    ensures s.stop && IsCounted(s.producers[p])
    ensures Step(s, PushLoad(p)) == None && Step(s, PushStore(p)) == None && forall items :: Step(s, Call(p, items)) == None
    ensures forall a :: Step(s, a).Some? ==> Step(s, a).value.done == s.done
  {
    ReachableInv(s);
    CountFull(s.producers, IsCounted);
  }

  /** Nobody is counted twice, and once all have retired the count is full exactly when each of them
      was counted before returning. */
  lemma CountIsExact(s: State)
    requires Reachable(s)
    ensures s.done == Count(s.producers, IsCounted) <= |s.producers|
    ensures s.done == |s.producers| <==> forall p :: 0 <= p < |s.producers| ==> IsCounted(s.producers[p])
  {
    ReachableInv(s);
    CountFull(s.producers, IsCounted);
  }

  /** If the count was already full when the last round began, the consumer leaves nothing behind:
      every producer's stream has been delivered completely and in order. */
  lemma SealedExitDeliversAll(s: State, p: nat)
    requires Reachable(s) && Shaped(s) && p < |s.rings| && s.consumer.Exited? && s.sealed
    ensures Of(s.firsts, p) == s.pushed[p]
  {
    ReachableInv(s);
    assert KeptFor(s, p);
    assert Of(s.firsts, p) + [] + [] == Of(s.firsts, p);
  }

  // ---- Where the code falls short, with the runs that show it ----

  /** The consumer may exit with items still in a ring: the last items and the count can arrive after
      the ring was visited and before the exit test. */
  lemma ExitCanStrandItems()
    ensures exists s :: Reachable(s) && Shaped(s) && s.consumer.Exited? && !s.untaken && s.rings == [[5]] && s.delivered == []
  {
    var s := Go(OneProducer(), NextQueue);
    s := PushFive(s, 1);
    ExitStrandsTail(s);
  }

  /** The producer pushes its one item, before or after the visit of the consumer. */
  lemma PushFive(s0: State, at: nat) returns (s: State)
    requires Reachable(s0) && s0 == OneProducer().(consumer := Draining(at))
    ensures Reachable(s) && s.rings == s.pushed == [[5]] && s == s0.(producers := [Testing([])], rings := [[5]],
              given := [[5]], pushed := [[5]], late := if at > 0 then {0} else {})
  {
    s := Go(s0, Call(0, [5]));
    assert s.given[0] == [5] && s.given == [[5]];
    s := Go(s, Test(0));
    assert s.producers == [Pushing([5])];
    s := Go(s, PushLoad(0));
    assert s == s0.(producers := [Storing([5], 1)], given := [[5]]);
    s := PushFiveStore(s0, s, at);
  }

  lemma PushFiveStore(s0: State, s1: State, at: nat) returns (s: State)
    requires Reachable(s0) && s0 == OneProducer().(consumer := Draining(at))
    requires Reachable(s1) && s1 == s0.(producers := [Storing([5], 1)], given := [[5]])
    ensures Reachable(s) && s.rings == s.pushed == [[5]] && s == s0.(producers := [Testing([])], rings := [[5]],
              given := [[5]], pushed := [[5]], late := if at > 0 then {0} else {})
  {
    s := Go(s1, PushStore(0));
    assert [5][1..] == [] && [] + [5][..1] == [5];
    assert s.rings[0] == s.pushed[0] == [5] && s.producers[0] == Testing([]);
    assert s.rings == [[5]] && s.pushed == [[5]] && s.producers == [Testing([])];
  }

  lemma ExitStrandsTail(s0: State)
    requires Reachable(s0) && Shaped(s0) && s0.rings == [[5]] && s0.producers == [Testing([])] && s0.done == 0
    requires s0.consumer == Draining(1) && s0.buf == [] && s0.delivered == [] && !s0.untaken
    ensures exists s :: Reachable(s) && Shaped(s) && s.consumer.Exited? && !s.untaken && s.rings == [[5]] && s.delivered == []
  {
    var s := Go(Go(s0, Test(0)), Stop);
    assert s.producers == [Leaving([])];
    s := Go(s, Leave(0));
    ExitStrandsEnd(s);
  }

  lemma ExitStrandsEnd(s0: State)
    requires Reachable(s0) && Shaped(s0) && s0.rings == [[5]] && s0.stop && s0.done == 1
    requires s0.consumer == Draining(1) && s0.buf == [] && s0.delivered == [] && !s0.untaken
    ensures exists s :: Reachable(s) && Shaped(s) && s.consumer.Exited? && !s.untaken && s.rings == [[5]] && s.delivered == []
  {
    var s := Go(s0, Deliver(true));
    s := Go(s, Check);
    assert s.rings == [[5]];
  }

  /** A producer may return true without having been counted, after which the consumer can never exit:
      `_stop` is set between the test that counts and the load for the return value. */
  lemma ReturnCanGoUncounted()
    ensures exists s :: Reachable(s) && Shaped(s) && s.stop && s.producers == [Retired([], false)] && s.done == 0
  {
    var s0 := OneProducer();
    var s := Go(s0, Call(0, []));
    assert s.given[0] == [] && s == s0.(producers := [Testing([])]);
    s := Go(s, Test(0));
    assert s == s0.(producers := [Leaving([])]);
    UncountedTail(s0, s);
  }

  lemma UncountedTail(s0: State, s1: State)
    requires s0 == OneProducer() && Reachable(s1) && s1 == s0.(producers := [Leaving([])])
    ensures exists s :: Reachable(s) && Shaped(s) && s.stop && s.producers == [Retired([], false)] && s.done == 0
  {
    var s := Go(s1, Leave(0));
    assert s == s0.(producers := [Returning([], false)]);
    s := Go(s, Stop);
    s := Go(s, Return(0));
    assert s.producers == [Retired([], false)];
  }

  /** A batch that the consumer function leaves in place is handed to it again. */
  lemma BatchDeliveredTwice()
    ensures exists s :: Reachable(s) && Shaped(s) && s.pushed == [[5]] && s.delivered == [Tagged(0, 5), Tagged(0, 5)]
  {
    var s := PushFive(OneProducer(), 0);
    DeliveredTwiceTail(s);
  }

  lemma DeliveredTwiceTail(s0: State)
    requires Reachable(s0) && Shaped(s0) && s0.rings == [[5]] && s0.pushed == [[5]] && s0.capacity == 2 && !s0.stop
    requires s0.consumer == Draining(0) && s0.buf == [] && s0.delivered == []
    ensures exists s :: Reachable(s) && Shaped(s) && s.pushed == [[5]] && s.delivered == [Tagged(0, 5), Tagged(0, 5)]
  {
    var s := Go(s0, Drain(1));
    assert [5][..1] == [5] && Tag(0, [5]) == [Tagged(0, 5)];
    assert s.buf == [Tagged(0, 5)];
    s := Go(Go(s, NextQueue), Deliver(false));
    assert s.delivered == [Tagged(0, 5)];
    DeliveredTwiceEnd(s);
  }

  lemma DeliveredTwiceEnd(s0: State)
    requires Reachable(s0) && Shaped(s0) && s0.rings == [[]] && s0.pushed == [[5]] && !s0.stop
    requires s0.consumer == Delivered && s0.buf == [Tagged(0, 5)] && s0.delivered == [Tagged(0, 5)]
    ensures exists s :: Reachable(s) && Shaped(s) && s.pushed == [[5]] && s.delivered == [Tagged(0, 5), Tagged(0, 5)]
  {
    var s := Go(Go(s0, Check), NextQueue);
    s := Go(s, Deliver(true));
  }

  ghost function OneProducer(): (s: State)
    ensures Reachable(s) && s == State(2, [[]], [Idle], false, 0, Draining(0), [], 0, [[]], [[]], [], [], false, false, {})
  {
    assert Run(Init(2, 1), []) == Some(Init(2, 1));
    assert Init(2, 1).rings == [[]] && Init(2, 1).producers == [Idle] && Init(2, 1).given == [[]] && Init(2, 1).pushed == [[]];
    Init(2, 1)
  }

  ghost function Go(s: State, a: Action): (s': State)
    requires Reachable(s) && Shaped(s) && Step(s, a).Some?
    ensures Some(s') == Step(s, a) && Reachable(s') && Shaped(s')
  {
    ReachableStep(s, a);
    Step(s, a).value
  }

  lemma ReachableStep(s: State, a: Action)
    requires Reachable(s) && Shaped(s) && Step(s, a).Some?
    ensures Reachable(Step(s, a).value) && Shaped(Step(s, a).value)
  {
    var c: nat, n: nat, acts :| Run(Init(c, n), acts) == Some(s);
    RunConcat(Init(c, n), acts, [a]);
    assert Run(s, [a]) == Step(s, a);
    assert Run(Init(c, n), acts + [a]) == Step(s, a);
  }

  lemma {:induction false} RunConcat(s: State, xs: seq<Action>, ys: seq<Action>)
    requires Shaped(s) && Run(s, xs).Some?
    ensures Shaped(Run(s, xs).value) && Run(s, xs + ys) == Run(Run(s, xs).value, ys)
    decreases |xs|
  {
    if xs == [] {
      assert xs + ys == ys;
    } else {
      assert (xs + ys)[1..] == xs[1..] + ys;
      RunConcat(Step(s, xs[0]).value, xs[1..], ys);
    }
  }

  // ---- The queue object ----

  class MpscQueue {
    const capacity: nat
    var rings: seq<seq<int>>
    var producers: seq<Producer>
    var stop: bool
    var done: nat
    var consumer: Consumer
    var buf: seq<Tagged>
    var offset: nat
    ghost var given: seq<seq<int>>
    ghost var pushed: seq<seq<int>>
    ghost var delivered: seq<Tagged>
    ghost var firsts: seq<Tagged>
    ghost var untaken: bool
    ghost var sealed: bool
    ghost var late: set<nat>

    ghost function View(): State
      reads this
    {
      State(capacity, rings, producers, stop, done, consumer, buf, offset, given, pushed, delivered, firsts, untaken, sealed, late)
    }

    ghost predicate Valid()
      reads this
    {
      Inv(View())
    }

    constructor (capacity: nat, producersNum: nat)
      ensures Valid() && View() == Init(capacity, producersNum)
    {
      this.capacity := capacity;
      rings, producers := seq(producersNum, i => []), seq(producersNum, i => Idle);
      stop, done, consumer, buf, offset := false, 0, Draining(0), [], 0;
      given, pushed, delivered, firsts := seq(producersNum, i => []), seq(producersNum, i => []), [], [];
      untaken, sealed, late := false, producersNum == 0, {};
      new;
      InitInv(capacity, producersNum);
    }

    method RequestStop()
      requires Valid()
      modifies this
      ensures Valid() && Step(old(View()), Stop) == Some(View())
    {
      ghost var before := View();
      StepInv(before, Stop);
      stop := true;
      assert View() == Step(before, Stop).value;
    }

    /** produce is called. */
    method ProduceCall(p: nat, items: seq<int>)
      requires Valid() && p < |producers| && producers[p].Idle?
      modifies this
      ensures Valid() && Step(old(View()), Call(p, items)) == Some(View())
      ensures Unpushed(producers[p]) == items && pushed == old(pushed)
    {
      ghost var before := View();
      StepInv(before, Call(p, items));
      producers := producers[p := Testing(items)];
      given := given[p := given[p] + items];
      assert View() == Step(before, Call(p, items)).value;
    }

    /** produce: the loop test. */
    method ProduceTest(p: nat)
      requires Valid() && p < |producers| && producers[p].Testing?
      modifies this
      ensures Valid() && Step(old(View()), Test(p)) == Some(View())
    {
      ghost var before := View();
      StepInv(before, Test(p));
      var items := producers[p].items;
      producers := producers[p := if !stop && items != [] then Pushing(items) else Leaving(items)];
      assert View() == Step(before, Test(p)).value;
    }

    /** push(begin, end) of the ring: how many of the items fit. */
    method ProducePushLoad(p: nat)
      requires Valid() && p < |producers| && producers[p].Pushing?
      modifies this
      ensures Valid() && Step(old(View()), PushLoad(p)) == Some(View())
    {
      ghost var before := View();
      assert Sensible(before, p);
      StepInv(before, PushLoad(p));
      var items, room := producers[p].items, capacity - |rings[p]|;
      producers := producers[p := Storing(items, if |items| <= room then |items| else room)];
      assert View() == Step(before, PushLoad(p)).value;
    }

    /** The ring of `p` gets `chunk`. */
    method Publish(p: nat, chunk: seq<int>)
      requires p < |rings| && p < |pushed|
      modifies `rings, `pushed, `late
      ensures View() == old(View()).(rings := old(rings)[p := old(rings)[p] + chunk], pushed := old(pushed)[p := old(pushed)[p] + chunk],
                          late := if chunk != [] && Visited(consumer, p) then old(late) + {p} else old(late))
    {
      rings := rings[p := rings[p] + chunk];
      pushed := pushed[p := pushed[p] + chunk];
      late := if chunk != [] && Visited(consumer, p) then late + {p} else late;
    }

    /** push(begin, end) of the ring: publish them, and go on with the rest. */
    method ProducePushStore(p: nat)
      requires Valid() && p < |producers| && producers[p].Storing?
      modifies this
      ensures Valid() && Step(old(View()), PushStore(p)) == Some(View())
    {
      ghost var before := View();
      assert Sensible(before, p);
      StepInv(before, PushStore(p));
      var items, k := producers[p].items, producers[p].k;
      Publish(p, items[..k]);
      producers := producers[p := Testing(items[k..])];
      assert View() == Step(before, PushStore(p)).value;
    }

    /** produce: count a producer that saw the stop. */
    method ProduceLeave(p: nat)
      requires Valid() && p < |producers| && producers[p].Leaving?
      modifies this
      ensures Valid() && Step(old(View()), Leave(p)) == Some(View())
    {
      ghost var before := View();
      StepInv(before, Leave(p));
      if stop {
        done := done + 1;
      }
      producers := producers[p := Returning(producers[p].left, stop)];
      assert View() == Step(before, Leave(p)).value;
    }

    /** produce: the value returned. */
    method ProduceReturn(p: nat) returns (r: bool)
      requires Valid() && p < |producers| && producers[p].Returning?
      modifies this
      ensures Valid() && Step(old(View()), Return(p)) == Some(View())
      ensures r <==> producers[p].Retired?
    {
      ghost var before := View();
      StepInv(before, Return(p));
      r := stop;
      producers := producers[p := if r then Retired(producers[p].left, producers[p].counted) else Idle];
      assert View() == Step(before, Return(p)).value;
    }

    /** consume(queue): one pop of `k` items, or on to the next queue when the pop returns nothing. */
    method ConsumeQueue(k: nat)
      requires Valid() && consumer.Draining? && consumer.at < |rings|
      requires k <= |rings[consumer.at]| && k <= capacity && (k == 0 ==> rings[consumer.at] == [])
      modifies this
      ensures Valid() && Step(old(View()), if k == 0 then NextQueue else Drain(k)) == Some(View())
    {
      ghost var before, a := View(), if k == 0 then NextQueue else Drain(k);
      StepInv(before, a);
      var at := consumer.at;
      if k == 0 {
        consumer := Draining(at + 1);
      } else {
        var chunk := rings[at][..k];
        rings := rings[at := rings[at][k..]];
        buf := buf[..offset] + Tag(at, chunk) + buf[offset..];
        offset := offset + k;
      }
      assert View() == Step(before, a).value;
    }

    /** The call of `f`. */
    method HandOver(takes: bool) returns (batch: seq<Tagged>)
      requires offset <= |buf|
      modifies `buf, `delivered, `firsts, `untaken
      ensures batch == old(buf) && View() == old(View()).(buf := if takes then [] else old(buf), delivered := old(delivered) + old(buf),
                firsts := old(firsts) + old(buf)[..offset], untaken := old(untaken) || (!takes && old(buf) != []))
    {
      batch := buf;
      delivered, firsts := delivered + buf, firsts + buf[..offset];
      untaken := untaken || (!takes && buf != []);
      if takes {
        buf := [];
      }
    }

    /** consume(f): hand over the buffer; `takes` says whether `f` moved it away. */
    method ConsumeDeliver(takes: bool) returns (batch: seq<Tagged>)
      requires Valid() && consumer == Draining(|rings|)
      modifies this
      ensures Valid() && Step(old(View()), Deliver(takes)) == Some(View())
      ensures delivered == old(delivered) + batch
    {
      ghost var before := View();
      StepInv(before, Deliver(takes));
      batch := HandOver(takes);
      offset, consumer := 0, Delivered;
      assert View() == Step(before, Deliver(takes)).value;
    }

    /** consume(f): the exit test. */
    method ConsumeCheck() returns (exits: bool)
      requires Valid() && consumer.Delivered?
      modifies this
      ensures Valid() && Step(old(View()), Check) == Some(View())
      ensures exits <==> consumer.Exited?
    {
      ghost var before := View();
      StepInv(before, Check);
      exits := stop && done == |rings|;
      if exits {
        consumer := Exited;
      } else {
        consumer := Draining(0);
        sealed, late := done == |rings|, {};
      }
      assert View() == Step(before, Check).value;
    }
  }
}
