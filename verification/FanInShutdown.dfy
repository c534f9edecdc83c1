/** What can be said of the fan-in queue at the moment stop() is called: exactly when every producer will be
    counted, and exactly when the consumer cannot leave without the producers' last items. */
module FanInShutdown {
  import opened Common
  import opened FanIn

  /** The run can go on from `c` to `t`. */
  ghost predicate Leads(c: State, t: State) {
    Inv(c) && Inv(t) && exists acts :: Run(c, acts) == Some(t)
  }

  ghost function Do(c: State, t: State, a: Action): (t': State)
    requires Leads(c, t) && Step(t, a).Some?
    ensures Some(t') == Step(t, a) && Leads(c, t')
  {
    LeadsStep(c, t, a);
    Step(t, a).value
  }

  lemma LeadsStep(c: State, t: State, a: Action)
    requires Leads(c, t) && Step(t, a).Some?
    ensures Leads(c, Step(t, a).value)
  {
    var acts :| Run(c, acts) == Some(t);
    StepInv(t, a);
    RunConcat(c, acts, [a]);
    assert Run(t, [a]) == Step(t, a);
    assert Run(c, acts + [a]) == Step(t, a);
  }

  // ---- Who will be counted ----

  /** A producer that has left its loop without being counted; its caller has been, or will be, told to stop. */
  predicate Missed(p: Producer) {
    (p.Returning? || p.Retired?) && !p.counted
  }

  ghost predicate SomeoneMissed(s: State) {
    exists p :: 0 <= p < |s.producers| && Missed(s.producers[p])
  }

  predicate SomeoneReturning(s: State) {
    exists p :: 0 <= p < |s.producers| && s.producers[p].Returning?
  }

  /** From `c` on no producer is ever told to stop without having been counted. */
  ghost predicate EveryReturnCounted(c: State)
    requires Shaped(c)
  {
    forall acts :: Run(c, acts).Some? ==>
      forall p :: 0 <= p < |Run(c, acts).value.producers| ==> !ToldUncounted(Run(c, acts).value.producers[p])
  }

  predicate ToldUncounted(p: Producer) {
    p.Retired? && !p.counted
  }

  lemma NobodyMissedStep(s: State, a: Action)
    requires Inv(s) && s.stop && !SomeoneMissed(s) && Step(s, a).Some?
    ensures Step(s, a).value.stop && !SomeoneMissed(Step(s, a).value)
  {
    var s' := Step(s, a).value;
    forall p | 0 <= p < |s'.producers|
      ensures !Missed(s'.producers[p])
    {
      assert !Missed(s.producers[p]);
    }
  }

  lemma {:induction false} NobodyMissed(s: State, acts: seq<Action>)
    requires Inv(s) && s.stop && !SomeoneMissed(s) && Run(s, acts).Some?
    ensures !SomeoneMissed(Run(s, acts).value)
    decreases |acts|
  {
    if acts != [] {
      NobodyMissedStep(s, acts[0]);
      StepInv(s, acts[0]);
      NobodyMissed(Step(s, acts[0]).value, acts[1..]);
    }
  }

  lemma BeforeStop(s: State)
    requires Inv(s) && !s.stop
    ensures s.done == 0 && forall p :: 0 <= p < |s.producers| ==> !IsCounted(s.producers[p]) && !s.producers[p].Retired?
  {
    CountPositive(s.producers, IsCounted);
    forall p | 0 <= p < |s.producers|
      ensures !IsCounted(s.producers[p]) && !s.producers[p].Retired?
    {
      assert Sensible(s, p);
    }
  }

  /** Every producer that is told to stop will have been counted, if and only if none is on its way out of
      produce, past its own test of the flag, when stop() is called. */
  lemma EveryReturnCountedIff(s: State)
    requires Reachable(s) && Shaped(s) && !s.stop
    ensures EveryReturnCounted(s.(stop := true)) <==> !SomeoneReturning(s)
  {
    ReachableInv(s);
    BeforeStop(s);
    var c := s.(stop := true);
    assert Step(s, Stop) == Some(c);
    StepInv(s, Stop);
    if SomeoneReturning(s) {
      var p :| 0 <= p < |s.producers| && s.producers[p].Returning?;
      var t := Step(c, Return(p)).value;
      assert Run(t, []) == Some(t);
      assert Run(c, [Return(p)]) == Some(t);
      assert ToldUncounted(t.producers[p]);
    } else {
      forall acts | Run(c, acts).Some?
        ensures forall p :: 0 <= p < |Run(c, acts).value.producers| ==> !ToldUncounted(Run(c, acts).value.producers[p])
      {
        NobodyMissed(c, acts);
        assert forall p :: 0 <= p < |Run(c, acts).value.producers| ==> !Missed(Run(c, acts).value.producers[p]);
      }
    }
  }

  /** A missed producer stays missed, and the consumer then never exits. */
  lemma {:induction false} MissedBlocksExit(s: State, p: nat, acts: seq<Action>)
    requires Inv(s) && s.stop && p < |s.producers| && Missed(s.producers[p]) && Run(s, acts).Some?
    ensures !Run(s, acts).value.consumer.Exited?
    decreases |acts|
  {
    if acts == [] {
      CountFull(s.producers, IsCounted);
      assert !IsCounted(s.producers[p]);
    } else {
      StepInv(s, acts[0]);
      MissedStays(s, acts[0], p);
      MissedBlocksExit(Step(s, acts[0]).value, p, acts[1..]);
    }
  }

  lemma MissedStays(s: State, a: Action, p: nat)
    requires Shaped(s) && s.stop && p < |s.producers| && Missed(s.producers[p]) && Step(s, a).Some?
    ensures var s' := Step(s, a).value; s'.stop && |s'.producers| == |s.producers| && Missed(s'.producers[p])
  {
  }

  // ---- Which calls drop items ----

  /** The call of `p` under way will or can end with items left, if stop() is called now: it is about to test the
      flag with some, has found room for fewer, or can find room for fewer. */
  predicate MayDrop(s: State, p: nat)
    requires Shaped(s) && p < |s.producers|
  {
    match s.producers[p]
    case Testing(items) => items != []
    case Pushing(items) => |s.rings[p]| + |items| > s.capacity
    case Storing(items, k) => k < |items|
    case _ => Unpushed(s.producers[p]) != []
  }

  predicate NoCallBy(acts: seq<Action>, p: nat) {
    forall i :: 0 <= i < |acts| ==> !(acts[i].Call? && acts[i].p == p)
  }

  /** However the run goes on from `c`, the call of `p` under way drops nothing. */
  ghost predicate CallKeepsItems(c: State, p: nat)
    requires Shaped(c) && p < |c.producers|
  {
    forall acts :: NoCallBy(acts, p) && Run(c, acts).Some? ==> !Dropped(Run(c, acts).value, p)
  }

  predicate Dropped(s: State, p: nat) {
    p < |s.producers| && s.producers[p].Retired? && s.producers[p].left != []
  }

  predicate IsStepOf(a: Action, p: nat) {
    (a.Call? || a.Test? || a.PushLoad? || a.PushStore? || a.Leave? || a.Return?) && a.p == p
  }

  /** Nobody else touches a producer, and the consumer only makes room. */
  lemma OthersLeaveAlone(s: State, a: Action, p: nat)
    requires Shaped(s) && p < |s.producers| && Step(s, a).Some? && !IsStepOf(a, p)
    ensures var s' := Step(s, a).value;
      Shaped(s') && |s'.producers| == |s.producers| && s'.capacity == s.capacity
      && s'.producers[p] == s.producers[p] && |s'.rings[p]| <= |s.rings[p]|
  {
  }

  lemma OwnStepKeeps(s: State, a: Action, p: nat)
    requires Shaped(s) && p < |s.producers| && Sensible(s, p) && !MayDrop(s, p) && Step(s, a).Some? && IsStepOf(a, p) && !a.Call?
    ensures Shaped(Step(s, a).value) && p < |Step(s, a).value.producers| && !MayDrop(Step(s, a).value, p)
  {
  }

  lemma KeptStep(s: State, a: Action, p: nat)
    requires Inv(s) && p < |s.producers| && !MayDrop(s, p) && Step(s, a).Some? && !(a.Call? && a.p == p)
    ensures Shaped(Step(s, a).value) && p < |Step(s, a).value.producers| && !MayDrop(Step(s, a).value, p)
  {
    assert Sensible(s, p);
    if IsStepOf(a, p) {
      OwnStepKeeps(s, a, p);
    } else {
      OthersLeaveAlone(s, a, p);
    }
  }

  lemma {:induction false} KeptRun(s: State, acts: seq<Action>, p: nat)
    requires Inv(s) && p < |s.producers| && !MayDrop(s, p) && Run(s, acts).Some? && NoCallBy(acts, p)
    ensures !Dropped(Run(s, acts).value, p)
    decreases |acts|
  {
    if acts != [] {
      KeptStep(s, acts[0], p);
      StepInv(s, acts[0]);
      KeptRun(Step(s, acts[0]).value, acts[1..], p);
    }
  }

  /** The call of `p` under way at stop() keeps all its items under every schedule, if and only if it is in none of
      those places. */
  lemma CallKeepsItemsIff(s: State, p: nat)
    requires Reachable(s) && Shaped(s) && !s.stop && p < |s.producers|
    ensures CallKeepsItems(s.(stop := true), p) <==> !MayDrop(s, p)
  {
    ReachableInv(s);
    var c := s.(stop := true);
    assert Step(s, Stop) == Some(c);
    StepInv(s, Stop);
    if MayDrop(s, p) {
      assert Sensible(s, p);
      DropRun(c, p);
    } else {
      forall acts | NoCallBy(acts, p) && Run(c, acts).Some?
        ensures !Dropped(Run(c, acts).value, p)
      {
        KeptRun(c, acts, p);
      }
    }
  }

  /** The producer alone takes the steps that are left of the call. */
  lemma DropRun(c: State, p: nat)
    requires Inv(c) && c.stop && p < |c.producers| && MayDrop(c, p)
    requires c.producers[p].Testing? || c.producers[p].Pushing? || c.producers[p].Storing?
    ensures !CallKeepsItems(c, p)
  {
    assert Sensible(c, p);
    var first := if c.producers[p].Pushing? then [PushLoad(p), PushStore(p)]
                 else if c.producers[p].Storing? then [PushStore(p)] else [];
    PushRun(c, p, first);
    var t := Run(c, first).value;
    DropTail(t, p);
    RunConcat(c, first, [Test(p), Leave(p), Return(p)]);
    var acts := first + [Test(p), Leave(p), Return(p)];
    assert NoCallBy(acts, p);
    assert Dropped(Run(c, acts).value, p);
  }

  lemma PushRun(c: State, p: nat, first: seq<Action>)
    requires Inv(c) && c.stop && p < |c.producers| && MayDrop(c, p) && Sensible(c, p)
    requires match c.producers[p] {
      case Testing(_) => first == []
      case Pushing(_) => first == [PushLoad(p), PushStore(p)]
      case Storing(_, _) => first == [PushStore(p)]
      case _ => false
    }
    ensures var r := Run(c, first);
      r.Some? && Shaped(r.value) && r.value.stop && p < |r.value.producers| && r.value.producers[p].Testing? && r.value.producers[p].items != []
    decreases |first|
  {
    if first != [] {
      var c1 := Step(c, first[0]).value;
      StepInv(c, first[0]);
      assert Sensible(c1, p);
      PushRun(c1, p, first[1..]);
    }
  }

  lemma DropTail(t: State, p: nat)
    requires Shaped(t) && t.stop && p < |t.producers| && t.producers[p].Testing? && t.producers[p].items != []
    ensures Run(t, [Test(p), Leave(p), Return(p)]).Some? && Dropped(Run(t, [Test(p), Leave(p), Return(p)]).value, p)
  {
    var items := t.producers[p].items;
    var t1 := Step(t, Test(p)).value;
    assert t1.producers[p] == Leaving(items);
    var t2 := Step(t1, Leave(p)).value;
    assert t2.producers[p] == Returning(items, true);
    var t3 := Step(t2, Return(p)).value;
    assert t3.producers[p] == Retired(items, true);
    assert Run(t3, []) == Some(t3);
    assert Run(t2, [Return(p)]) == Some(t3);
    assert [Leave(p), Return(p)][1..] == [Return(p)];
    assert Run(t1, [Leave(p), Return(p)]) == Some(t3);
    assert [Test(p), Leave(p), Return(p)][1..] == [Leave(p), Return(p)];
  }

  /** The producer will not push again once the flag is set. */
  predicate PastPushing(p: Producer) {
    p.Testing? || p.Leaving? || p.Returning? || p.Retired?
  }

  lemma PastPushingStep(s: State, a: Action, p: nat)
    requires Shaped(s) && s.stop && p < |s.producers| && PastPushing(s.producers[p]) && Step(s, a).Some?
    ensures var t := Step(s, a).value;
      Shaped(t) && t.stop && p < |t.producers| && PastPushing(t.producers[p]) && Unpushed(t.producers[p]) == Unpushed(s.producers[p])
      && t.given[p] == s.given[p] && t.pushed[p] == s.pushed[p]
  {
  }

  /** Once the flag is set, a call at its loop test drops all it has left, and one that only begins then everything. */
  lemma {:induction false} LateCallDropsAll(s: State, p: nat, acts: seq<Action>)
    requires Shaped(s) && s.stop && p < |s.producers| && PastPushing(s.producers[p]) && Run(s, acts).Some?
    ensures var t := Run(s, acts).value;
      Shaped(t) && p < |t.producers| && Unpushed(t.producers[p]) == Unpushed(s.producers[p])
      && t.given[p] == s.given[p] && t.pushed[p] == s.pushed[p]
    decreases |acts|
  {
    if acts != [] {
      PastPushingStep(s, acts[0], p);
      LateCallDropsAll(Step(s, acts[0]).value, p, acts[1..]);
    }
  }

  // ---- Whether the last items are delivered ----

  /** The producer is in a push that may yet bring something. */
  predicate PushPending(p: Producer) {
    p.Pushing? || (p.Storing? && p.k > 0)
  }

  predicate SomeonePushing(s: State) {
    exists p :: 0 <= p < |s.producers| && PushPending(s.producers[p])
  }

  /** Ring `p` holds items that came after the consumer's visit in this round. */
  predicate LeftBehind(s: State, p: nat) {
    p < |s.rings| && Visited(s.consumer, p) && s.rings[p] != []
  }

  predicate SomethingBehind(s: State) {
    exists p :: 0 <= p < |s.rings| && LeftBehind(s, p)
  }

  /** All that was pushed has been delivered. */
  ghost predicate Complete(s: State)
    requires Shaped(s)
  {
    forall p :: 0 <= p < |s.rings| ==> Of(s.firsts, p) == s.pushed[p]
  }

  /** However the run goes on from `c`, if the consumer exits it has delivered everything. */
  ghost predicate ExitsComplete(c: State)
    requires Shaped(c)
  {
    forall acts :: Run(c, acts).Some? && Shaped(Run(c, acts).value) && Run(c, acts).value.consumer.Exited? ==> Complete(Run(c, acts).value)
  }

  /** After the exit a stream is complete exactly if its ring is empty. */
  lemma ExitCompleteIff(s: State, p: nat)
    requires Inv(s) && s.consumer.Exited? && p < |s.rings|
    ensures Of(s.firsts, p) == s.pushed[p] <==> s.rings[p] == []
  {
    assert KeptFor(s, p);
    assert s.buf[..s.offset] == [];
    assert |s.pushed[p]| == |Of(s.firsts, p)| + |s.rings[p]|;
    assert Of(s.firsts, p) + [] + [] == Of(s.firsts, p);
  }

  /** After the stop, with nobody pushing and nothing left behind, nothing will be. */
  ghost predicate Settled(s: State) {
    Inv(s) && s.stop && !SomeonePushing(s) && s.late == {}
  }

  lemma SettledStep(s: State, a: Action)
    requires Settled(s) && Step(s, a).Some?
    ensures Settled(Step(s, a).value)
  {
    StepInv(s, a);
    var s' := Step(s, a).value;
    forall p | 0 <= p < |s'.producers|
      ensures !PushPending(s'.producers[p])
    {
      assert !PushPending(s.producers[p]);
    }
  }

  lemma {:induction false} SettledRun(s: State, acts: seq<Action>)
    requires Settled(s) && Run(s, acts).Some?
    ensures Settled(Run(s, acts).value)
    decreases |acts|
  {
    if acts != [] {
      SettledStep(s, acts[0]);
      SettledRun(Step(s, acts[0]).value, acts[1..]);
    }
  }

  lemma NothingLeftBehind(s: State)
    requires Inv(s) && !SomethingBehind(s)
    ensures s.late == {}
  {
    forall p | p in s.late
      ensures false
    {
      assert LeftBehind(s, p);
    }
  }

  lemma {:induction false} CapacityStays(s: State, acts: seq<Action>)
    requires Shaped(s) && Run(s, acts).Some?
    ensures Run(s, acts).value.capacity == s.capacity
    decreases |acts|
  {
    if acts != [] {
      CapacityStays(Step(s, acts[0]).value, acts[1..]);
    }
  }

  lemma EmptyAtExit(c: State, acts: seq<Action>)
    requires Inv(c) && c.stop && Run(c, acts).Some? && Run(c, acts).value.consumer.Exited?
    requires c.capacity == 0 || SomeoneMissed(c) || Settled(c)
    ensures Shaped(Run(c, acts).value) && Complete(Run(c, acts).value)
  {
    var t := Run(c, acts).value;
    RunInv(c, acts);
    if c.capacity == 0 {
      CapacityStays(c, acts);
    } else if SomeoneMissed(c) {
      var p :| 0 <= p < |c.producers| && Missed(c.producers[p]);
      MissedBlocksExit(c, p, acts);
    } else {
      SettledRun(c, acts);
    }
    forall p | 0 <= p < |t.rings|
      ensures Of(t.firsts, p) == t.pushed[p]
    {
      ExitCompleteIff(t, p);
    }
  }

  // ---- A run that leaves items behind, in every other case ----

  /** Producer `q` goes on until it is counted; a push that was pending happens, as far as it fits. */
  lemma CountOne(c: State, t0: State, q: nat) returns (t: State)
    requires Leads(c, t0) && t0.stop && q < |t0.producers| && !Missed(t0.producers[q])
    ensures Leads(c, t) && t.stop && t.consumer == t0.consumer && Same(t0, t, q)
    ensures IsCounted(t.producers[q]) && t0.rings[q] <= t.rings[q]
  {
    t := t0;
    if t.producers[q].Idle? {
      t := Do(c, t, Call(q, []));
    }
    if t.producers[q].Pushing? || t.producers[q].Storing? {
      t := FinishPush(c, t, q);
    }
    t := LeaveLoop(c, t, q);
  }

  lemma FinishPush(c: State, t0: State, q: nat) returns (t: State)
    requires Leads(c, t0) && q < |t0.producers| && (t0.producers[q].Pushing? || t0.producers[q].Storing?)
    ensures Leads(c, t) && t.stop == t0.stop && t.consumer == t0.consumer && Same(t0, t, q)
    ensures t.producers[q].Testing? && t0.rings[q] <= t.rings[q]
    ensures t0.capacity > 0 && t0.rings[q] == [] && PushPending(t0.producers[q]) ==> t.rings[q] != []
  {
    t := t0;
    assert Sensible(t, q);
    if t.producers[q].Pushing? {
      t := Do(c, t, PushLoad(q));
      assert Sensible(t, q);
    }
    t := Do(c, t, PushStore(q));
  }

  lemma LeaveLoop(c: State, t0: State, q: nat) returns (t: State)
    requires Leads(c, t0) && t0.stop && q < |t0.producers| && !Missed(t0.producers[q])
    requires !t0.producers[q].Idle? && !t0.producers[q].Pushing? && !t0.producers[q].Storing?
    ensures Leads(c, t) && t.stop && t.consumer == t0.consumer && Same(t0, t, q)
    ensures IsCounted(t.producers[q]) && t.rings == t0.rings
  {
    t := t0;
    if t.producers[q].Testing? {
      t := Do(c, t, Test(q));
    }
    if t.producers[q].Leaving? {
      t := Do(c, t, Leave(q));
    }
  }

  /** Nothing but producer `q` and its ring has changed. */
  ghost predicate Same(s: State, s': State, q: nat)
    requires Shaped(s) && Shaped(s')
  {
    |s'.producers| == |s.producers| && forall p :: 0 <= p < |s.producers| && p != q ==> s'.producers[p] == s.producers[p] && s'.rings[p] == s.rings[p]
  }

  lemma CountAll(c: State, t0: State, b: nat) returns (t: State)
    requires Leads(c, t0) && t0.stop && !SomeoneMissed(t0) && LeftBehind(t0, b)
    ensures Leads(c, t) && t.stop && t.done == |t.producers| && t.consumer == t0.consumer && LeftBehind(t, b)
  {
    t := t0;
    var q := 0;
    while q < |t0.producers|
      invariant 0 <= q <= |t0.producers| == |t.producers| && Leads(c, t) && t.stop && t.consumer == t0.consumer && LeftBehind(t, b)
      invariant forall p :: 0 <= p < q ==> IsCounted(t.producers[p])
      invariant forall p :: q <= p < |t0.producers| ==> t.producers[p] == t0.producers[p]
      decreases |t0.producers| - q
    {
      assert !Missed(t0.producers[q]);
      t := CountOne(c, t, q);
      q := q + 1;
    }
    CountFull(t.producers, IsCounted);
  }

  /** The consumer finishes its round without delivering; rings already visited are not touched. */
  lemma FinishRound(c: State, t0: State) returns (t: State)
    requires Leads(c, t0) && t0.consumer.Draining?
    ensures Leads(c, t) && t.consumer == Draining(|t.rings|) && t.producers == t0.producers && t.stop == t0.stop && t.done == t0.done
    ensures |t.rings| == |t0.rings| && t.capacity == t0.capacity
    ensures forall p :: 0 <= p < |t.rings| ==> t.rings[p] == if Visited(t0.consumer, p) then t0.rings[p] else []
  {
    t := t0;
    while t.consumer.at < |t.rings|
      invariant Leads(c, t) && t.consumer.Draining? && t0.consumer.at <= t.consumer.at <= |t.rings|
      invariant t.producers == t0.producers && t.stop == t0.stop && t.done == t0.done && |t.rings| == |t0.rings| && t.capacity == t0.capacity
      invariant forall p :: 0 <= p < |t.rings| ==> t.rings[p] == if Visited(t0.consumer, p) || p >= t.consumer.at then t0.rings[p] else []
      decreases |t.rings| - t.consumer.at
    {
      t := VisitOne(c, t);
    }
  }

  lemma VisitOne(c: State, t0: State) returns (t: State)
    requires Leads(c, t0) && t0.consumer.Draining? && t0.consumer.at < |t0.rings|
    ensures Leads(c, t) && t.consumer == Draining(t0.consumer.at + 1) && t.rings == t0.rings[t0.consumer.at := []]
    ensures t.producers == t0.producers && t.stop == t0.stop && t.done == t0.done && t.capacity == t0.capacity
  {
    t := t0;
    var at := t.consumer.at;
    if t.rings[at] != [] {
      t := Do(c, t, Drain(|t.rings[at]|));
      assert t.rings[at] == [];
    }
    t := Do(c, t, NextQueue);
  }

  /** With an item behind the consumer, it can leave without it. */
  lemma LeaveWithout(c: State, t0: State, b: nat) returns (t: State)
    requires Leads(c, t0) && t0.stop && !SomeoneMissed(t0) && LeftBehind(t0, b) && !t0.consumer.Exited?
    ensures Leads(c, t) && t.consumer.Exited? && !Complete(t)
  {
    t := CountAll(c, t0, b);
    if t.consumer.Draining? {
      t := RoundWithout(c, t, b);
    }
    t := Do(c, t, Check);
    ExitCompleteIff(t, b);
  }

  lemma RoundWithout(c: State, t0: State, b: nat) returns (t: State)
    requires Leads(c, t0) && t0.consumer.Draining? && LeftBehind(t0, b)
    ensures Leads(c, t) && t.consumer.Delivered? && t.producers == t0.producers && t.stop == t0.stop && t.done == t0.done
    ensures LeftBehind(t, b)
  {
    t := FinishRound(c, t0);
    t := Do(c, t, Deliver(true));
  }

  /** A pending push can be made to fall behind the consumer. */
  lemma PushLate(c: State, t0: State, b: nat) returns (t: State)
    requires Leads(c, t0) && t0.stop && !SomeoneMissed(t0) && !t0.consumer.Exited? && t0.capacity > 0
    requires b < |t0.producers| && PushPending(t0.producers[b]) && !LeftBehind(t0, b)
    ensures Leads(c, t) && t.stop && !SomeoneMissed(t) && LeftBehind(t, b) && !t.consumer.Exited?
  {
    t := t0;
    if t.consumer.Draining? {
      t := FinishRound(c, t);
    }
    var before := t;
    assert t.rings[b] == [];
    t := FinishPush(c, t, b);
    forall p | 0 <= p < |t.producers|
      ensures !Missed(t.producers[p])
    {
      assert !Missed(before.producers[p]);
    }
  }

  /** What stop() finds decides: the consumer cannot leave anything undelivered, whoever runs when, if and only if
      at that moment no producer is about to push and no ring behind the consumer holds items; or the rings hold
      nothing at all; or some producer will be missed, so that the consumer never leaves. */
  lemma ExitsCompleteIff(s: State)
    requires Reachable(s) && Shaped(s) && !s.stop
    ensures ExitsComplete(s.(stop := true))
            <==> s.capacity == 0 || SomeoneReturning(s) || (!SomeonePushing(s) && !SomethingBehind(s))
  {
    ReachableInv(s);
    BeforeStop(s);
    var c := s.(stop := true);
    assert Step(s, Stop) == Some(c);
    StepInv(s, Stop);
    MissedIff(s);
    if s.capacity == 0 || SomeoneReturning(s) || (!SomeonePushing(s) && !SomethingBehind(s)) {
      if s.capacity > 0 && !SomeoneReturning(s) {
        NothingLeftBehind(s);
        assert Settled(c);
      }
      forall acts | Run(c, acts).Some? && Shaped(Run(c, acts).value) && Run(c, acts).value.consumer.Exited?
        ensures Complete(Run(c, acts).value)
      {
        EmptyAtExit(c, acts);
      }
    } else {
      StopShowsTheSame(s);
      var t := IncompleteExit(c);
      var acts :| Run(c, acts) == Some(t);
      assert !Complete(Run(c, acts).value);
    }
  }

  lemma MissedIff(s: State)
    requires Inv(s) && !s.stop
    ensures SomeoneMissed(s.(stop := true)) <==> SomeoneReturning(s)
  {
    BeforeStop(s);
    if p :| 0 <= p < |s.producers| && s.producers[p].Returning? {
      assert Missed(s.(stop := true).producers[p]);
    }
    if p :| 0 <= p < |s.producers| && Missed(s.(stop := true).producers[p]) {
      assert s.producers[p].Returning?;
    }
  }

  lemma StopShowsTheSame(s: State)
    ensures SomeonePushing(s) ==> SomeonePushing(s.(stop := true))
    ensures SomethingBehind(s) ==> SomethingBehind(s.(stop := true))
  {
    var c := s.(stop := true);
    if p :| 0 <= p < |s.producers| && PushPending(s.producers[p]) {
      assert PushPending(c.producers[p]);
    }
    if p :| 0 <= p < |s.rings| && LeftBehind(s, p) {
      assert LeftBehind(c, p);
    }
  }

  lemma IncompleteExit(c: State) returns (t: State)
    requires Inv(c) && c.stop && c.capacity > 0 && !SomeoneMissed(c) && !c.consumer.Exited?
    requires SomeonePushing(c) || SomethingBehind(c)
    ensures Leads(c, t) && t.consumer.Exited? && !Complete(t)
  {
    assert Run(c, []) == Some(c);
    if b: nat :| b < |c.rings| && LeftBehind(c, b) {
      t := LeaveWithout(c, c, b);
    } else {
      var b: nat :| b < |c.producers| && PushPending(c.producers[b]);
      t := PushLate(c, c, b);
      t := LeaveWithout(c, t, b);
    }
  }
}
