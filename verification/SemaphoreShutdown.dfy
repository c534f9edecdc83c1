/** What the shutdown of the semaphore pool can come to. While the members outlive the joins, the destructor is
    sure to return exactly when it finds the queue empty or the pool has at most one worker. The declaration
    order destroys the members first; that no worker or submitter then uses one of them is sure exactly for a
    pool without workers and without a pending release. */
module SemaphoreShutdown {
  import opened Common
  import opened SemaphorePool

  predicate AllExited(s: State) {
    forall w :: 0 <= w < |s.pcs| ==> s.pcs[w].Exited?
  }

  /** Neither the destructor's body nor a worker nor a pending release can take a step. */
  ghost predicate Stuck(s: State) {
    forall a: Action :: !a.Push? && !a.DestroyMembers? ==> Step(s, a).None?
  }

  /** The steps of a run other than submissions, which a closed gate turns away. */
  function Moves(acts: seq<Action>): nat {
    if acts == [] then 0 else (if acts[0].Push? then 0 else 1) + Moves(acts[1..])
  }

  /** However the workers are scheduled from `c` on, after at most `bound` steps nothing is left to do, and
      then every worker has exited. */
  ghost predicate JoinsWithin(c: State, bound: nat) {
    forall acts :: Run(c, acts).Some? && MembersOutliveJoins(Run(c, acts).value) ==>
      Moves(acts) <= bound && (Stuck(Run(c, acts).value) ==> AllExited(Run(c, acts).value))
  }

  ghost predicate AlwaysJoins(c: State) {
    exists bound: nat :: JoinsWithin(c, bound)
  }

  /** The run can go on from `c` to `t`. */
  ghost predicate Leads(c: State, t: State) {
    Reachable(c) && Reachable(t) && exists acts :: Run(c, acts) == Some(t)
  }

  ghost function Do(c: State, t: State, a: Action): (t': State)
    requires Leads(c, t) && Step(t, a).Some?
    ensures Some(t') == Step(t, a) && Leads(c, t')
  {
    LeadsStep(c, t, a);
    Step(t, a).value
  }

  lemma LeadsStep(c: State, t: State, a: Action)
    requires Leads(c, t) && Step(t, a).Some?
    ensures Leads(c, Step(t, a).value)
  {
    var acts :| Run(c, acts) == Some(t);
    ReachableStep(t, a);
    RunConcat(c, acts, [a]);
    assert Run(t, [a]) == Step(t, a);
    assert Run(c, acts + [a]) == Step(t, a);
  }

  // ---- No hang from an empty queue ----

  /** The gate is closed on an empty queue: nobody is past its acquire without having seen the stop. */
  ghost predicate Emptied(s: State) {
    && Inv(s) && s.stopping && s.tasks == [] && s.unreleased == 0 && s.retries == 0
    && (forall w :: 0 <= w < |s.pcs| ==> !s.pcs[w].ToPop?)
    && (forall w :: 0 <= w < |s.pcs| && HasPermit(s.pcs[w]) ==> s.released)
  }

  lemma EmptiedStep(s: State, a: Action)
    requires Emptied(s) && Step(s, a).Some?
    ensures Emptied(Step(s, a).value)
  {
    StepInv(s, a);
  }

  lemma {:induction false} EmptiedRun(s: State, acts: seq<Action>)
    requires Emptied(s) && Run(s, acts).Some?
    ensures Emptied(Run(s, acts).value)
    decreases |acts|
  {
    if acts != [] {
      EmptiedStep(s, acts[0]);
      EmptiedRun(Step(s, acts[0]).value, acts[1..]);
    }
  }

  lemma ClosedOnEmpty(s: State)
    requires Inv(s) && !s.stopping && s.tasks == []
    ensures Emptied(s.(stopping := true))
  {
    StepInv(s, CloseGate);
    CountPositive(s.pcs, HasPermit);
  }

  // ---- No hang with a single worker ----

  /** A lone worker about to pop finds a task, as long as there is a queue. */
  ghost predicate Lone(s: State) {
    && Inv(s) && |s.pcs| <= 1 && s.retries == 0
    && (!s.dead ==> forall w :: 0 <= w < |s.pcs| && s.pcs[w].ToPop? ==> s.tasks != [])
  }

  lemma LoneStep(s: State, a: Action)
    requires Lone(s) && Step(s, a).Some?
    ensures Lone(Step(s, a).value)
  {
    StepInv(s, a);
    CountPositive(s.pcs, HasPermit);
  }

  lemma {:induction false} LoneRun(s: State, acts: seq<Action>)
    requires Lone(s) && Run(s, acts).Some?
    ensures Lone(Run(s, acts).value)
    decreases |acts|
  {
    if acts != [] {
      LoneStep(s, acts[0]);
      LoneRun(Step(s, acts[0]).value, acts[1..]);
    }
  }

  lemma ClosedOnLone(s: State)
    requires Inv(s) && !s.stopping && |s.pcs| <= 1
    ensures Lone(s.(stopping := true))
  {
    StepInv(s, CloseGate);
    CountPositive(s.pcs, HasPermit);
  }

  // ---- A run that hangs, from any other state ----

  predicate Alive(s: State) {
    !s.dead && !s.misused
  }

  /** The gate is closed, but no worker has been asked to stop yet. */
  predicate Closing(s: State) {
    s.stopping && s.asked == 0 && !s.released && |s.pcs| >= 2 && Alive(s)
  }

  predicate AtRest(p: Pc) { p.AtAcquire? || p.ToPop? }

  /** The pending releases happen, running tasks end, and every worker with a permit gets to its pop. */
  lemma Settle(c: State) returns (t: State)
    requires Reachable(c) && Closing(c) && c.tasks != []
    ensures Leads(c, t) && Closing(t) && t.tasks == c.tasks && t.unreleased == 0 && |t.pcs| == |c.pcs|
    ensures forall w :: 0 <= w < |t.pcs| ==> AtRest(t.pcs[w])
  {
    assert Run(c, []) == Some(c);
    t := c;
    while t.unreleased > 0
      invariant Leads(c, t) && Closing(t) && t.tasks == c.tasks && t.pcs == c.pcs
      decreases t.unreleased
    {
      t := Do(c, t, ReleaseOne);
    }
    var w := 0;
    while w < |t.pcs|
      invariant Leads(c, t) && Closing(t) && t.tasks == c.tasks && t.unreleased == 0 && |t.pcs| == |c.pcs| && 0 <= w <= |c.pcs|
      invariant forall v :: 0 <= v < w ==> AtRest(t.pcs[v])
      decreases |c.pcs| - w
    {
      t := SettleOne(c, t, w);
      w := w + 1;
    }
  }

  lemma SettleOne(c: State, t: State, w: nat) returns (t': State)
    requires Leads(c, t) && Closing(t) && t.tasks != [] && w < |t.pcs|
    ensures Leads(c, t') && Closing(t') && t'.tasks == t.tasks && t'.unreleased == t.unreleased
    ensures exists p :: AtRest(p) && t'.pcs == t.pcs[w := p]
  {
    ReachableInv(t);
    CountPositive(t.pcs, IsExited);
    match t.pcs[w] {
      case AtAcquire => t' := t;
      case ToPop => t' := t;
      case Holding => t' := Do(c, t, ReadStop(w));
      case Checking => t' := Do(c, t, CheckEmpty(w));
      case Running(_) => t' := Do(c, t, Finish(w));
    }
    assert AtRest(t'.pcs[w]) && t'.pcs == t.pcs[w := t'.pcs[w]];
  }

  /** Everybody waits for a permit or is about to pop; then there is one permit, taken or not, per task. */
  predicate Settled(s: State) {
    Closing(s) && s.unreleased == 0 && forall w :: 0 <= w < |s.pcs| ==> AtRest(s.pcs[w])
  }

  lemma SettledPermits(s: State)
    requires Reachable(s) && Settled(s)
    ensures s.permits + Count(s.pcs, HasPermit) == |s.tasks|
  {
    ReachableInv(s);
    CountPositive(s.pcs, IsExited);
  }

  /** Some worker is about to pop. */
  lemma OneAtPop(c: State, t: State) returns (t': State, w: nat)
    requires Leads(c, t) && Settled(t) && t.tasks != []
    ensures Leads(c, t') && Settled(t') && t'.tasks == t.tasks && |t'.pcs| == |t.pcs|
    ensures w < |t'.pcs| && t'.pcs[w].ToPop?
  {
    SettledPermits(t);
    CountPositive(t.pcs, HasPermit);
    if v: nat :| v < |t.pcs| && t.pcs[v].ToPop? {
      t', w := t, v;
    } else {
      w := 0;
      t' := Do(c, Do(c, t, Acquire(0)), ReadStop(0));
    }
  }

  /** The workers drain the queue down to one task. */
  lemma DrainToOne(c: State, t0: State) returns (t: State)
    requires Leads(c, t0) && Settled(t0) && t0.tasks != []
    ensures Leads(c, t) && Settled(t) && |t.tasks| == 1 && |t.pcs| == |t0.pcs|
  {
    t := t0;
    while |t.tasks| > 1
      invariant Leads(c, t) && Settled(t) && t.tasks != [] && |t.pcs| == |t0.pcs|
      decreases |t.tasks|
    {
      var u, w := OneAtPop(c, t);
      t := Do(c, Do(c, u, Pop(w)), Finish(w));
    }
  }

  /** One worker holds the only permit, for the only task. */
  predicate OneLeft(s: State, w: nat) {
    && Alive(s) && |s.pcs| >= 2 && w < |s.pcs| && s.stopping && !s.released && s.unreleased == 0 && s.permits == 0 && |s.tasks| == 1
    && forall v :: 0 <= v < |s.pcs| ==> s.pcs[v] == if v == w then ToPop else AtAcquire
  }

  lemma Corner(c: State, t: State) returns (t': State, w: nat)
    requires Leads(c, t) && Settled(t) && |t.tasks| == 1
    ensures Leads(c, t') && OneLeft(t', w) && t'.asked == 0 && |t'.pcs| == |t.pcs|
  {
    t', w := OneAtPop(c, t);
    SettledPermits(t');
    CountUpdate(t'.pcs, w, AtAcquire, HasPermit);
    CountPositive(t'.pcs, HasPermit);
    CountPositive(t'.pcs[w := AtAcquire], HasPermit);
    forall v | 0 <= v < |t'.pcs| && v != w
      ensures !t'.pcs[v].ToPop?
    {
      assert t'.pcs[w := AtAcquire][v] == t'.pcs[v];
    }
  }

  /** The destructor asks everybody and releases one permit per worker. */
  lemma AskAll(c: State, t0: State) returns (t: State)
    requires Leads(c, t0) && Alive(t0) && t0.stopping && t0.asked == 0 && !t0.released
    ensures Leads(c, t) && t == t0.(asked := |t0.pcs|, released := true, permits := t0.permits + |t0.pcs|)
  {
    t := t0;
    while t.asked < |t0.pcs|
      invariant Leads(c, t) && t == t0.(asked := t.asked) && t.asked <= |t0.pcs|
      decreases |t0.pcs| - t.asked
    {
      t := Do(c, t, RequestStop);
    }
    t := Do(c, t, ReleaseAll);
  }

  /** A second worker sees the task and goes to pop it. */
  lemma SecondWorker(c: State, t: State, v: nat) returns (t': State)
    requires Leads(c, t) && Alive(t) && t.tasks != [] && v < |t.pcs| && t.pcs[v].AtAcquire?
    requires t.permits > 0 && v < t.asked
    ensures Leads(c, t') && t' == t.(permits := t.permits - 1, pcs := t.pcs[v := ToPop])
  {
    t' := Do(c, t, Acquire(v));
    t' := Do(c, t', ReadStop(v));
    t' := Do(c, t', CheckEmpty(v));
    assert t'.pcs == t.pcs[v := ToPop];
  }

  /** It takes the task, and the first one finds the queue empty. */
  lemma Snatch(c: State, t0: State, w: nat, v: nat) returns (t: State)
    requires Leads(c, t0) && |t0.tasks| == 1 && v < |t0.pcs| && w < |t0.pcs| && v != w && t0.pcs[w].ToPop? && t0.pcs[v].AtAcquire?
    requires Alive(t0) && t0.permits > 0 && v < t0.asked && t0.released && t0.unreleased == 0
    ensures Leads(c, t) && Alive(t) && t.tasks == [] && t.permits == t0.permits - 1 && t.pcs == t0.pcs[w := AtAcquire]
    ensures t.released && t.unreleased == 0 && t.asked == t0.asked
  {
    t := SecondWorker(c, t0, v);
    t := Do(c, t, Pop(v));
    t := Do(c, t, Pop(w));
    t := Do(c, t, Finish(v));
    assert t.pcs == t0.pcs[w := AtAcquire];
  }

  /** Everybody else exits, which uses up the permits. */
  lemma OthersExit(c: State, t0: State, v: nat) returns (t: State)
    requires Leads(c, t0) && Alive(t0) && t0.tasks == [] && v < |t0.pcs| && t0.permits == |t0.pcs| - 1
    requires t0.released && t0.unreleased == 0 && t0.asked == |t0.pcs|
    requires forall u :: 0 <= u < |t0.pcs| ==> t0.pcs[u].AtAcquire?
    ensures Leads(c, t) && Alive(t) && Quiescent(t) && v < |t.pcs| && t.pcs[v].AtAcquire?
  {
    t := t0;
    var u := 0;
    while u < |t0.pcs|
      invariant 0 <= u <= |t0.pcs| == |t.pcs| && Leads(c, t) && Alive(t)
      invariant t.tasks == [] && t.released && t.unreleased == 0 && t.asked == |t0.pcs|
      invariant t.permits == |t0.pcs| - 1 - (if u <= v then u else u - 1)
      invariant forall k :: 0 <= k < |t.pcs| ==> t.pcs[k] == if k < u && k != v then Exited else AtAcquire
      decreases |t0.pcs| - u
    {
      if u != v {
        t := Do(c, Do(c, Do(c, t, Acquire(u)), ReadStop(u)), CheckEmpty(u));
      }
      u := u + 1;
    }
  }

  lemma HangingRun(c: State) returns (t: State)
    requires Reachable(c) && Closing(c) && c.tasks != []
    ensures Leads(c, t) && Alive(t) && Quiescent(t) && !AllExited(t)
  {
    var t1 := Settle(c);
    var t2 := DrainToOne(c, t1);
    var t3, w := Corner(c, t2);
    var v := if w == 0 then 1 else 0;
    var t4 := AskAll(c, t3);
    var t5 := Snatch(c, t4, w, v);
    t := OthersExit(c, t5, v);
  }

  /** The least example: two workers, and one task when the destructor begins. */
  lemma DestructorCanHang(t: Task)
    ensures exists s :: Reachable(s) && |s.pcs| == 2 && s.accepted == [t] && MembersOutliveJoins(s) && Quiescent(s) && !AllExited(s)
  {
    var s0 := Init(2);
    assert Run(s0, []) == Some(s0);
    var c := Go(Go(s0, Push(t)), CloseGate);
    var s := HangingRun(c);
    var acts :| Run(c, acts) == Some(s);
    ClosedAcceptsNothing(c, acts);
  }

  lemma {:induction false} ClosedAcceptsNothing(s: State, acts: seq<Action>)
    requires s.stopping && Run(s, acts).Some?
    ensures Run(s, acts).value.accepted == s.accepted && |Run(s, acts).value.pcs| == |s.pcs| && Run(s, acts).value.stopping
    decreases |acts|
  {
    if acts != [] {
      ClosedAcceptsNothing(Step(s, acts[0]).value, acts[1..]);
    }
  }

  // ---- Every shutdown comes to rest ----

  function Weight(p: Pc): nat {
    match p case Holding => 4 case Checking => 3 case ToPop => 2 case Running(_) => 1 case _ => 0
  }

  function Weights(pcs: seq<Pc>): nat {
    if pcs == [] then 0 else Weights(pcs[..|pcs| - 1]) + Weight(pcs[|pcs| - 1])
  }

  lemma {:induction false} WeightsUpdate(pcs: seq<Pc>, w: nat, pc: Pc)
    requires w < |pcs|
    ensures Weights(pcs[w := pc]) + Weight(pcs[w]) == Weights(pcs) + Weight(pc)
  {
    var front, n := pcs[..|pcs| - 1], |pcs| - 1;
    if w == n {
      assert pcs[w := pc][..n] == front;
    } else {
      WeightsUpdate(front, w, pc);
      assert pcs[w := pc][..n] == front[w := pc];
    }
  }

  /** What is left to do: a pending release is worth a permit and a step, a permit the steps from taking it to
      the end of a task; the members can be destroyed once, and one use of them ends all. */
  function Measure(s: State): int {
    (if s.dead then 0 else 1) + (if s.misused then 0 else 1) + 6 * s.unreleased + 5 * s.permits + Weights(s.pcs) + (|s.pcs| - s.asked) + (if s.released then 0 else 5 * |s.pcs| + 1)
  }

  lemma WorkerFalls(s: State, a: Action, w: nat, s': State)
    requires a == Acquire(w) || a == ReadStop(w) || a == CheckEmpty(w) || a == Pop(w) || a == Finish(w)
    requires LiveStep(s, a) == Some(s')
    ensures Measure(s') < Measure(s)
  {
    WeightsUpdate(s.pcs, w, s'.pcs[w]);
  }

  /** Once the gate is closed, a submission changes nothing and every other step brings the end nearer. */
  lemma MeasureFalls(s: State, a: Action)
    requires s.stopping && Step(s, a).Some?
    ensures Step(s, a).value.stopping
    ensures if a.Push? then Step(s, a).value == s else Measure(Step(s, a).value) < Measure(s)
  {
    if (a.Acquire? || a.ReadStop? || a.CheckEmpty? || a.Pop? || a.Finish?) && Step(s, a) == LiveStep(s, a) {
      WorkerFalls(s, a, a.w, Step(s, a).value);
    }
  }

  lemma MeasureNotNegative(s: State)
    requires Inv(s)
    ensures Measure(s) >= 0
  {
  }

  /** So every schedule ends, whether or not it goes past the destruction of the members: no more steps can be
      taken than the measure says. */
  lemma {:induction false} ShutdownEnds(s: State, acts: seq<Action>)
    requires Inv(s) && s.stopping && Run(s, acts).Some?
    ensures Moves(acts) <= Measure(s)
    decreases |acts|
  {
    MeasureNotNegative(s);
    if acts != [] {
      MeasureFalls(s, acts[0]);
      StepInv(s, acts[0]);
      ShutdownEnds(Step(s, acts[0]).value, acts[1..]);
    }
  }

  lemma StuckAtRest(s: State)
    requires Reachable(s) && s.stopping && MembersOutliveJoins(s)
    ensures Stuck(s) ==> AllExited(s) || Quiescent(s)
    ensures Quiescent(s) ==> Stuck(s)
  {
    ReachableInv(s);
    if Stuck(s) {
      assert Step(s, RequestStop).None? && Step(s, ReleaseAll).None? && Step(s, ReleaseOne).None?;
      assert s.released;
      if !Quiescent(s) {
        StuckOnlyWhenQuiescent(s);
      }
    }
  }

  /** While the members outlive the joins, the destructor is sure to return, however the workers are scheduled,
      if and only if the queue is empty when it closes the gate or there is at most one worker. */
  lemma ShutdownJoinsIff(s: State)
    requires Reachable(s) && !s.stopping
    ensures Step(s, CloseGate).Some?
    ensures AlwaysJoins(Step(s, CloseGate).value) <==> |s.pcs| <= 1 || s.tasks == []
  {
    ReachableInv(s);
    var c := s.(stopping := true);
    assert Step(s, CloseGate) == Some(c);
    ReachableStep(s, CloseGate);
    if |s.pcs| <= 1 || s.tasks == [] {
      ReachableInv(c);
      MeasureNotNegative(c);
      forall acts | Run(c, acts).Some? && MembersOutliveJoins(Run(c, acts).value)
        ensures Moves(acts) <= Measure(c) && (Stuck(Run(c, acts).value) ==> AllExited(Run(c, acts).value))
      {
        ShutdownEnds(c, acts);
        JoinedAtRest(s, acts);
      }
      assert JoinsWithin(c, Measure(c));
    } else {
      forall bound: nat
        ensures !JoinsWithin(c, bound)
      {
        var t := HangingRun(c);
        ClosedFor(c, t);
        StuckAtRest(t);
        var acts :| Run(c, acts) == Some(t);
        assert Stuck(Run(c, acts).value) && !AllExited(Run(c, acts).value);
      }
    }
  }

  lemma ClosedFor(c: State, t: State)
    requires Leads(c, t) && c.stopping
    ensures t.stopping
  {
    var acts :| Run(c, acts) == Some(t);
    ClosedAcceptsNothing(c, acts);
  }

  lemma JoinedAtRest(s: State, acts: seq<Action>)
    requires Reachable(s) && !s.stopping && (|s.pcs| <= 1 || s.tasks == [])
    requires Run(s.(stopping := true), acts).Some? && MembersOutliveJoins(Run(s.(stopping := true), acts).value)
    requires Step(s, CloseGate) == Some(s.(stopping := true))
    ensures var t := Run(s.(stopping := true), acts).value; Stuck(t) ==> AllExited(t)
  {
    ReachableInv(s);
    var c := s.(stopping := true);
    var t := Run(c, acts).value;
    if s.tasks == [] {
      ClosedOnEmpty(s);
      EmptiedRun(c, acts);
    } else {
      ClosedOnLone(s);
      LoneRun(c, acts);
    }
    ReachableStep(s, CloseGate);
    assert Run(c, []) == Some(c);
    LeadsRun(c, c, acts);
    ClosedAcceptsNothing(c, acts);
    StuckAtRest(t);
    if Quiescent(t) {
      JoinsReturnIffNoRetry(t);
    }
  }

  lemma {:induction false} LeadsRun(c: State, t: State, acts: seq<Action>)
    requires Leads(c, t) && Run(t, acts).Some?
    ensures Leads(c, Run(t, acts).value)
    decreases |acts|
  {
    if acts != [] {
      LeadsStep(c, t, acts[0]);
      LeadsRun(c, Step(t, acts[0]).value, acts[1..]);
    }
  }

  // ---- The members are destroyed before the joins ----

  /** However the run goes on from `c`, no destroyed member is used. */
  ghost predicate MembersSafe(c: State) {
    forall acts :: Run(c, acts).Some? ==> !Run(c, acts).value.misused
  }

  /** The destructor runs through to the destruction of the members before anybody else moves. */
  lemma DestroyFirst(c: State) returns (t: State)
    requires Reachable(c) && Alive(c) && c.stopping && c.asked == 0 && !c.released
    ensures Leads(c, t) && t == c.(asked := |c.pcs|, released := true, permits := c.permits + |c.pcs|, dead := true, freed := c.tasks, tasks := [])
  {
    assert Run(c, []) == Some(c);
    t := AskAll(c, c);
    t := Do(c, t, DestroyMembers);
  }

  /** Wherever a worker that has not exited stands, it comes back to the semaphore or the mutex. */
  lemma WorkerTouches(c: State, t: State, w: nat) returns (t': State)
    requires Leads(c, t) && t.dead && !t.misused && w < |t.pcs| && w < t.asked && !t.pcs[w].Exited?
    ensures Leads(c, t') && t'.misused
  {
    match t.pcs[w]
    case AtAcquire => t' := Do(c, t, Acquire(w));
    case Holding => t' := Do(c, Do(c, t, ReadStop(w)), CheckEmpty(w));
    case Checking => t' := Do(c, t, CheckEmpty(w));
    case ToPop => t' := Do(c, t, Pop(w));
    case Running(_) => t' := Do(c, Do(c, t, Finish(w)), Acquire(w));
  }

  lemma DeadMemberUsed(c: State) returns (t: State)
    requires Reachable(c) && Alive(c) && c.stopping && c.asked == 0 && !c.released
    requires c.pcs != [] || c.unreleased > 0
    ensures Leads(c, t) && t.misused
  {
    ReachableInv(c);
    CountPositive(c.pcs, IsExited);
    t := DestroyFirst(c);
    if c.pcs != [] {
      t := WorkerTouches(c, t, 0);
    } else {
      t := Do(c, t, ReleaseOne);
    }
  }

  lemma {:induction false} NobodyLeft(s: State, acts: seq<Action>)
    requires s.pcs == [] && s.unreleased == 0 && s.stopping && !s.misused && Run(s, acts).Some?
    ensures !Run(s, acts).value.misused
    decreases |acts|
  {
    if acts != [] {
      NobodyLeft(Step(s, acts[0]).value, acts[1..]);
    }
  }

  /** From a state in which the destructor begins, every schedule leaves the destroyed members alone if and
      only if the pool has no workers and no submitter is between its push and its release. */
  lemma MembersSafeIff(s: State)
    requires Reachable(s) && !s.stopping
    ensures Step(s, CloseGate).Some?
    ensures MembersSafe(Step(s, CloseGate).value) <==> s.pcs == [] && s.unreleased == 0
  {
    ReachableInv(s);
    var c := s.(stopping := true);
    assert Step(s, CloseGate) == Some(c);
    ReachableStep(s, CloseGate);
    if s.pcs == [] && s.unreleased == 0 {
      forall acts | Run(c, acts).Some?
        ensures !Run(c, acts).value.misused
      {
        NobodyLeft(c, acts);
      }
    } else {
      var t := DeadMemberUsed(c);
      var acts :| Run(c, acts) == Some(t);
      assert Run(c, acts).value.misused;
    }
  }

  /** The least example: one idle worker, whose blocked acquire outlives the semaphore, and a queued task that
      is freed without having run. */
  lemma WorkerOutlivesSemaphore(t: Task)
    ensures exists s :: Reachable(s) && |s.pcs| == 1 && s.misused && s.accepted == s.freed == [t] && s.popped == []
  {
    var s0 := Init(1);
    assert Run(s0, []) == Some(s0);
    var c := Go(Go(s0, Push(t)), CloseGate);
    var s := DestroyFirst(c);
    assert s.pcs[0].AtAcquire?;
    s := Do(c, s, Acquire(0));
  }
}
