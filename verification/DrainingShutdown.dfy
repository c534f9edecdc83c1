/** What the shutdown of the draining pool can come to. It declares its workers last, so the queue, the mutex and
    the condition variable are destroyed after the last join; running tasks have then given their notifications.
    A submitter outside the pool can still owe one, and that it does decides whether a destroyed condition variable
    can be notified. */
module DrainingShutdown {
  import opened Common
  import opened DrainingPool

  /** The run can go on from `c` to `t`. */
  ghost predicate Leads(c: State, t: State) {
    Inv(c) && Inv(t) && exists acts :: Run(c, acts) == Some(t)
  }

  ghost function Do(c: State, t: State, a: Action): (t': State)
    requires Leads(c, t) && Step(t, a).Some?
    ensures Some(t') == Step(t, a) && Leads(c, t')
  {
    LeadsStep(c, t, a);
    Step(t, a).value
  }

  lemma LeadsStep(c: State, t: State, a: Action)
    requires Leads(c, t) && Step(t, a).Some?
    ensures Leads(c, Step(t, a).value)
  {
    var acts, t' :| Run(c, acts) == Some(t) && Step(t, a) == Some(t');
    StepInv(t, a);
    RunThen(c, acts, t, a);
    assert Run(c, acts + [a]) == Some(t');
  }

  lemma {:induction false} RunThen(s: State, acts: seq<Action>, t: State, a: Action)
    requires |s.stop| == |s.pcs| && Run(s, acts) == Some(t) && |t.stop| == |t.pcs| && Step(t, a).Some?
    ensures Run(s, acts + [a]) == Step(t, a)
    decreases |acts|
  {
    if acts == [] {
      var t' := Step(t, a).value;
      assert [] + [a] == [a] && [a][1..] == [];
      assert Run(t', []) == Some(t');
    } else {
      assert (acts + [a])[1..] == acts[1..] + [a];
      RunThen(Step(s, acts[0]).value, acts[1..], t, a);
    }
  }

  // ---- A schedule that joins everybody ----

  /** Nothing about the shutdown changed but, possibly, that worker `w` has exited. */
  predicate Beside(t0: State, t: State, w: nat) {
    && |t.pcs| == |t0.pcs| && t.stop == t0.stop && t.destroying == t0.destroying && t.dead == t0.dead && t.outside == t0.outside
    && forall v :: 0 <= v < |t.pcs| && v != w ==> t.pcs[v].Exited? == t0.pcs[v].Exited?
  }

  function Rank(p: Pc): nat {
    match p
    case Running(_, owes) => if owes then 3 else 2
    case Exited => 0
    case _ => 1
  }

  /** The task that worker `w` runs gives the notification it owes, to a sleeper if there is one. */
  lemma GiveNotification(c: State, t0: State, w: nat) returns (t: State)
    requires Leads(c, t0) && w < |t0.pcs| && Owes(t0.pcs[w])
    ensures Leads(c, t) && Beside(t0, t, w) && t.tasks == t0.tasks && t.pcs[w] == t0.pcs[w].(owes := false)
  {
    if v: nat :| v < |t0.pcs| && t0.pcs[v].Sleeping? {
      t := Do(c, t0, NotifyOne(Some(w), v));
    } else {
      t := Do(c, t0, NotifyNobody(Some(w)));
    }
  }

  /** The next step of a worker that has been told to stop, if it alone runs and its tasks submit nothing. */
  lemma JoinStep(c: State, t0: State, w: nat) returns (t: State)
    requires Leads(c, t0) && w < |t0.pcs| && t0.stop[w] && !t0.pcs[w].Exited?
    ensures Leads(c, t) && Beside(t0, t, w) && 3 * |t.tasks| + Rank(t.pcs[w]) < 3 * |t0.tasks| + Rank(t0.pcs[w])
  {
    if Owes(t0.pcs[w]) {
      t := GiveNotification(c, t0, w);
    } else if t0.pcs[w].Running? {
      t := Do(c, t0, Finish(w));
    } else {
      t := Do(c, t0, Enter(w));
    }
  }

  /** So it drains the queue and exits. */
  lemma {:induction false} JoinOne(c: State, t0: State, w: nat) returns (t: State)
    requires Leads(c, t0) && w < |t0.pcs| && t0.stop[w]
    ensures Leads(c, t) && Beside(t0, t, w) && t.pcs[w].Exited?
    decreases 3 * |t0.tasks| + Rank(t0.pcs[w])
  {
    t := t0;
    if !t.pcs[w].Exited? {
      t := JoinStep(c, t, w);
      t := JoinOne(c, t, w);
    }
  }

  /** The workers before `w`, and all that have been told to stop, have exited. */
  ghost predicate JoinedUpTo(t: State, w: nat)
    requires |t.stop| == |t.pcs|
  {
    forall v :: 0 <= v < |t.pcs| && (v < w || t.stop[v]) ==> t.pcs[v].Exited?
  }

  /** At most one worker is being joined; it goes first. */
  lemma JoinCurrent(c: State, t0: State) returns (t: State)
    requires Leads(c, t0)
    ensures Leads(c, t) && |t.pcs| == |t0.pcs| && t.destroying == t0.destroying && t.dead == t0.dead && t.outside == t0.outside
    ensures JoinedUpTo(t, 0)
  {
    t := t0;
    if w: nat :| w < |t0.pcs| && t0.stop[w] && !t0.pcs[w].Exited? {
      t := JoinOne(c, t, w);
      assert forall v :: 0 <= v < |t.pcs| && v != w && t.stop[v] ==> t0.pcs[v].Exited?;
    }
  }

  lemma StopAndJoin(c: State, t0: State, w: nat) returns (t: State)
    requires Leads(c, t0) && t0.destroying && w < |t0.pcs| && !t0.stop[w] && JoinedUpTo(t0, w)
    ensures Leads(c, t) && |t.pcs| == |t0.pcs| && t.destroying && t.dead == t0.dead && t.outside == t0.outside && JoinedUpTo(t, w + 1)
  {
    var t1 := Do(c, t0, RequestStop(w));
    assert forall v :: 0 <= v < |t0.pcs| && t0.pcs[v].Exited? ==> t1.pcs[v].Exited?;
    t := JoinOne(c, t1, w);
  }

  lemma {:induction false} JoinFrom(c: State, t0: State, w: nat) returns (t: State)
    requires Leads(c, t0) && t0.destroying && w <= |t0.pcs| && JoinedUpTo(t0, w)
    ensures Leads(c, t) && AllExited(t) && t.destroying && t.dead == t0.dead && t.outside == t0.outside
    decreases |t0.pcs| - w
  {
    t := t0;
    if w < |t.pcs| {
      if !t.stop[w] {
        t := StopAndJoin(c, t, w);
      }
      t := JoinFrom(c, t, w + 1);
    }
  }

  /** From every state of the shutdown there is a schedule by which all workers are joined. */
  lemma JoinAll(c: State) returns (t: State)
    requires Inv(c) && c.destroying && !c.dead
    ensures Leads(c, t) && AllExited(t) && t.destroying && !t.dead && t.outside == c.outside
  {
    assert Run(c, []) == Some(c);
    t := JoinCurrent(c, c);
    t := JoinFrom(c, t, 0);
  }

  // ---- Whether a destroyed member can be used ----

  /** However the run goes on from `c`, no destroyed condition variable is notified. */
  ghost predicate MembersSafe(c: State)
    requires |c.stop| == |c.pcs|
  {
    forall acts :: Run(c, acts).Some? ==> !Run(c, acts).value.misused
  }

  /** Once all workers have been joined, only submitters outside the pool can still owe a notification. */
  lemma OnlyOutsideOwe(s: State)
    requires Reachable(s) && AllExited(s)
    ensures Pending(s) == s.outside
  {
    CountPositive(s.pcs, Owes);
  }

  /** No submitter outside the pool is between its push and its notification, and none can get there. */
  ghost predicate NobodyOutside(s: State) {
    Inv(s) && s.destroying && s.outside == 0 && !s.misused
  }

  lemma NobodyOutsideStep(s: State, a: Action)
    requires NobodyOutside(s) && Step(s, a).Some?
    ensures NobodyOutside(Step(s, a).value)
  {
    StepInv(s, a);
  }

  lemma {:induction false} NobodyOutsideRun(s: State, acts: seq<Action>)
    requires NobodyOutside(s) && Run(s, acts).Some?
    ensures !Run(s, acts).value.misused
    decreases |acts|
  {
    if acts != [] {
      NobodyOutsideStep(s, acts[0]);
      NobodyOutsideRun(Step(s, acts[0]).value, acts[1..]);
    }
  }

  /** All workers are joined and the members destroyed before the submitter comes to its notification. */
  lemma DeadMemberUsed(c: State) returns (t: State)
    requires Inv(c) && c.destroying && !c.dead && c.outside > 0
    ensures Leads(c, t) && t.misused
  {
    t := JoinAll(c);
    t := Do(c, t, DestroyMembers);
    t := Do(c, t, NotifyNobody(None));
  }

  /** When destruction begins: no schedule notifies a destroyed condition variable, if and only if no submitter
      outside the pool is between its push and its notification. */
  lemma MembersSafeIff(s: State)
    requires Reachable(s) && !s.destroying
    ensures |s.stop| == |s.pcs|
    ensures MembersSafe(s.(destroying := true)) <==> s.outside == 0
  {
    ReachableInv(s);
    var c := s.(destroying := true);
    assert Step(s, BeginDestroy) == Some(c);
    StepInv(s, BeginDestroy);
    if s.outside == 0 {
      forall acts | Run(c, acts).Some?
        ensures !Run(c, acts).value.misused
      {
        NobodyOutsideRun(c, acts);
      }
    } else {
      var t := DeadMemberUsed(c);
      var acts :| Run(c, acts) == Some(t);
      assert Run(c, acts).value.misused;
    }
  }
}
