/** The two ticket mutexes: one spins on the counter being served, the other sleeps on it with
    atomic wait and notify_all. Any number of threads interleave their atomic operations, which are
    sequentially consistent steps. The machine counts tickets without bound but compares them, as
    the fixed-width counters do, modulo `width` (2^64 for the spinning form, 2^32 for the waiting
    form); the class at the end keeps only the fixed-width values and refines the machine. */
module TicketMutex {
  import opened Common

  datatype Form = Spin | Wait

  datatype Pc =
    | Idle
    | Looking(ticket: nat)               // has a ticket, about to load the counter being served
    | Parking(ticket: nat, seen: nat)    // Wait: about to compare inside out.wait(seen)
    | Asleep(ticket: nat, seen: nat)     // Wait: blocked in out.wait(seen)
    | Critical(ticket: nat)
    | Notifying                          // Wait: between the fetch_add and notify_all of unlock
    | TryLoaded(seen: nat)               // Spin: try_lock before its compare-exchange

  function TicketOf(p: Pc): Option<nat> {
    match p
    case Looking(t) => Some(t)
    case Parking(t, _) => Some(t)
    case Asleep(t, _) => Some(t)
    case Critical(t) => Some(t)
    case _ => None
  }

  datatype State = State(
    form: Form,
    width: nat,
    threads: seq<Pc>,
    next: nat,           // tickets issued so far
    serving: nat,        // unlocks so far
    entered: seq<nat>)   // history: the tickets with which the critical section was entered

  function Init(form: Form, width: nat, n: nat): State {
    State(form, width, seq(n, i => Idle), 0, 0, [])
  }

  /** Equality of two counters as their fixed-width representations see it. */
  predicate Same(s: State, a: nat, b: nat)
    requires s.width > 0
  {
    a % s.width == b % s.width
  }

  function Awaken(threads: seq<Pc>): (r: seq<Pc>)
    ensures |r| == |threads|
  {
    seq(|threads|, i requires 0 <= i < |threads| =>
      if threads[i].Asleep? then Parking(threads[i].ticket, threads[i].seen) else threads[i])
  }

  datatype Action =
    | TakeTicket(i: nat) | Look(i: nat) | Park(i: nat) | SpuriousWake(i: nat)
    | TryLoad(i: nat) | TryCas(i: nat)
    | Unlock(i: nat) | NotifyAll(i: nat)

  function Step(s: State, a: Action): (r: Option<State>)
    requires s.width > 0
    ensures r.Some? ==> r.value.width == s.width && r.value.form == s.form && |r.value.threads| == |s.threads|
  {
    if a.i >= |s.threads| then None
    else match (a, s.threads[a.i])
      case (TakeTicket(i), Idle) =>
        Some(s.(threads := s.threads[i := Looking(s.next)], next := s.next + 1))
      case (Look(i), Looking(t)) =>
        if Same(s, s.serving, t) then
          Some(s.(threads := s.threads[i := Critical(t)], entered := s.entered + [t]))
        else if s.form.Spin? then Some(s)
        else Some(s.(threads := s.threads[i := Parking(t, s.serving)]))
      case (Park(i), Parking(t, v)) =>  // wait returns at once when the value has changed
        Some(s.(threads := s.threads[i := if Same(s, s.serving, v) then Asleep(t, v) else Looking(t)]))
      case (SpuriousWake(i), Asleep(t, v)) =>
        Some(s.(threads := s.threads[i := Parking(t, v)]))
      case (TryLoad(i), Idle) =>
        if s.form.Wait? then None else Some(s.(threads := s.threads[i := TryLoaded(s.serving)]))
      case (TryCas(i), TryLoaded(c)) =>
        if Same(s, s.next, c) then
          Some(s.(threads := s.threads[i := Critical(s.next)], next := s.next + 1, entered := s.entered + [s.next]))
        else Some(s.(threads := s.threads[i := Idle]))
      case (Unlock(i), Critical(t)) =>
        Some(s.(threads := s.threads[i := if s.form.Spin? then Idle else Notifying], serving := s.serving + 1))
      case (NotifyAll(i), Notifying) =>
        Some(s.(threads := Awaken(s.threads[i := Idle])))
      case _ => None
  }

  function Run(s: State, acts: seq<Action>): (r: Option<State>)
    requires s.width > 0
    ensures r.Some? ==> r.value.width == s.width
    decreases |acts|
  {
    if acts == [] then Some(s)
    else match Step(s, acts[0]) case None => None case Some(s') => Run(s', acts[1..])
  }

  /** A try_lock is overtaken when, at its compare-exchange, the next ticket is a whole turn of the counter or
      more past the value it loaded. The tickets between the two include those outstanding at the load. */
  predicate Overtaken(s: State, a: Action) {
    a.TryCas? && a.i < |s.threads| && s.threads[a.i].TryLoaded? && s.next - s.threads[a.i].seen >= s.width
  }

  /** No try_lock in the run is overtaken. */
  predicate PromptRun(s: State, acts: seq<Action>)
    requires s.width > 0
    decreases |acts|
  {
    acts == [] || (!Overtaken(s, acts[0]) && match Step(s, acts[0]) case None => false case Some(s') => PromptRun(s', acts[1..]))
  }

  ghost predicate Held(s: State, k: nat) {
    exists i :: 0 <= i < |s.threads| && TicketOf(s.threads[i]) == Some(k)
  }

  ghost predicate SomeCritical(s: State) {
    exists i :: 0 <= i < |s.threads| && s.threads[i].Critical?
  }

  ghost predicate SomeNotifying(s: State) {
    exists i :: 0 <= i < |s.threads| && s.threads[i].Notifying?
  }

  ghost predicate TicketsInv(s: State) {
    && s.serving <= s.next
    && (forall i :: 0 <= i < |s.threads| && TicketOf(s.threads[i]).Some? ==> s.serving <= TicketOf(s.threads[i]).value < s.next)
    && (forall i, j :: 0 <= i < j < |s.threads| && TicketOf(s.threads[i]).Some? ==> TicketOf(s.threads[i]) != TicketOf(s.threads[j]))
    && (forall k :: s.serving <= k < s.next ==> Held(s, k))
  }

  /** No two outstanding tickets below `bound` can look equal: the counter has a value for every thread, or for
      every ticket. */
  predicate Distinguishable(s: State, bound: nat) {
    |s.threads| <= s.width || bound <= s.width
  }

  ghost predicate Inv(s: State) {
    && 0 < s.width && Distinguishable(s, s.next)
    && TicketsInv(s)
    && (forall i :: 0 <= i < |s.threads| && s.threads[i].Critical? ==> s.threads[i].ticket == s.serving)
    && (forall i :: 0 <= i < |s.threads| && s.threads[i].TryLoaded? ==> s.threads[i].seen <= s.serving)
    && (forall i :: 0 <= i < |s.threads| && (s.threads[i].Parking? || s.threads[i].Asleep?) ==>
          s.threads[i].seen < s.threads[i].ticket < s.threads[i].seen + s.width && s.threads[i].seen <= s.serving)
    && (forall i :: 0 <= i < |s.threads| && s.threads[i].Asleep? ==> Same(s, s.threads[i].seen, s.serving) || SomeNotifying(s))
    && (s.form.Spin? ==> forall i :: 0 <= i < |s.threads| ==> !s.threads[i].Parking? && !s.threads[i].Asleep?)
    && |s.entered| == s.serving + (if SomeCritical(s) then 1 else 0)
    && (forall k :: 0 <= k < |s.entered| ==> s.entered[k] == k)
  }

  // ---- Tickets stay within one width of each other ----

  function HoldersBelow(s: State, m: nat): set<nat> {
    set i: nat | i < |s.threads| && TicketOf(s.threads[i]).Some? && TicketOf(s.threads[i]).value < m
  }

  lemma {:induction false} HoldersCount(s: State, m: nat)
    requires TicketsInv(s) && s.serving <= m <= s.next
    ensures |HoldersBelow(s, m)| == m - s.serving
    decreases m
  {
    if m == s.serving {
      assert HoldersBelow(s, m) == {};
    } else {
      HoldersCount(s, m - 1);
      assert Held(s, m - 1);
      var i: nat :| i < |s.threads| && TicketOf(s.threads[i]) == Some(m - 1);
      assert HoldersBelow(s, m) == HoldersBelow(s, m - 1) + {i};
    }
  }

  /** There are never more outstanding tickets than threads. */
  lemma OutstandingBounded(s: State)
    requires TicketsInv(s)
    ensures s.next - s.serving <= |s.threads|
  {
    HoldersCount(s, s.next);
    var all := Indices(|s.threads|);
    assert HoldersBelow(s, s.next) <= all;
    CardinalityMonotone(HoldersBelow(s, s.next), all);
  }

  lemma {:induction false} CardinalityMonotone(a: set<nat>, b: set<nat>)
    requires a <= b
    ensures |a| <= |b|
  {
    assert b == a + (b - a);
  }

  /** Two numbers less than `w` apart are equal if they agree modulo `w`. */
  lemma ModInjective(a: nat, b: nat, w: nat)
    requires 0 < w && a <= b < a + w && a % w == b % w
    ensures a == b
  {
    CloseQuotients(a / w, b / w, a % w, w);
  }

  lemma CloseQuotients(p: nat, q: nat, r: nat, w: nat)
    requires w * p + r <= w * q + r < w * p + r + w
    ensures p == q
  {
    if p < q {
      MulGap(w, p, q);
    } else if q < p {
      MulGap(w, q, p);
    }
  }

  /** Among outstanding tickets, only the one being served looks equal to `serving`. */
  lemma ServedTicketUnique(s: State, t: nat)
    requires 0 < s.width && Distinguishable(s, s.next) && TicketsInv(s)
    requires s.serving <= t < s.next && Same(s, s.serving, t)
    ensures t == s.serving
  {
    OutstandingBounded(s);
    ModInjective(s.serving, t, s.width);
  }

  /** An outstanding ticket that is not being served is less than a turn ahead. */
  lemma NearTicket(s: State, t: nat)
    requires 0 < s.width && Distinguishable(s, s.next) && TicketsInv(s) && s.serving <= t < s.next
    ensures t < s.serving + s.width
  {
    OutstandingBounded(s);
  }

  // ---- Preservation ----

  lemma InitInv(form: Form, width: nat, n: nat)
    requires 0 < width
    ensures Inv(Init(form, width, n))
  {
  }

  /** Nobody's ticket changed. */
  lemma TicketsKept(s: State, s': State)
    requires TicketsInv(s) && s'.next == s.next && s'.serving == s.serving && |s'.threads| == |s.threads|
    requires forall j :: 0 <= j < |s.threads| ==> TicketOf(s'.threads[j]) == TicketOf(s.threads[j])
    ensures TicketsInv(s')
  {
    forall k | s.serving <= k < s.next
      ensures Held(s', k)
    {
      assert Held(s, k);
      var j :| 0 <= j < |s.threads| && TicketOf(s.threads[j]) == Some(k);
      assert TicketOf(s'.threads[j]) == Some(k);
    }
  }

  /** Thread `i` draws the next ticket. */
  lemma TicketsIssued(s: State, s': State, i: nat)
    requires TicketsInv(s) && i < |s.threads| && s'.next == s.next + 1 && s'.serving == s.serving
    requires |s'.threads| == |s.threads|
    requires TicketOf(s.threads[i]) == None && TicketOf(s'.threads[i]) == Some(s.next)
    requires s'.threads == s.threads[i := s'.threads[i]]
    ensures TicketsInv(s')
  {
    forall k | s.serving <= k < s'.next
      ensures Held(s', k)
    {
      if k < s.next {
        assert Held(s, k);
        var j :| 0 <= j < |s.threads| && TicketOf(s.threads[j]) == Some(k);
        assert TicketOf(s'.threads[j]) == Some(k);
      }
    }
  }

  /** Thread `i`, which holds the ticket being served, gives it up. */
  lemma TicketsServed(s: State, s': State, i: nat)
    requires TicketsInv(s) && i < |s.threads| && s'.next == s.next && s'.serving == s.serving + 1
    requires |s'.threads| == |s.threads|
    requires TicketOf(s.threads[i]) == Some(s.serving) && TicketOf(s'.threads[i]) == None
    requires s'.threads == s.threads[i := s'.threads[i]]
    ensures TicketsInv(s')
  {
    forall k | s'.serving <= k < s.next
      ensures Held(s', k)
    {
      assert Held(s, k);
      var j :| 0 <= j < |s.threads| && TicketOf(s.threads[j]) == Some(k);
      assert TicketOf(s'.threads[j]) == Some(k);
    }
  }

  /** Moves of thread `i` that neither start nor end in the critical section or in `Notifying`. */
  predicate Quiet(s: State, s': State, i: nat) {
    && i < |s.threads| == |s'.threads| && s' == s.(threads := s.threads[i := s'.threads[i]], next := s'.next)
    && !s.threads[i].Critical? && !s'.threads[i].Critical?
    && !s.threads[i].Notifying? && !s'.threads[i].Notifying?
  }

  lemma QuietKeeps(s: State, s': State, i: nat)
    requires Quiet(s, s', i)
    ensures SomeCritical(s') <==> SomeCritical(s)
    ensures SomeNotifying(s') <==> SomeNotifying(s)
  {
    assert forall j :: 0 <= j < |s.threads| && j != i ==> s'.threads[j] == s.threads[j];
  }

  /** A quiet move keeps the invariant if it keeps the tickets and thread `i` ends where the invariant allows. */
  lemma QuietKeepsInv(s: State, s': State, i: nat)
    requires Inv(s) && Quiet(s, s', i) && TicketsInv(s') && Distinguishable(s, s'.next)
    requires var p := s'.threads[i];
      && (p.TryLoaded? ==> p.seen <= s.serving)
      && (p.Parking? || p.Asleep? ==> s.form.Wait? && p.seen < p.ticket < p.seen + s.width && p.seen <= s.serving)
      && (p.Asleep? ==> Same(s, p.seen, s.serving))
    ensures Inv(s')
  {
    QuietKeeps(s, s', i);
  }

  lemma QuietInv(s: State, a: Action, s': State)
    requires Inv(s) && Step(s, a) == Some(s') && Quiet(s, s', a.i) && Distinguishable(s, s'.next)
    ensures Inv(s')
  {
    if a.TakeTicket? {
      TicketsIssued(s, s', a.i);
    } else {
      TicketsKept(s, s');
    }
    if a.Look? {
      NearTicket(s, s.threads[a.i].ticket);
    }
    QuietKeepsInv(s, s', a.i);
  }

  /** Thread `i` enters with the ticket being served; nobody was inside. */
  lemma EnterInv(s: State, s': State, i: nat)
    requires Inv(s) && i < |s.threads| && !s.threads[i].Notifying? && TicketsInv(s') && !SomeCritical(s)
    requires Distinguishable(s, s'.next)
    requires s' == s.(threads := s.threads[i := Critical(s.serving)], entered := s.entered + [s.serving], next := s'.next)
    ensures Inv(s')
  {
    assert s'.threads[i].Critical?;
    if j :| 0 <= j < |s.threads| && s.threads[j].Notifying? {
      assert s'.threads[j].Notifying?;
    }
  }

  lemma NobodyInside(s: State, i: nat)
    requires Inv(s) && i < |s.threads| && TicketOf(s.threads[i]) == Some(s.serving) && !s.threads[i].Critical?
    ensures !SomeCritical(s)
  {
    if j :| 0 <= j < |s.threads| && s.threads[j].Critical? {
      assert TicketOf(s.threads[j]) == TicketOf(s.threads[i]);
    }
  }

  lemma LookInv(s: State, i: nat, s': State)
    requires Inv(s) && Step(s, Look(i)) == Some(s')
    ensures Inv(s')
  {
    var t := s.threads[i].ticket;
    assert TicketOf(s.threads[i]) == Some(t);
    if Same(s, s.serving, t) {
      ServedTicketUnique(s, t);
      TicketsKept(s, s');
      NobodyInside(s, i);
      EnterInv(s, s', i);
    } else if s.form.Wait? {
      QuietInv(s, Look(i), s');
    }
  }

  /** A compare-exchange that is not overtaken and succeeds finds the mutex free. */
  lemma PromptSuccess(s: State, i: nat)
    requires Inv(s) && i < |s.threads| && s.threads[i].TryLoaded? && s.next - s.threads[i].seen < s.width
    ensures Same(s, s.next, s.threads[i].seen) <==> s.threads[i].seen == s.next
    ensures s.threads[i].seen == s.next ==> s.serving == s.next
  {
    if Same(s, s.next, s.threads[i].seen) {
      ModInjective(s.threads[i].seen, s.next, s.width);
    }
  }

  lemma TryCasInv(s: State, i: nat, s': State)
    requires Inv(s) && Step(s, TryCas(i)) == Some(s') && !Overtaken(s, TryCas(i)) && Distinguishable(s, s'.next)
    ensures Inv(s')
  {
    PromptSuccess(s, i);
    if Same(s, s.next, s.threads[i].seen) {
      TicketsIssued(s, s', i);
      EnterInv(s, s', i);
    } else {
      QuietInv(s, TryCas(i), s');
    }
  }

  lemma UnlockInv(s: State, i: nat, s': State)
    requires Inv(s) && Step(s, Unlock(i)) == Some(s')
    ensures Inv(s')
  {
    assert s.threads[i].Critical?;
    TicketsServed(s, s', i);
    forall j | 0 <= j < |s'.threads|
      ensures !s'.threads[j].Critical?
    {
      if j != i {
        assert TicketOf(s.threads[j]) != TicketOf(s.threads[i]);
      }
    }
    if s.form.Wait? {
      assert s'.threads[i].Notifying?;
    }
  }

  lemma NotifyAllInv(s: State, i: nat, s': State)
    requires Inv(s) && Step(s, NotifyAll(i)) == Some(s')
    ensures Inv(s')
  {
    TicketsKept(s, s');
    assert forall j :: 0 <= j < |s.threads| ==> s'.threads[j].Critical? == s.threads[j].Critical?;
  }

  lemma StepInv(s: State, a: Action)
    requires Inv(s) && Step(s, a).Some? && !Overtaken(s, a) && Distinguishable(s, Step(s, a).value.next)
    ensures Inv(Step(s, a).value)
  {
    var s' := Step(s, a).value;
    match a
    case Look(i) => LookInv(s, i, s');
    case TryCas(i) => TryCasInv(s, i, s');
    case Unlock(i) => UnlockInv(s, i, s');
    case NotifyAll(i) => NotifyAllInv(s, i, s');
    case _ => QuietInv(s, a, s');
  }

  lemma {:induction false} RunInv(s: State, acts: seq<Action>)
    requires Inv(s) && PromptRun(s, acts) && |s.threads| <= s.width
    ensures Run(s, acts).Some? && Inv(Run(s, acts).value)
    decreases |acts|
  {
    if acts != [] {
      StepInv(s, acts[0]);
      RunInv(Step(s, acts[0]).value, acts[1..]);
    }
  }

  /** Runs that issue no more tickets than the counter has values have no overtaken try_lock that succeeds; nor
      has any run of the waiting form, which keeps the invariant with no more threads than that as well. */
  lemma {:induction false} ShortRunInv(s: State, acts: seq<Action>)
    requires Inv(s) && Run(s, acts).Some?
    requires s.form.Wait? ==> forall i :: 0 <= i < |s.threads| ==> !s.threads[i].TryLoaded?
    requires if s.form.Wait? then Distinguishable(s, Run(s, acts).value.next) else Run(s, acts).value.next <= s.width
    ensures Inv(Run(s, acts).value)
    decreases |acts|
  {
    if acts != [] {
      var s1 := Step(s, acts[0]).value;
      NextGrows(s1, acts[1..]);
      if Overtaken(s, acts[0]) {
        FullTurn(s, acts[0].i);
      } else {
        StepInv(s, acts[0]);
      }
      ShortRunInv(s1, acts[1..]);
    }
  }

  /** With at most `width` tickets issued, a try_lock is overtaken by exactly `width` of them, starting from the
      first; then it would succeed, and issue one more. */
  lemma FullTurn(s: State, i: nat)
    requires Inv(s) && s.form.Spin? && Overtaken(s, TryCas(i))
    ensures Step(s, TryCas(i)).value.next > s.width
  {
    if s.next <= s.width {
      assert s.next == s.width && s.threads[i].seen == 0;
      RemainderUnique(s.width, s.width, 1, 0);
      RemainderUnique(0, s.width, 0, 0);
    }
  }

  lemma {:induction false} NextGrows(s: State, acts: seq<Action>)
    requires 0 < s.width && Run(s, acts).Some?
    ensures s.next <= Run(s, acts).value.next
    decreases |acts|
  {
    if acts != [] {
      NextGrows(Step(s, acts[0]).value, acts[1..]);
    }
  }

  /** Reached from the initial state by a run that issues no more tickets than the counter has values, or, with
      no more threads than that, by any run of the waiting form, or by one in which no try_lock is overtaken. */
  ghost predicate Reachable(s: State) {
    0 < s.width && exists n: nat, acts :: InRange(s, n, acts)
  }

  predicate InRange(s: State, n: nat, acts: seq<Action>)
    requires 0 < s.width
  {
    && Run(Init(s.form, s.width, n), acts) == Some(s)
    && (s.next <= s.width || (n <= s.width && (s.form.Wait? || PromptRun(Init(s.form, s.width, n), acts))))
  }

  lemma ReachableInv(s: State)
    requires Reachable(s)
    ensures Inv(s)
  {
    var n: nat, acts :| InRange(s, n, acts);
    InitInv(s.form, s.width, n);
    if s.form.Wait? || s.next <= s.width {
      ShortRunInv(Init(s.form, s.width, n), acts);
    } else {
      RunInv(Init(s.form, s.width, n), acts);
    }
  }

  // ---- What every run keeps ----

  lemma MutualExclusion(s: State, i: nat, j: nat)
    requires Reachable(s) && i < |s.threads| && j < |s.threads|
    requires s.threads[i].Critical? && s.threads[j].Critical?
    ensures i == j
  {
    ReachableInv(s);
    assert TicketOf(s.threads[i]) == TicketOf(s.threads[j]);
  }

  /** The outstanding tickets are exactly the integers from `serving` up to `next`, each held by
      exactly one thread, and the thread inside holds the lowest. */
  lemma OutstandingTickets(s: State)
    requires Reachable(s)
    ensures forall k: nat :: Held(s, k) <==> s.serving <= k < s.next
    ensures forall i, j :: 0 <= i < j < |s.threads| && TicketOf(s.threads[i]).Some? ==> TicketOf(s.threads[i]) != TicketOf(s.threads[j])
    ensures forall i :: 0 <= i < |s.threads| && s.threads[i].Critical? ==> s.threads[i].ticket == s.serving
  {
    ReachableInv(s);
  }

  /** The critical section is entered in ticket order: the k-th entry is with ticket k. */
  lemma FifoService(s: State)
    requires Reachable(s)
    ensures forall k :: 0 <= k < |s.entered| ==> s.entered[k] == k
    ensures s.serving <= |s.entered| <= s.serving + 1
  {
    ReachableInv(s);
  }

  /** While fewer than a whole turn of tickets separate the next one from the value it loaded, a try_lock succeeds
      exactly if the next ticket still equals that value; then the mutex is free, the counter being served has not
      moved since the load, and the thread is inside with the next ticket. Otherwise it returns empty-handed. */
  lemma TryLockSuccess(s: State, i: nat)
    requires Reachable(s) && i < |s.threads| && s.threads[i].TryLoaded? && s.next - s.threads[i].seen < s.width
    ensures Step(s, TryCas(i)).Some?
    ensures Step(s, TryCas(i)).value.threads == s.threads[i := if s.threads[i].seen == s.next then Critical(s.next) else Idle]
    ensures s.threads[i].seen == s.next ==> s.serving == s.next && forall k: nat :: !Held(s, k)
  {
    ReachableInv(s);
    PromptSuccess(s, i);
  }

  predicate BothInside(s: State, i: nat, j: nat) {
    i < j < |s.threads| && s.threads[i].Critical? && s.threads[j].Critical?
  }

  /** What the mutex is for: at most one thread is inside, and threads enter in ticket order. */
  ghost predicate Fair(s: State) {
    && (forall i: nat, j: nat :: !BothInside(s, i, j))
    && (forall k :: 0 <= k < |s.entered| ==> s.entered[k] == k)
  }

  lemma InvIsFair(s: State)
    requires Inv(s)
    ensures Fair(s)
  {
    forall i: nat, j: nat | i < j < |s.threads|
      ensures !BothInside(s, i, j)
    {
      assert TicketOf(s.threads[i]).Some? ==> TicketOf(s.threads[i]) != TicketOf(s.threads[j]);
    }
  }

  /** One that fails met either an outstanding ticket or a later state of the mutex, and changes nothing. */
  lemma TryLockFailure(s: State, i: nat)
    requires Reachable(s) && i < |s.threads| && s.threads[i].TryLoaded?
    requires !Step(s, TryCas(i)).value.threads[i].Critical?
    ensures s.serving < s.next || s.threads[i].seen < s.serving
    ensures Step(s, TryCas(i)).value == s.(threads := s.threads[i := Idle])
  {
    ReachableInv(s);
  }

  /** The value a waiting thread has loaded is less than a turn old, so the fixed-width comparison is exact. */
  lemma SeenIsExact(s: State, i: nat)
    requires Inv(s) && i < |s.threads| && (s.threads[i].Parking? || s.threads[i].Asleep?)
    ensures Same(s, s.serving, s.threads[i].seen) <==> s.threads[i].seen == s.serving
  {
    assert TicketOf(s.threads[i]) == Some(s.threads[i].ticket);
    if Same(s, s.serving, s.threads[i].seen) {
      ModInjective(s.threads[i].seen, s.serving, s.width);
    }
  }

  /** The waiting form loses no wake-up: a thread that sleeps does so on the value still being served, which is
      not its ticket, or some unlocker has yet to notify. So the thread being served never sleeps without a
      notification on its way. */
  lemma NoLostWakeUp(s: State, i: nat)
    requires Reachable(s) && i < |s.threads| && s.threads[i].Asleep?
    ensures s.threads[i].seen == s.serving || SomeNotifying(s)
    ensures s.threads[i].ticket == s.serving ==> SomeNotifying(s)
  {
    ReachableInv(s);
    SeenIsExact(s, i);
  }

  lemma ServedStep(s: State, i: nat)
    requires s.width > 0 && i < |s.threads| && TicketOf(s.threads[i]).Some? && !s.threads[i].Asleep?
    ensures Step(s, Unlock(i)).Some? || Step(s, Look(i)).Some? || Step(s, Park(i)).Some?
  {
  }

  /** While tickets are outstanding the thread being served exists, and it is inside, or can take its
      next step, or is about to be notified. */
  lemma ServedThreadProceeds(s: State)
    requires Reachable(s) && s.serving < s.next
    ensures exists i: nat :: i < |s.threads| && TicketOf(s.threads[i]) == Some(s.serving)
              && (Step(s, Unlock(i)).Some? || Step(s, Look(i)).Some? || Step(s, Park(i)).Some? || SomeNotifying(s))
    ensures SomeNotifying(s) ==> exists j: nat :: Step(s, NotifyAll(j)).Some?
  {
    ReachableInv(s);
    assert Held(s, s.serving);
    var i: nat :| i < |s.threads| && TicketOf(s.threads[i]) == Some(s.serving);
    if s.threads[i].Asleep? {
      NoLostWakeUp(s, i);
    }
    if !s.threads[i].Asleep? {
      ServedStep(s, i);
    }
    if j: nat :| j < |s.threads| && s.threads[j].Notifying? {
      assert Step(s, NotifyAll(j)).Some?;
    }
  }

  /** The served thread, when it looks, enters; nobody else does: in the spinning form it looks again, in the waiting
      form it goes to wait for the value it has just loaded to change. */
  lemma LookEntersIffServed(s: State, i: nat)
    requires Reachable(s) && i < |s.threads| && s.threads[i].Looking?
    ensures var t := s.threads[i].ticket;
      Step(s, Look(i)).Some? && Step(s, Look(i)).value.threads
        == s.threads[i := if t == s.serving then Critical(t) else if s.form.Spin? then Looking(t) else Parking(t, s.serving)]
  {
    ReachableInv(s);
    var t := s.threads[i].ticket;
    assert TicketOf(s.threads[i]) == Some(t);
    assert s.threads[i := s.threads[i]] == s.threads;
    if Same(s, s.serving, t) {
      ServedTicketUnique(s, t);
    }
  }

  /** The wait blocks exactly while the value it was called with is still being served, and otherwise lets the thread
      look again. */
  lemma WaitBlocksIffUnchanged(s: State, i: nat)
    requires Reachable(s) && i < |s.threads| && s.threads[i].Parking?
    ensures var t, v := s.threads[i].ticket, s.threads[i].seen;
      Step(s, Park(i)).Some? && Step(s, Park(i)).value.threads
        == s.threads[i := if v == s.serving then Asleep(t, v) else Looking(t)]
  {
    ReachableInv(s);
    SeenIsExact(s, i);
  }

  /** Whoever is woken, by notify_all or spuriously, compares again with the value it was waiting on. */
  lemma WokenCompareAgain(s: State, a: Action)
    requires s.width > 0 && Step(s, a).Some? && (a.NotifyAll? || a.SpuriousWake?)
    ensures var s' := Step(s, a).value;
      forall j :: 0 <= j < |s.threads| && s.threads[j].Asleep? && (a.NotifyAll? || j == a.i) ==>
        s'.threads[j] == Parking(s.threads[j].ticket, s.threads[j].seen)
    ensures var s' := Step(s, a).value;
      forall j :: 0 <= j < |s.threads| && !s.threads[j].Asleep? ==>
        s'.threads[j] == if j == a.i then Idle else s.threads[j]
  {
  }

  // ---- Exactly how many tickets are safe ----

  /** A thread alone finds what it loaded. */
  ghost predicate Alone(s: State) {
    && Inv(s) && |s.threads| <= 1
    && (forall i :: 0 <= i < |s.threads| && s.threads[i].TryLoaded? ==> s.threads[i].seen == s.serving == s.next)
  }

  lemma AloneStep(s: State, a: Action)
    requires Alone(s) && Step(s, a).Some?
    ensures Alone(Step(s, a).value)
  {
    StepInv(s, a);
    assert s.serving < s.next ==> Held(s, s.serving);
  }

  lemma {:induction false} AloneRun(s: State, acts: seq<Action>)
    requires Alone(s) && Run(s, acts).Some?
    ensures Alone(Run(s, acts).value)
    decreases |acts|
  {
    if acts != [] {
      AloneStep(s, acts[0]);
      AloneRun(Step(s, acts[0]).value, acts[1..]);
    }
  }

  /** Every run of `n` threads that issues at most `limit` tickets is fair. */
  ghost predicate FairUpTo(form: Form, width: nat, n: nat, limit: nat)
    requires width > 0
  {
    forall acts :: Run(Init(form, width, n), acts).Some? && Run(Init(form, width, n), acts).value.next <= limit
      ==> Fair(Run(Init(form, width, n), acts).value)
  }

  /** Any number of threads may take as many tickets as the counter has values. Beyond that the waiting form
      is fair for exactly as many threads as the counter has values, and the spinning form, where try_lock mixes
      with lock, for one thread. */
  lemma FairUpToIff(form: Form, width: nat, n: nat, limit: nat)
    requires 0 < width
    ensures FairUpTo(form, width, n, limit) <==> limit <= width || n <= (if form.Spin? then 1 else width)
  {
    if limit <= width || n <= (if form.Spin? then 1 else width) {
      forall acts | Run(Init(form, width, n), acts).Some? && Run(Init(form, width, n), acts).value.next <= limit
        ensures Fair(Run(Init(form, width, n), acts).value)
      {
        InitInv(form, width, n);
        if n <= 1 {
          AloneRun(Init(form, width, n), acts);
        } else {
          ShortRunInv(Init(form, width, n), acts);
        }
        InvIsFair(Run(Init(form, width, n), acts).value);
      }
    } else if form.Spin? {
      OvertakenTryLockBreaksExclusion(width, n);
      var acts, s :| Run(Init(Spin, width, n), acts) == Some(s) && s.threads == Two(Critical(width), Critical(width - 1), n) && s.next == width + 1;
      assert BothInside(s, 0, 1);
      assert !Fair(s);
    } else {
      CrowdBreaksExclusion(form, width, n);
      var acts, s :| Run(Init(form, width, n), acts) == Some(s) && BothInside(s, 0, width) && s.next == width + 1;
      assert !Fair(s);
    }
  }

  /** The first `k` threads hold the first `k` tickets. */
  function Queued(form: Form, width: nat, n: nat, k: nat): State {
    State(form, width, seq(n, (i: nat) => if i < k then Looking(i) else Idle), k, 0, [])
  }

  function Draws(k: nat): seq<Action> {
    if k == 0 then [] else Draws(k - 1) + [TakeTicket(k - 1)]
  }

  lemma {:induction false} DrawsRun(form: Form, width: nat, n: nat, k: nat)
    requires 0 < width && k <= n
    ensures Run(Init(form, width, n), Draws(k)) == Some(Queued(form, width, n, k))
  {
    if k == 0 {
      assert Init(form, width, n).threads == Queued(form, width, n, 0).threads;
    } else {
      DrawsRun(form, width, n, k - 1);
      RunConcat(Init(form, width, n), Draws(k - 1), [TakeTicket(k - 1)]);
      var s, s' := Queued(form, width, n, k - 1), Queued(form, width, n, k);
      assert s.threads[k - 1 := Looking(k - 1)] == s'.threads;
      assert Step(s, TakeTicket(k - 1)) == Some(s') && Run(s', []) == Some(s');
    }
  }

  /** One thread more than the counter has values: the first and the last ticket look equal, and both are let in. */
  lemma CrowdBreaksExclusion(form: Form, width: nat, n: nat)
    requires 0 < width < n
    ensures exists acts, s :: Run(Init(form, width, n), acts) == Some(s) && BothInside(s, 0, width) && s.next == width + 1
  {
    var s0, s1 := Init(form, width, n), Queued(form, width, n, width + 1);
    DrawsRun(form, width, n, width + 1);
    RunConcat(s0, Draws(width + 1), [Look(0), Look(width)]);
    RemainderUnique(width, width, 1, 0);
    RemainderUnique(0, width, 0, 0);
    var s2 := Step(s1, Look(0)).value;
    var s3 := Step(s2, Look(width)).value;
    assert Run(s3, []) == Some(s3);
    assert [Look(0), Look(width)][1..] == [Look(width)];
    assert Run(s2, [Look(width)]) == Some(s3);
    assert BothInside(s3, 0, width);
    assert Run(s0, Draws(width + 1) + [Look(0), Look(width)]) == Some(s3);
  }

  /** The state of two busy threads among `n`. */
  function Two(a: Pc, b: Pc, n: nat): (r: seq<Pc>)
    requires n >= 2
    ensures |r| == n && r[0] == a && r[1] == b && forall k :: 2 <= k < n ==> r[k] == Idle
  {
    [a, b] + seq(n - 2, k => Idle)
  }

  /** `cycles` times lock and unlock by thread 1. */
  function Cycles(cycles: nat): seq<Action> {
    if cycles == 0 then [] else Cycles(cycles - 1) + [TakeTicket(1), Look(1), Unlock(1)]
  }

  function Loaded(width: nat, n: nat, count: nat, owner: Pc): State
    requires n >= 2
  {
    State(Spin, width, Two(TryLoaded(0), owner, n), count, count, seq(count, k => k))
  }

  lemma {:induction false} CyclesRun(width: nat, n: nat, cycles: nat)
    requires 0 < width && n >= 2
    ensures Run(Loaded(width, n, 0, Idle), Cycles(cycles)) == Some(Loaded(width, n, cycles, Idle))
  {
    var s0 := Loaded(width, n, 0, Idle);
    if cycles > 0 {
      var s := Loaded(width, n, cycles - 1, Idle);
      CyclesRun(width, n, cycles - 1);
      RunConcat(s0, Cycles(cycles - 1), [TakeTicket(1), Look(1), Unlock(1)]);
      OneCycle(s, width, n, cycles - 1);
    }
  }

  lemma OneLock(s: State, width: nat, n: nat, count: nat)
    requires 0 < width && n >= 2 && s == Loaded(width, n, count, Idle)
    ensures Run(s, [TakeTicket(1), Look(1)]) == Some(Loaded(width, n, count, Critical(count)).(next := count + 1, entered := seq(count + 1, k => k)))
  {
    var s1 := Step(s, TakeTicket(1)).value;
    var s2 := Step(s1, Look(1)).value;
    assert s2.threads == Two(TryLoaded(0), Critical(count), n) && s2.entered == seq(count + 1, k => k);
    assert Run(s2, []) == Some(s2);
    assert Run(s1, [Look(1)]) == Some(s2);
    assert [TakeTicket(1), Look(1)][1..] == [Look(1)];
  }

  lemma OneCycle(s: State, width: nat, n: nat, count: nat)
    requires 0 < width && n >= 2 && s == Loaded(width, n, count, Idle)
    ensures Run(s, [TakeTicket(1), Look(1), Unlock(1)]) == Some(Loaded(width, n, count + 1, Idle))
  {
    OneLock(s, width, n, count);
    RunConcat(s, [TakeTicket(1), Look(1)], [Unlock(1)]);
    var s2 := Run(s, [TakeTicket(1), Look(1)]).value;
    var s3 := Step(s2, Unlock(1)).value;
    assert s3.threads == Two(TryLoaded(0), Idle, n);
    assert Run(s2, [Unlock(1)]) == Some(s3);
    assert [TakeTicket(1), Look(1)] + [Unlock(1)] == [TakeTicket(1), Look(1), Unlock(1)];
  }

  lemma {:induction false} RunConcat(s: State, xs: seq<Action>, ys: seq<Action>)
    requires 0 < s.width && Run(s, xs).Some?
    ensures Run(s, xs + ys) == Run(Run(s, xs).value, ys)
    decreases |xs|
  {
    if xs == [] {
      assert xs + ys == ys;
    } else {
      assert (xs + ys)[1..] == xs[1..] + ys;
      RunConcat(Step(s, xs[0]).value, xs[1..], ys);
    }
  }

  /** For every width and any two or more threads, a try_lock overtaken by exactly `width` tickets breaks mutual
      exclusion: thread 0 loads 0, thread 1 locks and unlocks width-1 times and locks once more, and the
      compare-exchange of thread 0, which sees the counter back at 0, lets it in as well. */
  lemma OvertakenTryLockBreaksExclusion(width: nat, n: nat)
    requires 0 < width && n >= 2
    ensures exists acts, s :: Run(Init(Spin, width, n), acts) == Some(s)
              && s.threads == Two(Critical(width), Critical(width - 1), n) && s.next == width + 1
  {
    var s0, rest := Init(Spin, width, n), Cycles(width - 1) + ([TakeTicket(1), Look(1)] + [TryCas(0)]);
    FirstLoad(width, n);
    AfterLoad(width, n);
    var acts := [TryLoad(0)] + rest;
    assert acts[1..] == rest;
    assert Run(s0, acts) == Run(Loaded(width, n, 0, Idle), rest);
  }

  lemma AfterLoad(width: nat, n: nat)
    requires 0 < width && n >= 2
    ensures var r := Run(Loaded(width, n, 0, Idle), Cycles(width - 1) + ([TakeTicket(1), Look(1)] + [TryCas(0)]));
      r.Some? && r.value.threads == Two(Critical(width), Critical(width - 1), n) && r.value.next == width + 1
  {
    CyclesRun(width, n, width - 1);
    RunConcat(Loaded(width, n, 0, Idle), Cycles(width - 1), [TakeTicket(1), Look(1)] + [TryCas(0)]);
    LateSuccess(width, n, Loaded(width, n, width - 1, Idle));
  }

  lemma FirstLoad(width: nat, n: nat)
    requires 0 < width && n >= 2
    ensures Step(Init(Spin, width, n), TryLoad(0)) == Some(Loaded(width, n, 0, Idle))
  {
    var s0, s1 := Init(Spin, width, n), Loaded(width, n, 0, Idle);
    assert s1.entered == [];
    assert s0.threads[0 := TryLoaded(0)] == Two(TryLoaded(0), Idle, n);
  }

  /** The counter is back at the value that was loaded, so the compare-exchange succeeds. */
  lemma LateSuccess(width: nat, n: nat, s2: State)
    requires 0 < width && n >= 2 && s2 == Loaded(width, n, width - 1, Idle)
    ensures var r := Run(s2, [TakeTicket(1), Look(1)] + [TryCas(0)]);
      r.Some? && r.value.threads == Two(Critical(width), Critical(width - 1), n) && r.value.next == width + 1
  {
    OneLock(s2, width, n, width - 1);
    RunConcat(s2, [TakeTicket(1), Look(1)], [TryCas(0)]);
    var s3 := Run(s2, [TakeTicket(1), Look(1)]).value;
    RemainderUnique(width, width, 1, 0);
    RemainderUnique(0, width, 0, 0);
    var s4 := Step(s3, TryCas(0)).value;
    assert Run(s3, [TryCas(0)]) == Some(s4);
    assert s4.threads == Two(Critical(width), Critical(width - 1), n);
  }

  // ---- The mutex object, with counters and registers of fixed width ----

  function Truncate(p: Pc, w: nat): Pc
    requires 0 < w
  {
    match p
    case Looking(t) => Looking(t % w)
    case Parking(t, v) => Parking(t % w, v % w)
    case Asleep(t, v) => Asleep(t % w, v % w)
    case Critical(t) => Critical(t % w)
    case TryLoaded(v) => TryLoaded(v % w)
    case Idle => Idle
    case Notifying => Notifying
  }

  /** A counter of width `w` follows the unbounded one. */
  lemma IncrementWraps(a: nat, w: nat)
    requires 0 < w
    ensures (a + 1) % w == (a % w + 1) % w
  {
    var q, r := a / w, a % w;
    assert a == w * q + r;
    IncrementFrom(a, w, q, r);
  }

  lemma IncrementFrom(a: nat, w: nat, q: nat, r: nat)
    requires r < w && a == w * q + r
    ensures (a + 1) % w == (r + 1) % w
  {
    if r + 1 < w {
      RemainderUnique(a + 1, w, q, r + 1);
      RemainderUnique(r + 1, w, 0, r + 1);
    } else {
      NextMultiple(w, q);
      RemainderUnique(a + 1, w, q + 1, 0);
      RemainderUnique(w, w, 1, 0);
    }
  }

  lemma NextMultiple(w: nat, q: nat)
    ensures w * (q + 1) == w * q + w
  {
  }

  class Mutex {
    const form: Form
    const width: nat
    var nextTicket: nat    // next_ticket_, in
    var servingNow: nat    // serving_, out
    var regs: seq<Pc>      // where each thread stands, with its local copies of the counters
    ghost var model: State

    ghost predicate Valid()
      reads this
    {
      && 0 < width == model.width && form == model.form
      && nextTicket == model.next % width && servingNow == model.serving % width
      && |regs| == |model.threads| && forall i :: 0 <= i < |regs| ==> regs[i] == Truncate(model.threads[i], width)
    }

    constructor (form: Form, width: nat, threads: nat)
      requires 0 < width
      ensures Valid() && model == Init(form, width, threads)
    {
      this.form, this.width := form, width;
      nextTicket, servingNow := 0, 0;
      regs := seq(threads, i => Idle);
      model := Init(form, width, threads);
    }

    /** lock: `fetch_add` on the ticket counter. */
    method LockFetchAdd(i: nat)
      requires Valid() && i < |regs| && regs[i].Idle?
      modifies this
      ensures Valid() && Step(old(model), TakeTicket(i)) == Some(model)
    {
      IncrementWraps(model.next, width);
      model := Step(model, TakeTicket(i)).value;
      regs := regs[i := Looking(nextTicket)];
      nextTicket := (nextTicket + 1) % width;
    }

    /** lock: one test of the loop. */
    method LockTest(i: nat) returns (mine: bool)
      requires Valid() && i < |regs| && regs[i].Looking?
      modifies this
      ensures Valid() && Step(old(model), Look(i)) == Some(model)
      ensures mine <==> model.threads[i].Critical?
    {
      var now, my := servingNow, regs[i].ticket;
      mine := now == my;
      model := Step(model, Look(i)).value;
      if mine {
        regs := regs[i := Critical(my)];
      } else if form.Wait? {
        regs := regs[i := Parking(my, now)];
      }
    }

    /** lock: the comparison made by `out.wait(now)`, on entry and after each unblocking. */
    method LockWait(i: nat) returns (sleeps: bool)
      requires Valid() && i < |regs| && regs[i].Parking?
      modifies this
      ensures Valid() && Step(old(model), Park(i)) == Some(model)
      ensures sleeps <==> model.threads[i].Asleep?
    {
      var my, old_ := regs[i].ticket, regs[i].seen;
      sleeps := servingNow == old_;
      model := Step(model, Park(i)).value;
      regs := regs[i := if sleeps then Asleep(my, old_) else Looking(my)];
    }

    method TryLockLoad(i: nat)
      requires Valid() && form.Spin? && i < |regs| && regs[i].Idle?
      modifies this
      ensures Valid() && Step(old(model), TryLoad(i)) == Some(model)
    {
      model := Step(model, TryLoad(i)).value;
      regs := regs[i := TryLoaded(servingNow)];
    }

    method TryLockCompareExchange(i: nat) returns (ok: bool)
      requires Valid() && i < |regs| && regs[i].TryLoaded?
      modifies this
      ensures Valid() && Step(old(model), TryCas(i)) == Some(model)
      ensures ok <==> model.threads[i].Critical?
    {
      IncrementWraps(model.next, width);
      var expected := regs[i].seen;
      ok := nextTicket == expected;
      model := Step(model, TryCas(i)).value;
      if ok {
        nextTicket := (expected + 1) % width;
        regs := regs[i := Critical(expected)];
      } else {
        regs := regs[i := Idle];
      }
    }

    method UnlockFetchAdd(i: nat)
      requires Valid() && i < |regs| && regs[i].Critical?
      modifies this
      ensures Valid() && Step(old(model), Unlock(i)) == Some(model)
    {
      IncrementWraps(model.serving, width);
      model := Step(model, Unlock(i)).value;
      servingNow := (servingNow + 1) % width;
      regs := regs[i := if form.Spin? then Idle else Notifying];
    }

    method UnlockNotifyAll(i: nat)
      requires Valid() && i < |regs| && regs[i].Notifying?
      modifies this
      ensures Valid() && Step(old(model), NotifyAll(i)) == Some(model)
    {
      model := Step(model, NotifyAll(i)).value;
      regs := Awaken(regs[i := Idle]);
    }
  }
}
