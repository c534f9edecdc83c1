/** The single-producer single-consumer ring, in its two forms: `Folly` constructs and destroys
    records in raw slots and wraps indices by comparison, and also offers frontPtr, popFront and
    sizeGuess; `Modulo` assigns and copies records in an ordinary array and wraps by remainder.
    Every atomic load, atomic store and slot access is one sequentially consistent step; the
    writer's and the reader's steps interleave arbitrarily. */
module SpscRing {
  import opened Common

  datatype Form = Folly | Modulo

  type T = int

  /** Where the writer stands in `write`. */
  datatype WPc =
    | WIdle
    | WLoaded(cur: nat, x: T)             // has loaded writeIndex_
    | WClear(cur: nat, next: nat, x: T)   // has loaded readIndex_ and found room
    | WBuilt(next: nat, x: T)             // has stored the record, not yet the index

  /** Where the reader stands in `read`, `frontPtr` or `popFront`. */
  datatype RPc =
    | RIdle(front: Option<nat>)           // `front`: the slot a still valid frontPtr result points to
    | RLoaded(cur: nat) | RFound(cur: nat)
    | RMoved(cur: nat, v: T)              // has moved (or copied) the record out
    | RGone(cur: nat, v: T)               // has destroyed the slot, not yet stored the index
    | FLoaded(cur: nat)
    | PLoaded(cur: nat) | PFound(cur: nat)
    | PFailed                             // popFront's assertion failed

  datatype State = State(
    form: Form,
    size: nat,
    slots: seq<Option<T>>,   // None: raw memory
    r: nat,                  // readIndex_, _tail
    w: nat,                  // writeIndex_, _head
    wpc: WPc,
    rpc: RPc,
    written: seq<T>,         // history: records whose write returned true
    taken: seq<T>)           // history: records removed

  function Init(form: Form, size: nat): State {
    State(form, size, seq(size, i => if form.Folly? then None else Some(0)), 0, 0, WIdle, RIdle(None), [], [])
  }

  /** The index after `i`, as each form computes it. */
  function Next(form: Form, size: nat, i: nat): (n: nat)
    requires i < size
    ensures n == if i + 1 == size then 0 else i + 1
  {
    match form
    case Folly => if i + 1 == size then 0 else i + 1
    case Modulo => (i + 1) % size
  }

  datatype Action =
    | WBegin(x: T) | WTest | WBuild | WPublish
    | RBegin | RTest | RMove(husk: T) | RDestroy | RPublish
    | FBegin | FTest
    | PBegin | PTest | PDestroy

  predicate IsWriterAction(a: Action) { a.WBegin? || a.WTest? || a.WBuild? || a.WPublish? }

  predicate Shaped(s: State) {
    |s.slots| == s.size && s.r < s.size && s.w < s.size
  }

  function WriterStep(s: State, a: Action): Option<State>
    requires Shaped(s)
  {
    match (a, s.wpc)
    case (WBegin(x), WIdle) => Some(s.(wpc := WLoaded(s.w, x)))
    case (WTest, WLoaded(cur, x)) =>
      if cur >= s.size then None
      else var next := Next(s.form, s.size, cur);
        Some(s.(wpc := if next != s.r then WClear(cur, next, x) else WIdle))
    case (WBuild, WClear(cur, next, x)) =>
      if cur >= s.size then None else Some(s.(slots := s.slots[cur := Some(x)], wpc := WBuilt(next, x)))
    case (WPublish, WBuilt(next, x)) =>
      if next >= s.size then None else Some(s.(w := next, wpc := WIdle, written := s.written + [x]))
    case _ => None
  }

  function ReaderStep(s: State, a: Action): Option<State>
    requires Shaped(s)
  {
    match (a, s.rpc)
    case (RBegin, RIdle(_)) => Some(s.(rpc := RLoaded(s.r)))
    case (RTest, RLoaded(cur)) => Some(s.(rpc := if cur == s.w then RIdle(None) else RFound(cur)))
    case (RMove(husk), RFound(cur)) =>  // moving leaves an unspecified but live record behind
      if cur >= s.size || s.slots[cur].None? then None
      else Some(s.(rpc := RMoved(cur, s.slots[cur].value),
                   slots := if s.form.Folly? then s.slots[cur := Some(husk)] else s.slots))
    case (RDestroy, RMoved(cur, v)) =>
      if s.form.Modulo? || cur >= s.size then None
      else Some(s.(slots := s.slots[cur := None], rpc := RGone(cur, v)))
    case (RPublish, RMoved(cur, v)) => if s.form.Folly? || cur >= s.size then None else Some(Advance(s, cur, v))
    case (RPublish, RGone(cur, v)) => if cur >= s.size then None else Some(Advance(s, cur, v))
    case (FBegin, RIdle(_)) => if s.form.Modulo? then None else Some(s.(rpc := FLoaded(s.r)))
    case (FTest, FLoaded(cur)) => Some(s.(rpc := RIdle(if cur == s.w then None else Some(cur))))
    case (PBegin, RIdle(_)) => if s.form.Modulo? then None else Some(s.(rpc := PLoaded(s.r)))
    case (PTest, PLoaded(cur)) => Some(s.(rpc := if cur == s.w then PFailed else PFound(cur)))
    case (PDestroy, PFound(cur)) =>
      if cur >= s.size || s.slots[cur].None? then None
      else Some(s.(slots := s.slots[cur := None], rpc := RGone(cur, s.slots[cur].value)))
    case _ => None
  }

  /** The store that ends `read` and `popFront`. */
  function Advance(s: State, cur: nat, v: T): State
    requires cur < s.size
  {
    s.(r := Next(s.form, s.size, cur), rpc := RIdle(None), taken := s.taken + [v])
  }

  function Step(s: State, a: Action): Option<State>
    requires Shaped(s)
  {
    if IsWriterAction(a) then WriterStep(s, a) else ReaderStep(s, a)
  }

  // ---- The window between the two indices ----

  /** How far `b` is ahead of `a` around the ring. */
  function Dist(size: nat, a: nat, b: nat): (d: nat)
    requires a < size && b < size
    ensures d < size
  {
    if b >= a then b - a else b + size - a
  }

  function At(size: nat, a: nat, k: nat): (i: nat)
    requires a < size && k < size
    ensures i < size && Dist(size, a, i) == k
  {
    if a + k < size then a + k else a + k - size
  }

  function Len(s: State): nat
    requires Shaped(s)
  {
    Dist(s.size, s.r, s.w)
  }

  /** The k-th record in the window; the reader may already hold the first one. */
  function ItemAt(s: State, k: nat): Option<T>
    requires Shaped(s) && k < Len(s)
  {
    if k == 0 && (s.rpc.RMoved? || s.rpc.RGone?) then Some(s.rpc.v) else s.slots[At(s.size, s.r, k)]
  }

  /** The records in the ring, front first. */
  function Window(s: State): seq<T>
    requires Shaped(s)
    requires forall k :: 0 <= k < Len(s) ==> ItemAt(s, k).Some?
  {
    seq(Len(s), k requires 0 <= k < Len(s) => ItemAt(s, k).value)
  }

  /** A slot holds a live record exactly when it is in the window and not yet destroyed, or when the
      writer has built it and not yet published it. */
  predicate ShouldLive(s: State, i: nat)
    requires Shaped(s) && i < s.size
  {
    (Dist(s.size, s.r, i) < Len(s) && !(s.rpc.RGone? && i == s.r)) || (s.wpc.WBuilt? && i == s.w)
  }

  ghost predicate WriterInv(s: State)
    requires Shaped(s)
  {
    match s.wpc
    case WIdle => true
    case WLoaded(cur, _) => cur == s.w
    case WClear(cur, next, _) => cur == s.w && next == Next(s.form, s.size, s.w) && Len(s) < s.size - 1
    case WBuilt(next, x) => next == Next(s.form, s.size, s.w) && Len(s) < s.size - 1 && s.slots[s.w] == Some(x)
  }

  ghost predicate ReaderInv(s: State)
    requires Shaped(s)
  {
    match s.rpc
    case RIdle(front) => front.Some? ==> front.value == s.r && Len(s) > 0
    case RLoaded(cur) => cur == s.r
    case RFound(cur) => cur == s.r && Len(s) > 0
    case RMoved(cur, _) => cur == s.r && Len(s) > 0
    case RGone(cur, _) => cur == s.r && Len(s) > 0 && s.form.Folly?
    case FLoaded(cur) => cur == s.r
    case PLoaded(cur) => cur == s.r && s.form.Folly?
    case PFound(cur) => cur == s.r && Len(s) > 0 && s.form.Folly?
    case PFailed => true
  }

  ghost predicate Inv(s: State) {
    && Shaped(s)
    && WriterInv(s) && ReaderInv(s)
    && |s.written| == |s.taken| + Len(s) && s.taken == s.written[..|s.taken|]
    && (forall k :: 0 <= k < Len(s) ==> ItemAt(s, k) == Some(s.written[|s.taken| + k]))
    && (forall i :: 0 <= i < s.size ==> (s.slots[i].Some? <==> s.form.Modulo? || ShouldLive(s, i)))
  }

  lemma InitInv(form: Form, size: nat)
    requires size >= 1
    ensures Inv(Init(form, size))
  {
  }

  lemma PublishInv(s: State, s': State)
    requires Inv(s) && s.wpc.WBuilt? && WriterStep(s, WPublish) == Some(s')
    ensures Inv(s')
  {
    assert Len(s') == Len(s) + 1;
    assert s'.written[..|s.taken|] == s.taken;
    forall k | 0 <= k < Len(s')
      ensures ItemAt(s', k) == Some(s'.written[|s'.taken| + k])
    {
      if k < Len(s) {
        assert ItemAt(s, k) == Some(s.written[|s.taken| + k]);
      } else {
        assert At(s.size, s.r, k) == s.w;
      }
    }
  }

  lemma WriterStepInv(s: State, a: Action, s': State)
    requires Inv(s) && WriterStep(s, a) == Some(s')
    ensures Inv(s')
  {
    if a.WPublish? {
      PublishInv(s, s');
    } else {
      forall k | 0 <= k < Len(s')
        ensures ItemAt(s', k) == Some(s'.written[|s'.taken| + k])
      {
        assert ItemAt(s, k) == Some(s.written[|s.taken| + k]);
        assert At(s.size, s.r, k) != s.w;
      }
    }
  }

  lemma AdvanceInv(s: State, v: T)
    requires Inv(s) && Len(s) > 0 && (s.rpc == RGone(s.r, v) || (s.form.Modulo? && s.rpc == RMoved(s.r, v)))
    ensures Inv(Advance(s, s.r, v))
  {
    var s' := Advance(s, s.r, v);
    assert Len(s') == Len(s) - 1;
    assert ItemAt(s, 0) == Some(s.written[|s.taken|]);
    assert s.written[..|s'.taken|] == s.taken + [v];
    forall k | 0 <= k < Len(s')
      ensures ItemAt(s', k) == Some(s'.written[|s'.taken| + k])
    {
      assert ItemAt(s, k + 1) == Some(s.written[|s.taken| + k + 1]);
      assert At(s.size, s.r, k + 1) == At(s.size, s'.r, k);
    }
  }

  lemma ReaderStepInv(s: State, a: Action, s': State)
    requires Inv(s) && ReaderStep(s, a) == Some(s')
    ensures Inv(s')
  {
    if a.RPublish? {
      AdvanceInv(s, s.rpc.v);
    } else if Len(s) > 0 {
      assert At(s.size, s.r, 0) == s.r;
      assert ItemAt(s, 0) == Some(s.written[|s.taken|]);
      forall k | 0 <= k < Len(s')
        ensures ItemAt(s', k) == Some(s'.written[|s'.taken| + k])
      {
        assert ItemAt(s, k) == Some(s.written[|s.taken| + k]);
      }
    }
  }

  lemma StepInv(s: State, a: Action)
    requires Inv(s) && Step(s, a).Some?
    ensures Inv(Step(s, a).value)
  {
    if IsWriterAction(a) {
      WriterStepInv(s, a, Step(s, a).value);
    } else {
      ReaderStepInv(s, a, Step(s, a).value);
    }
  }

  function Run(s: State, acts: seq<Action>): Option<State>
    requires Shaped(s)
    decreases |acts|
  {
    if acts == [] then Some(s)
    else match Step(s, acts[0]) case None => None case Some(s') => Run(s', acts[1..])
  }

  lemma {:induction false} RunInv(s: State, acts: seq<Action>)
    requires Inv(s) && Run(s, acts).Some?
    ensures Inv(Run(s, acts).value)
    decreases |acts|
  {
    if acts != [] {
      StepInv(s, acts[0]);
      RunInv(Step(s, acts[0]).value, acts[1..]);
    }
  }

  /** Reached by some interleaving from an empty ring of the size the source demands. */
  ghost predicate Reachable(s: State) {
    s.size >= (if s.form.Folly? then 2 else 1)
    && exists acts :: Run(Init(s.form, s.size), acts) == Some(s)
  }

  lemma ReachableInv(s: State)
    requires Reachable(s)
    ensures Inv(s)
  {
    var acts :| Run(Init(s.form, s.size), acts) == Some(s);
    InitInv(s.form, s.size);
    RunInv(Init(s.form, s.size), acts);
  }

  // ---- What every interleaving keeps ----

  /** The records written are the records taken followed by the window, in order; the ring never holds
      more than size - 1 of them. */
  lemma WrittenIsTakenPlusWindow(s: State)
    requires Reachable(s)
    ensures Inv(s) && s.written == s.taken + Window(s)
    ensures |Window(s)| <= s.size - 1
  {
    ReachableInv(s);
    forall k | 0 <= k < |s.written|
      ensures s.written[k] == (s.taken + Window(s))[k]
    {
      if k >= |s.taken| {
        assert ItemAt(s, k - |s.taken|) == Some(s.written[k]);
      }
    }
  }

  lemma SliceAppend(xs: seq<T>, n: nat, x: T)
    requires n <= |xs|
    ensures (xs + [x])[n..] == xs[n..] + [x]
  {
  }

  lemma SliceHead(xs: seq<T>, n: nat)
    requires n < |xs|
    ensures xs[n..] == [xs[n]] + xs[n + 1..]
  {
  }

  /** The record the reader holds is the oldest one not yet taken. */
  lemma HeldIsFront(s: State)
    requires Inv(s) && (s.rpc.RMoved? || s.rpc.RGone?)
    ensures |s.taken| < |s.written| && s.written[|s.taken|] == s.rpc.v
  {
    assert ItemAt(s, 0) == Some(s.written[|s.taken|]);
  }

  /** Only the two index stores touch the histories. */
  lemma HistoryStep(s: State, a: Action)
    requires Shaped(s) && Step(s, a).Some?
    ensures var s' := Step(s, a).value;
      if a.WPublish? then s.wpc.WBuilt? && s'.written == s.written + [s.wpc.x] && s'.taken == s.taken
      else if a.RPublish? then (s.rpc.RMoved? || s.rpc.RGone?) && s'.written == s.written && s'.taken == s.taken + [s.rpc.v]
      else s'.written == s.written && s'.taken == s.taken
  {
  }

  /** Both forms refine one bounded FIFO queue: a step either leaves the window alone, or is the
      writer's store and appends the record being written, or is the reader's store and removes the
      front record, which is the one it hands out. */
  lemma RefinesFifo(s: State, a: Action)
    requires Reachable(s) && Shaped(s) && Step(s, a).Some?
    ensures var s' := Step(s, a).value;
      Inv(s) && Inv(s') &&
      if a.WPublish? then s'.written == s.written + [s.wpc.x] && s'.taken == s.taken && Window(s') == Window(s) + [s.wpc.x]
      else if a.RPublish? then s'.written == s.written && s'.taken == s.taken + [s.rpc.v] && Window(s) == [s.rpc.v] + Window(s')
      else s'.written == s.written && s'.taken == s.taken && Window(s') == Window(s)
  {
    var s' := Step(s, a).value;
    ReachableInv(s);
    StepInv(s, a);
    HistoryStep(s, a);
    WindowOf(s);
    WindowOf(s');
    if a.RPublish? {
      HeldIsFront(s);
      SliceHead(s.written, |s.taken|);
    } else if a.WPublish? {
      SliceAppend(s.written, |s.taken|, s.wpc.x);
    }
  }

  lemma WindowOf(s: State)
    requires Inv(s)
    ensures Window(s) == s.written[|s.taken|..]
  {
    forall k | 0 <= k < Len(s)
      ensures Window(s)[k] == s.written[|s.taken|..][k]
    {
      assert ItemAt(s, k) == Some(s.written[|s.taken| + k]);
    }
  }

  /** `write` gives up exactly when the ring held size - 1 records at its load of the read index. */
  lemma WriteFailsIffFull(s: State)
    requires Reachable(s) && Shaped(s) && s.wpc.WLoaded?
    ensures Step(s, WTest).Some?
    ensures Step(s, WTest).value.wpc.WIdle? <==> Len(s) == s.size - 1
  {
    ReachableInv(s);
  }

  /** `read` gives up exactly when the ring was empty at its load of the write index. */
  lemma ReadFailsIffEmpty(s: State)
    requires Reachable(s) && Shaped(s) && s.rpc.RLoaded?
    ensures Step(s, RTest).Some?
    ensures Step(s, RTest).value.rpc.RIdle? <==> Len(s) == 0
  {
    ReachableInv(s);
  }

  /** frontPtr answers with the slot of the oldest record not yet taken, which is live, or with nullptr exactly if
      the window is empty at its load. */
  lemma FrontFindsIffNonEmpty(s: State)
    requires Reachable(s) && Shaped(s) && s.rpc.FLoaded?
    ensures Step(s, FTest).Some? && Step(s, FTest).value.rpc.RIdle?
    ensures var front := Step(s, FTest).value.rpc.front;
      && (front.Some? <==> Len(s) > 0)
      && (front.Some? ==> front.value == s.r && |s.taken| < |s.written| && s.slots[s.r] == Some(s.written[|s.taken|]))
  {
    ReachableInv(s);
    FrontFinds(s);
  }

  lemma FrontFinds(s: State)
    requires Inv(s) && s.rpc.FLoaded?
    ensures Step(s, FTest) == Some(s.(rpc := RIdle(if Len(s) > 0 then Some(s.r) else None)))
    ensures Len(s) > 0 ==> |s.taken| < |s.written| && s.slots[s.r] == Some(s.written[|s.taken|])
  {
    if Len(s) > 0 {
      assert ItemAt(s, 0) == Some(s.written[|s.taken|]);
      assert At(s.size, s.r, 0) == s.r;
    }
  }

  /** popFront's assertion fails exactly if the window is empty at its load; otherwise it destroys the oldest record
      not yet taken. */
  lemma PopFrontFailsIffEmpty(s: State)
    requires Reachable(s) && Shaped(s) && s.rpc.PLoaded?
    ensures Step(s, PTest).Some?
    ensures Step(s, PTest).value.rpc == if Len(s) == 0 then PFailed else PFound(s.r)
    ensures Len(s) > 0 ==> |s.taken| < |s.written| && s.slots[s.r] == Some(s.written[|s.taken|])
  {
    ReachableInv(s);
    PopFinds(s);
  }

  lemma PopFinds(s: State)
    requires Inv(s) && s.rpc.PLoaded?
    ensures Step(s, PTest) == Some(s.(rpc := if Len(s) == 0 then PFailed else PFound(s.r)))
    ensures Len(s) > 0 ==> |s.taken| < |s.written| && s.slots[s.r] == Some(s.written[|s.taken|])
  {
    if Len(s) > 0 {
      assert ItemAt(s, 0) == Some(s.written[|s.taken|]);
      assert At(s.size, s.r, 0) == s.r;
    }
  }

  /** Once past its test, a call always runs to the end: no later step of the other thread can
      disable the remaining steps. */
  lemma WaitFree(s: State)
    requires Reachable(s) && Shaped(s)
    ensures s.wpc.WClear? ==> Step(s, WBuild).Some?
    ensures s.wpc.WBuilt? ==> Step(s, WPublish).Some?
    ensures s.rpc.RFound? ==> forall husk :: Step(s, RMove(husk)).Some?
    ensures s.rpc.RMoved? && s.form.Folly? ==> Step(s, RDestroy).Some?
    ensures s.rpc.RGone? || (s.rpc.RMoved? && s.form.Modulo?) ==> Step(s, RPublish).Some?
    ensures s.rpc.PFound? ==> Step(s, PDestroy).Some?
  {
    ReachableInv(s);
    if Len(s) > 0 {
      assert ItemAt(s, 0) == Some(s.written[|s.taken|]);
      assert At(s.size, s.r, 0) == s.r;
      assert s.slots[s.r].Some? <==> s.form.Modulo? || ShouldLive(s, s.r);
    }
  }

  /** Slot lifetime in the folly form: a record is constructed only in raw memory, and moved from or
      destroyed only while live. */
  lemma SlotLifetime(s: State)
    requires Reachable(s) && Shaped(s) && s.form.Folly?
    ensures s.wpc.WClear? ==> s.slots[s.w] == None && s.wpc.cur == s.w
    ensures s.rpc.RFound? || s.rpc.RMoved? || s.rpc.PFound? ==> s.slots[s.r].Some? && s.rpc.cur == s.r
    ensures s.rpc.RGone? ==> s.slots[s.r] == None
  {
    ReachableInv(s);
    assert s.slots[s.w].Some? <==> ShouldLive(s, s.w);
    assert s.slots[s.r].Some? <==> ShouldLive(s, s.r);
  }

  /** The writer's slot and the reader's slot are never the same while either is being accessed. */
  lemma NoSharedSlot(s: State)
    requires Reachable(s) && Shaped(s)
    requires s.wpc.WClear? || s.wpc.WBuilt?
    requires s.rpc.RFound? || s.rpc.RMoved? || s.rpc.RGone? || s.rpc.PFound?
    ensures s.w != s.r && s.rpc.cur == s.r && (s.wpc.WClear? ==> s.wpc.cur == s.w)
  {
    ReachableInv(s);
  }

  /** A pointer returned by frontPtr points to the live front record, the writer cannot disturb it,
      and the assertion of a following popFront holds. */
  lemma FrontPointerStable(s: State, acts: seq<Action>)
    requires Reachable(s) && Shaped(s) && s.form.Folly? && s.rpc.RIdle? && s.rpc.front.Some?
    requires forall i :: 0 <= i < |acts| ==> IsWriterAction(acts[i])
    requires Run(s, acts).Some?
    ensures var s' := Run(s, acts).value;
      s'.rpc == s.rpc && Shaped(s') && s.rpc.front.value == s.r == s'.r && |s.taken| < |s.written|
      && s.slots[s.r] == s'.slots[s.r] == Some(s.written[|s.taken|])
      && Step(s', PBegin).Some? && Shaped(Step(s', PBegin).value)
      && Step(Step(s', PBegin).value, PTest).Some? && Step(Step(s', PBegin).value, PTest).value.rpc.PFound?
  {
    ReachableInv(s);
    WriterRun(s, acts);
    var s' := Run(s, acts).value;
    assert ItemAt(s, 0) == Some(s.written[|s.taken|]);
    assert ItemAt(s', 0) == Some(s'.written[|s'.taken|]);
    assert At(s.size, s.r, 0) == s.r;
  }

  /** Steps of the writer alone leave the reader's side unchanged and can only lengthen the window. */
  lemma {:induction false} WriterRun(s: State, acts: seq<Action>)
    requires Inv(s) && Run(s, acts).Some?
    requires forall i :: 0 <= i < |acts| ==> IsWriterAction(acts[i])
    ensures var s' := Run(s, acts).value;
      Inv(s') && s'.rpc == s.rpc && s'.r == s.r && s'.taken == s.taken && s'.size == s.size && s'.form == s.form
      && s.written <= s'.written && Len(s) <= Len(s')
    decreases |acts|
  {
    if acts != [] {
      StepInv(s, acts[0]);
      WriterRun(Step(s, acts[0]).value, acts[1..]);
    }
  }

  /** Steps of the reader alone leave the writer's side unchanged and can only shorten the window. */
  lemma {:induction false} ReaderRun(s: State, acts: seq<Action>)
    requires Inv(s) && Run(s, acts).Some?
    requires forall i :: 0 <= i < |acts| ==> !IsWriterAction(acts[i])
    ensures var s' := Run(s, acts).value;
      Inv(s') && s'.wpc == s.wpc && s'.w == s.w && s'.written == s.written && s'.size == s.size && s'.form == s.form
      && s.taken <= s'.taken && Len(s') <= Len(s)
    decreases |acts|
  {
    if acts != [] {
      StepInv(s, acts[0]);
      assert Step(s, acts[0]).value.wpc == s.wpc;
      ReaderRun(Step(s, acts[0]).value, acts[1..]);
    }
  }

  // ---- sizeGuess ----

  /** Conversion of an unsigned 32-bit value to int. */
  function ToInt32(u: nat): int {
    if u < 0x8000_0000 then u else u - 0x1_0000_0000
  }

  /** `sizeGuess` on two loaded indices: unsigned 32-bit subtraction into an `int`, unsigned addition
      of the size to a negative one, conversion to a 64-bit size_t. */
  function SizeGuess(size: nat, write: nat, read: nat): nat
    requires write < size && read < size < 0x1_0000_0000
  {
    var ret := ToInt32((write - read) % 0x1_0000_0000);
    var ret1 := if ret < 0 then ToInt32((ret + size) % 0x1_0000_0000) else ret;
    ret1 % 0x1_0000_0000_0000_0000
  }

  /** The guess is the exact distance between the loaded indices precisely when that distance fits an
      int and, for a wrapped window, the indices are at most 2^31 apart; so it always is for rings of
      at most 2^31 slots. */
  lemma SizeGuessExactIff(size: nat, write: nat, read: nat)
    requires write < size && read < size < 0x1_0000_0000
    ensures SizeGuess(size, write, read) == Dist(size, read, write)
            <==> Dist(size, read, write) < 0x8000_0000 && (write < read ==> read - write <= 0x8000_0000)
    ensures size <= 0x8000_0000 ==> SizeGuess(size, write, read) == Dist(size, read, write)
  {
  }

  /** Called by the reader, the guess is a lower bound on the true size for as long as only the writer
      moves; called by the writer it is an upper bound for as long as only the reader moves. */
  lemma SizeGuessBounds(s: State, acts: seq<Action>)
    requires Reachable(s) && Shaped(s) && s.size <= 0x8000_0000 && Run(s, acts).Some? && Shaped(Run(s, acts).value)
    ensures (forall i :: 0 <= i < |acts| ==> IsWriterAction(acts[i])) ==> SizeGuess(s.size, s.w, s.r) <= Len(Run(s, acts).value)
    ensures (forall i :: 0 <= i < |acts| ==> !IsWriterAction(acts[i])) ==> SizeGuess(s.size, s.w, s.r) >= Len(Run(s, acts).value)
  {
    ReachableInv(s);
    SizeGuessExactIff(s.size, s.w, s.r);
    if forall i :: 0 <= i < |acts| ==> IsWriterAction(acts[i]) {
      WriterRun(s, acts);
    }
    if forall i :: 0 <= i < |acts| ==> !IsWriterAction(acts[i]) {
      ReaderRun(s, acts);
    }
  }

  lemma {:induction false} RunConcat(s: State, xs: seq<Action>, ys: seq<Action>)
    requires Inv(s) && Run(s, xs).Some?
    ensures Inv(Run(s, xs).value) && Run(s, xs + ys) == Run(Run(s, xs).value, ys)
    decreases |xs|
  {
    if xs == [] {
      assert xs + ys == ys;
    } else {
      assert (xs + ys)[1..] == xs[1..] + ys;
      StepInv(s, xs[0]);
      RunConcat(Step(s, xs[0]).value, xs[1..], ys);
    }
  }

  lemma ReachableStep(s: State, a: Action)
    requires Reachable(s) && Shaped(s) && Step(s, a).Some?
    ensures Reachable(Step(s, a).value) && Shaped(Step(s, a).value)
  {
    ReachableInv(s);
    StepInv(s, a);
    var s' := Step(s, a).value;
    KeepsForm(s, a);
    var acts :| Run(Init(s.form, s.size), acts) == Some(s);
    InitInv(s.form, s.size);
    var acts' := Extend(Init(s.form, s.size), acts, s, a, s');
    assert Run(Init(s'.form, s'.size), acts') == Some(s');
  }

  lemma KeepsForm(s: State, a: Action)
    requires Shaped(s) && Step(s, a).Some?
    ensures Step(s, a).value.form == s.form && Step(s, a).value.size == s.size
  {
  }

  ghost function Go(s: State, a: Action): (s': State)
    requires Reachable(s) && Shaped(s) && Step(s, a).Some?
    ensures Some(s') == Step(s, a) && Reachable(s') && Shaped(s')
  {
    ReachableStep(s, a);
    Step(s, a).value
  }

  /** The writer alone can fill the ring up to its last usable slot. */
  lemma {:induction false} Filled(size: nat, k: nat) returns (s: State)
    requires 2 <= size && k < size
    ensures Reachable(s) && Shaped(s) && s.form == Folly && s.size == size && s.r == 0 && s.w == k && s.wpc == WIdle
    decreases k
  {
    if k == 0 {
      s := Init(Folly, size);
      assert Run(s, []) == Some(s);
    } else {
      s := Filled(size, k - 1);
      s := WriteOne(s);
    }
  }

  lemma WriteOne(s0: State) returns (s: State)
    requires Reachable(s0) && Shaped(s0) && s0.form == Folly && s0.r == 0 && s0.w + 1 < s0.size && s0.wpc == WIdle
    ensures Reachable(s) && Shaped(s) && s.form == Folly && s.size == s0.size && s.r == 0 && s.w == s0.w + 1 && s.wpc == WIdle
  {
    s := Go(s0, WBegin(0));
    s := Go(s, WTest);
    s := Go(s, WBuild);
    s := Go(s, WPublish);
  }

  ghost predicate FollyRing(s: State, size: nat) {
    Reachable(s) && Shaped(s) && s.form == Folly && s.size == size
  }

  /** The guess taken now bounds the true size from below while only the writer moves, and from above while only
      the reader moves. */
  ghost predicate GuessBounds(s: State)
    requires Shaped(s) && s.size < 0x1_0000_0000
  {
    forall acts :: Run(s, acts).Some? && Shaped(Run(s, acts).value) ==>
      && ((forall i :: 0 <= i < |acts| ==> IsWriterAction(acts[i])) ==> SizeGuess(s.size, s.w, s.r) <= Len(Run(s, acts).value))
      && ((forall i :: 0 <= i < |acts| ==> !IsWriterAction(acts[i])) ==> SizeGuess(s.size, s.w, s.r) >= Len(Run(s, acts).value))
  }

  /** For a ring of a given size, every guess is exact, and every guess keeps its bounds, if and only if the ring
      has at most 2^31 slots. */
  lemma SizeGuessReliableIff(size: nat)
    requires 2 <= size < 0x1_0000_0000
    ensures (forall s :: FollyRing(s, size) ==> SizeGuess(size, s.w, s.r) == Len(s)) <==> size <= 0x8000_0000
    ensures (forall s :: FollyRing(s, size) ==> GuessBounds(s)) <==> size <= 0x8000_0000
  {
    if size <= 0x8000_0000 {
      forall s | FollyRing(s, size)
        ensures SizeGuess(size, s.w, s.r) == Len(s) && GuessBounds(s)
      {
        SizeGuessExactIff(size, s.w, s.r);
        forall acts | Run(s, acts).Some? && Shaped(Run(s, acts).value)
          ensures (forall i :: 0 <= i < |acts| ==> IsWriterAction(acts[i])) ==> SizeGuess(s.size, s.w, s.r) <= Len(Run(s, acts).value)
          ensures (forall i :: 0 <= i < |acts| ==> !IsWriterAction(acts[i])) ==> SizeGuess(s.size, s.w, s.r) >= Len(Run(s, acts).value)
        {
          SizeGuessBounds(s, acts);
        }
      }
    } else {
      var s := WrongGuess(size);
      assert FollyRing(s, size);
      assert Run(s, []) == Some(s);
      assert SizeGuess(size, s.w, s.r) != Len(s);
    }
  }

  /** After 2^31 writes the difference of the indices does not fit an int. */
  lemma WrongGuess(size: nat) returns (s: State)
    requires 0x8000_0000 < size < 0x1_0000_0000
    ensures FollyRing(s, size) && s.w == 0x8000_0000 && s.r == 0 && SizeGuess(size, s.w, s.r) != Len(s)
  {
    s := Filled(size, 0x8000_0000);
    SizeGuessExactIff(size, s.w, s.r);
  }

  // ---- The ring object ----

  class Ring {
    const form: Form
    const size: nat
    const records: array<Option<T>>
    var readIndex: nat
    var writeIndex: nat
    var wpc: WPc               // the writer thread's position and registers
    var rpc: RPc               // the reader thread's
    ghost var written: seq<T>
    ghost var taken: seq<T>

    ghost function View(): State
      reads this, records
    {
      State(form, size, records[..], readIndex, writeIndex, wpc, rpc, written, taken)
    }

    ghost predicate Valid()
      reads this, records
    {
      Inv(View())
    }

    constructor (form: Form, size: nat)
      requires size >= if form.Folly? then 2 else 1
      ensures Valid() && View() == Init(form, size) && fresh(records)
    {
      this.form, this.size := form, size;
      records := new Option<T>[size](i => if form.Folly? then None else Some(0));
      readIndex, writeIndex, wpc, rpc := 0, 0, WIdle, RIdle(None);
      written, taken := [], [];
      new;
      assert records[..] == Init(form, size).slots;
      InitInv(form, size);
    }

    /** One atomic action of `write` / `push`, if that is what comes next. */
    method WriterAtomic(a: Action) returns (moved: bool)
      requires Valid() && IsWriterAction(a)
      modifies this, records
      ensures Valid() && Step(old(View()), a) == if moved then Some(View()) else None
      ensures !moved ==> View() == old(View())
    {
      if Step(View(), a).Some? {
        StepInv(View(), a);
      }
      moved := true;
      match (a, wpc) {
        case (WBegin(x), WIdle) =>
          wpc := WLoaded(writeIndex, x);
        case (WTest, WLoaded(currentWrite, x)) =>
          var nextRecord := Next(form, size, currentWrite);
          wpc := if nextRecord != readIndex then WClear(currentWrite, nextRecord, x) else WIdle;
        case (WBuild, WClear(currentWrite, nextRecord, x)) =>
          records[currentWrite] := Some(x);
          wpc := WBuilt(nextRecord, x);
        case (WPublish, WBuilt(nextRecord, x)) =>
          writeIndex := nextRecord;
          written := written + [x];
          wpc := WIdle;
        case _ =>
          moved := false;
      }
    }

    /** One atomic action of the first half of `read` / `pop`, if that is what comes next. */
    method ReadAtomic(a: Action) returns (moved: bool)
      requires Valid() && (a.RBegin? || a.RTest? || a.RMove?)
      modifies this, records
      ensures Valid() && Step(old(View()), a) == if moved then Some(View()) else None
      ensures !moved ==> View() == old(View())
    {
      ReaderSlotLive(View());
      if Step(View(), a).Some? {
        StepInv(View(), a);
      }
      moved := true;
      match (a, rpc) {
        case (RBegin, RIdle(_)) =>
          rpc := RLoaded(readIndex);
        case (RTest, RLoaded(currentRead)) =>
          rpc := if currentRead == writeIndex then RIdle(None) else RFound(currentRead);
        case (RMove(husk), RFound(currentRead)) =>
          var record := records[currentRead].value;
          if form.Folly? {
            records[currentRead] := Some(husk);
          }
          rpc := RMoved(currentRead, record);
        case _ =>
          moved := false;
      }
    }

    /** One atomic action of its second half: destroying the slot, storing the index. */
    method ReleaseAtomic(a: Action) returns (moved: bool)
      requires Valid() && (a.RDestroy? || a.RPublish?)
      modifies this, records
      ensures Valid() && Step(old(View()), a) == if moved then Some(View()) else None
      ensures !moved ==> View() == old(View())
    {
      ghost var before := View();
      if Step(before, a).Some? {
        StepInv(before, a);
      }
      moved := true;
      match (a, rpc) {
        case (RDestroy, RMoved(currentRead, record)) =>
          if form.Modulo? {
            return false;
          }
          records[currentRead] := None;
          rpc := RGone(currentRead, record);
        case (RPublish, RMoved(currentRead, record)) =>
          if form.Folly? {
            return false;
          }
          readIndex := Next(form, size, currentRead);
          taken := taken + [record];
          rpc := RIdle(None);
        case (RPublish, RGone(currentRead, record)) =>
          readIndex := Next(form, size, currentRead);
          taken := taken + [record];
          rpc := RIdle(None);
        case _ =>
          moved := false;
      }
      assert moved ==> View() == Step(before, a).value;
    }

    /** One atomic action of `frontPtr`, which only the folly form has. */
    method FrontAtomic(a: Action) returns (moved: bool)
      requires Valid() && (a.FBegin? || a.FTest?)
      modifies this
      ensures Valid() && Step(old(View()), a) == if moved then Some(View()) else None
      ensures !moved ==> View() == old(View())
      ensures moved && a.FTest? ==> rpc == RIdle(if Len(old(View())) > 0 then Some(readIndex) else None)
    {
      if Step(View(), a).Some? {
        StepInv(View(), a);
      }
      moved := true;
      match (a, rpc) {
        case (FBegin, RIdle(_)) =>
          if form.Modulo? {
            return false;
          }
          rpc := FLoaded(readIndex);
        case (FTest, FLoaded(currentRead)) =>
          rpc := RIdle(if currentRead == writeIndex then None else Some(currentRead));
        case _ =>
          moved := false;
      }
    }

    /** One atomic action of `popFront`, up to destroying the slot; only the folly form has it. */
    method PopAtomic(a: Action) returns (moved: bool)
      requires Valid() && (a.PBegin? || a.PTest? || a.PDestroy?)
      modifies this, records
      ensures Valid() && Step(old(View()), a) == if moved then Some(View()) else None
      ensures !moved ==> View() == old(View())
    {
      ReaderSlotLive(View());
      if Step(View(), a).Some? {
        StepInv(View(), a);
      }
      moved := true;
      match (a, rpc) {
        case (PBegin, RIdle(_)) =>
          if form.Modulo? {
            return false;
          }
          rpc := PLoaded(readIndex);
        case (PTest, PLoaded(currentRead)) =>
          rpc := if currentRead == writeIndex then PFailed else PFound(currentRead);
        case (PDestroy, PFound(currentRead)) =>
          var record := records[currentRead].value;
          records[currentRead] := None;
          rpc := RGone(currentRead, record);
        case _ =>
          moved := false;
      }
    }

    /** What the writer may do while the reader is between two of its steps: the given actions,
        skipping those that are not enabled. */
    method LetWriterRun(acts: seq<Action>)
      requires Valid() && forall i :: 0 <= i < |acts| ==> IsWriterAction(acts[i])
      modifies this, records
      ensures Valid() && rpc == old(rpc) && readIndex == old(readIndex) && taken == old(taken)
      ensures old(written) <= written && old(Len(View())) <= Len(View())
      ensures WriterLeads(old(View()), View())
    {
      ghost var trace := [];
      for i := 0 to |acts|
        invariant Valid() && Run(old(View()), trace) == Some(View())
        invariant forall k :: 0 <= k < |trace| ==> IsWriterAction(trace[k])
      {
        ghost var before := View();
        var moved := WriterAtomic(acts[i]);
        if moved {
          trace := Extend(old(View()), trace, before, acts[i], View());
        }
      }
      WriterRun(old(View()), trace);
    }

    /** What the reader may do while the writer is between two of its steps. */
    method LetReaderRun(acts: seq<Action>)
      requires Valid() && forall i :: 0 <= i < |acts| ==> !IsWriterAction(acts[i])
      modifies this, records
      ensures Valid() && wpc == old(wpc) && writeIndex == old(writeIndex) && written == old(written)
      ensures old(taken) <= taken && Len(View()) <= old(Len(View()))
      ensures ReaderLeads(old(View()), View())
    {
      ghost var trace := [];
      for i := 0 to |acts|
        invariant Valid() && Run(old(View()), trace) == Some(View())
        invariant forall k :: 0 <= k < |trace| ==> !IsWriterAction(trace[k])
      {
        ghost var before := View();
        var a, moved := acts[i], false;
        if a.FBegin? || a.FTest? {
          moved := FrontAtomic(a);
        } else if a.PBegin? || a.PTest? || a.PDestroy? {
          moved := PopAtomic(a);
        } else if a.RDestroy? || a.RPublish? {
          moved := ReleaseAtomic(a);
        } else {
          moved := ReadAtomic(a);
        }
        if moved {
          trace := Extend(old(View()), trace, before, a, View());
        }
      }
      ReaderRun(old(View()), trace);
    }

    /** `write` / `push` from call to return, while the reader takes any steps in between. It fails exactly when
        the ring was full in the state `atLoad`, in which it loads the read index and which its first step and
        steps of the reader lead to; otherwise it appends its record to what was written and nothing else does. */
    method Write(x: T, during: seq<seq<Action>>) returns (ok: bool, ghost atLoad: State)
      requires Valid() && wpc.WIdle? && |during| == 3
      requires forall j, i :: 0 <= j < 3 && 0 <= i < |during[j]| ==> !IsWriterAction(during[j][i])
      modifies this, records
      ensures Valid() && wpc.WIdle?
      ensures Step(old(View()), WBegin(x)).Some? && ReaderLeads(Step(old(View()), WBegin(x)).value, atLoad)
      ensures Inv(atLoad) && Step(atLoad, WTest).Some? && Leads(Step(atLoad, WTest).value, View())
      ensures ok <==> Len(atLoad) < size - 1
      ensures written == if ok then old(written) + [x] else old(written)
      ensures old(taken) <= taken
    {
      var moved := WriterAtomic(WBegin(x));
      LetReaderRun(during[0]);
      atLoad := View();
      moved := WriterAtomic(WTest);
      StaysPut(View());
      ok := wpc.WClear?;
      if ok {
        FinishWrite(x, during[1..]);
      }
    }

    /** The part of `write` after it has found room: it cannot fail any more. */
    method FinishWrite(x: T, during: seq<seq<Action>>)
      requires Valid() && wpc.WClear? && wpc.x == x && |during| == 2
      requires forall j, i :: 0 <= j < 2 && 0 <= i < |during[j]| ==> !IsWriterAction(during[j][i])
      modifies this, records
      ensures Valid() && wpc.WIdle?
      ensures written == old(written) + [x] && old(taken) <= taken
      ensures Leads(old(View()), View())
    {
      LetReaderRun(during[0]);
      ghost var s1 := View();
      var moved := WriterAtomic(WBuild);
      ghost var s2 := View();
      LetReaderRun(during[1]);
      ghost var s3 := View();
      moved := WriterAtomic(WPublish);
      LeadsOn(old(View()), s1, WBuild, s2);
      LeadsFurther(old(View()), s2, s3);
      LeadsOn(old(View()), s3, WPublish, View());
    }

    /** `read` / `pop` from call to return, while the writer takes any steps in between. It fails exactly when
        the ring was empty in the state `atLoad`, in which it loads the write index and which its first step and
        steps of the writer lead to; otherwise it hands out the oldest record not yet taken. */
    method Read(husk: T, during: seq<seq<Action>>) returns (record: Option<T>, ghost atLoad: State)
      requires Valid() && rpc.RIdle? && |during| == 4
      requires forall j, i :: 0 <= j < 4 && 0 <= i < |during[j]| ==> IsWriterAction(during[j][i])
      modifies this, records
      ensures Valid() && rpc.RIdle?
      ensures Step(old(View()), RBegin).Some? && WriterLeads(Step(old(View()), RBegin).value, atLoad)
      ensures Inv(atLoad) && Step(atLoad, RTest).Some? && Leads(Step(atLoad, RTest).value, View())
      ensures record.Some? <==> Len(atLoad) > 0
      ensures old(written) <= written
      ensures record.Some? ==> |old(taken)| < |written| && record.value == written[|old(taken)|]
      ensures taken == if record.Some? then old(taken) + [record.value] else old(taken)
    {
      var moved := ReadAtomic(RBegin);
      LetWriterRun(during[0]);
      atLoad := View();
      moved := ReadAtomic(RTest);
      StaysPut(View());
      record := None;
      if rpc.RFound? {
        var v := FinishRead(husk, during[1..]);
        record := Some(v);
      }
    }

    /** `frontPtr` from call to return, while the writer takes any steps in between: the slot of the oldest record
        not yet taken, or nullptr exactly when the ring was empty in the state `atLoad`, in which it loads the write
        index and which its first step and steps of the writer lead to. */
    method Front(during: seq<Action>) returns (front: Option<nat>, ghost atLoad: State)
      requires Valid() && form.Folly? && rpc.RIdle? && forall i :: 0 <= i < |during| ==> IsWriterAction(during[i])
      modifies this, records
      ensures Valid() && rpc == RIdle(front) && old(written) <= written && taken == old(taken)
      ensures Step(old(View()), FBegin).Some? && WriterLeads(Step(old(View()), FBegin).value, atLoad)
      ensures Inv(atLoad) && Step(atLoad, FTest) == Some(View())
      ensures front.Some? <==> Len(atLoad) > 0
      ensures front.Some? ==> front.value < size && |taken| < |written| && records[front.value] == Some(written[|taken|])
    {
      FrontLoad(during);
      atLoad := View();
      FrontFinds(atLoad);
      var moved := FrontAtomic(FTest);
      front := rpc.front;
      assert View() == atLoad.(rpc := RIdle(front)) && records[..] == atLoad.slots;
    }

    /** `frontPtr` before its load of the write index. */
    method FrontLoad(during: seq<Action>)
      requires Valid() && form.Folly? && rpc.RIdle? && forall i :: 0 <= i < |during| ==> IsWriterAction(during[i])
      modifies this, records
      ensures Valid() && rpc.FLoaded? && old(written) <= written && taken == old(taken)
      ensures Step(old(View()), FBegin).Some? && WriterLeads(Step(old(View()), FBegin).value, View())
    {
      var moved := FrontAtomic(FBegin);
      LetWriterRun(during);
    }

    /** `popFront` from call to return, while the writer takes any steps in between: it removes the oldest record
        not yet taken, or fails its assertion exactly when the ring was empty in the state `atLoad`. */
    method PopFront(during: seq<seq<Action>>) returns (ok: bool, ghost atLoad: State)
      requires Valid() && form.Folly? && rpc.RIdle? && |during| == 3
      requires forall j, i :: 0 <= j < 3 && 0 <= i < |during[j]| ==> IsWriterAction(during[j][i])
      modifies this, records
      ensures Valid() && old(written) <= written
      ensures Step(old(View()), PBegin).Some? && WriterLeads(Step(old(View()), PBegin).value, atLoad)
      ensures Inv(atLoad) && (ok <==> Len(atLoad) > 0) && (if ok then rpc.RIdle? else rpc.PFailed?)
      ensures ok ==> |old(taken)| < |written| && taken == old(taken) + [written[|old(taken)|]]
      ensures !ok ==> taken == old(taken)
    {
      ok, atLoad := PopCheck(during[0]);
      if ok {
        FinishPop(during[1], during[2]);
      }
    }

    /** The part of `popFront` up to its assertion. */
    method PopCheck(during: seq<Action>) returns (ok: bool, ghost atLoad: State)
      requires Valid() && form.Folly? && rpc.RIdle? && forall i :: 0 <= i < |during| ==> IsWriterAction(during[i])
      modifies this, records
      ensures Valid() && old(written) <= written && taken == old(taken)
      ensures Step(old(View()), PBegin).Some? && WriterLeads(Step(old(View()), PBegin).value, atLoad)
      ensures Inv(atLoad) && Step(atLoad, PTest) == Some(View())
      ensures (ok <==> Len(atLoad) > 0) && (if ok then rpc.PFound? && |taken| < |written| else rpc.PFailed?)
    {
      PopLoad(during);
      atLoad := View();
      PopFinds(atLoad);
      var moved := PopAtomic(PTest);
      ok := rpc.PFound?;
    }

    /** `popFront` before its load of the write index. */
    method PopLoad(during: seq<Action>)
      requires Valid() && form.Folly? && rpc.RIdle? && forall i :: 0 <= i < |during| ==> IsWriterAction(during[i])
      modifies this, records
      ensures Valid() && rpc.PLoaded? && old(written) <= written && taken == old(taken)
      ensures Step(old(View()), PBegin).Some? && WriterLeads(Step(old(View()), PBegin).value, View())
    {
      var moved := PopAtomic(PBegin);
      LetWriterRun(during);
    }

    /** The part of `popFront` after its assertion. */
    method FinishPop(before: seq<Action>, after: seq<Action>)
      requires Valid() && form.Folly? && rpc.PFound?
      requires forall i :: 0 <= i < |before| ==> IsWriterAction(before[i])
      requires forall i :: 0 <= i < |after| ==> IsWriterAction(after[i])
      modifies this, records
      ensures Valid() && rpc.RIdle? && old(written) <= written && |old(taken)| < |old(written)|
      ensures taken == old(taken) + [old(written)[|old(taken)|]]
    {
      PopsAfter(View());
      LetWriterRun(before);
      DestroyFront();
      LetWriterRun(after);
      StoreIndex();
    }

    /** `readIndex_.store(nextRecord)`, the slot being destroyed. */
    method StoreIndex()
      requires Valid() && rpc.RGone?
      modifies this, records
      ensures Valid() && rpc.RIdle? && written == old(written) && taken == old(taken) + [old(rpc.v)]
    {
      var moved := ReleaseAtomic(RPublish);
    }

    /** `records_[currentRead].~T()` in popFront. */
    method DestroyFront()
      requires Valid() && rpc.PFound?
      modifies this, records
      ensures Valid() && rpc.RGone? && written == old(written) && taken == old(taken)
      ensures |taken| < |written| && rpc.v == written[|taken|]
    {
      PopTakesFront(View());
      var moved := PopAtomic(PDestroy);
    }

    /** The part of `read` after it has found a record. */
    method FinishRead(husk: T, during: seq<seq<Action>>) returns (v: T)
      requires Valid() && rpc.RFound? && |during| == 3
      requires forall j, i :: 0 <= j < 3 && 0 <= i < |during[j]| ==> IsWriterAction(during[j][i])
      modifies this, records
      ensures Valid() && rpc.RIdle?
      ensures old(written) <= written && |old(taken)| < |old(written)| && v == old(written)[|old(taken)|]
      ensures taken == old(taken) + [v]
      ensures Leads(old(View()), View())
    {
      LetWriterRun(during[0]);
      ghost var s0 := View();
      v := MoveOut(husk);
      ghost var s1 := View();
      LetWriterRun(during[1]);
      ghost var s2 := View();
      Release(during[2]);
      LeadsOn(old(View()), s0, RMove(husk), s1);
      LeadsFurther(old(View()), s1, s2);
      LeadsFurther(old(View()), s2, View());
    }

    /** `std::move(records_[currentRead])`. */
    method MoveOut(husk: T) returns (v: T)
      requires Valid() && rpc.RFound?
      modifies this, records
      ensures Valid() && rpc.RMoved? && rpc.v == v && written == old(written) && taken == old(taken)
      ensures |taken| < |written| && v == written[|taken|]
      ensures Step(old(View()), RMove(husk)) == Some(View())
    {
      MoveTakesFront(View(), husk);
      var moved := ReadAtomic(RMove(husk));
      v := rpc.v;
    }

    /** The end of `read`: the record is out, its slot is destroyed and the index stored. */
    method Release(during: seq<Action>)
      requires Valid() && rpc.RMoved? && forall i :: 0 <= i < |during| ==> IsWriterAction(during[i])
      modifies this, records
      ensures Valid() && rpc.RIdle? && old(written) <= written && taken == old(taken) + [old(rpc.v)]
      ensures Leads(old(View()), View())
    {
      ghost var s0 := View();
      StaysPut(s0);
      if form.Folly? {
        DestroyMoved(during);
      }
      ghost var s2 := View();
      var moved := ReleaseAtomic(RPublish);
      LeadsOn(s0, s2, RPublish, View());
    }

    /** `records_[currentRead].~T()`, and what the writer does meanwhile. */
    method DestroyMoved(during: seq<Action>)
      requires Valid() && form.Folly? && rpc.RMoved? && forall i :: 0 <= i < |during| ==> IsWriterAction(during[i])
      modifies this, records
      ensures Valid() && rpc.RGone? && rpc.v == old(rpc.v) && old(written) <= written && taken == old(taken)
      ensures Leads(old(View()), View())
    {
      ghost var s0 := View();
      var moved := ReleaseAtomic(RDestroy);
      ghost var s1 := View();
      OneStepLeads(s0, RDestroy, s1);
      LetWriterRun(during);
      LeadsFurther(s0, s1, View());
    }

    /** The destructor of the folly form, with no call in progress: it destroys exactly the records still
        in the ring, each once and front first, and leaves only raw memory. */
    method Destroy() returns (destroyed: seq<T>)
      requires Valid() && form.Folly? && wpc.WIdle? && rpc.RIdle?
      modifies records
      ensures destroyed == old(written)[|old(taken)|..]
      ensures forall i :: 0 <= i < size ==> records[i] == None
    {
      var index, endIndex := readIndex, writeIndex;
      ghost var s := View();
      destroyed := [];
      while index != endIndex
        invariant 0 <= index < size == records.Length && endIndex == writeIndex == s.w
        invariant |destroyed| <= Len(s)
        invariant |destroyed| + Dist(size, index, endIndex) == Len(s)
        invariant |destroyed| < Len(s) ==> index == At(size, s.r, |destroyed|)
        invariant destroyed == s.written[|s.taken|..][..|destroyed|]
        invariant forall i :: 0 <= i < size ==> records[i] == if Dist(size, s.r, i) < |destroyed| then None else s.slots[i]
        decreases Dist(size, index, endIndex)
      {
        SlotAhead(s, |destroyed|);
        destroyed := destroyed + [records[index].value];
        records[index] := None;
        index := index + 1;
        if index == size {
          index := 0;
        }
      }
    }
  }

  /** The slot `k` places into the window, with nobody reading, and the one after it. */
  lemma SlotAhead(s: State, k: nat)
    requires Inv(s) && s.rpc.RIdle? && k < Len(s)
    ensures var i := At(s.size, s.r, k); var j := if i + 1 == s.size then 0 else i + 1;
      && s.slots[i] == Some(s.written[|s.taken| + k])
      && Dist(s.size, j, s.w) == Len(s) - k - 1
      && (k + 1 < Len(s) ==> j == At(s.size, s.r, k + 1))
      && (forall m :: 0 <= m < s.size ==> (Dist(s.size, s.r, m) == k <==> m == i))
      && s.written[|s.taken|..][..k + 1] == s.written[|s.taken|..][..k] + [s.written[|s.taken| + k]]
  {
    assert ItemAt(s, k) == Some(s.written[|s.taken| + k]);
  }

  /** What the reader moves out is the oldest record not yet taken. */
  lemma MoveTakesFront(s: State, husk: T)
    requires Inv(s) && s.rpc.RFound?
    ensures Step(s, RMove(husk)).Some? && |s.taken| < |s.written|
    ensures Step(s, RMove(husk)).value.rpc == RMoved(s.r, s.written[|s.taken|])
  {
    ReaderSlotLive(s);
    assert ItemAt(s, 0) == Some(s.written[|s.taken|]);
    assert At(s.size, s.r, 0) == s.r;
  }

  lemma PopsAfter(s: State)
    requires Inv(s) && s.rpc.PFound?
    ensures |s.taken| < |s.written|
  {
    PopTakesFront(s);
  }

  /** What popFront destroys is the oldest record not yet taken. */
  lemma PopTakesFront(s: State)
    requires Inv(s) && s.rpc.PFound?
    ensures Step(s, PDestroy).Some? && |s.taken| < |s.written|
    ensures Step(s, PDestroy).value.rpc == RGone(s.r, s.written[|s.taken|])
  {
    ReaderSlotLive(s);
    assert ItemAt(s, 0) == Some(s.written[|s.taken|]);
    assert At(s.size, s.r, 0) == s.r;
  }

  /** A run leads from `s` to `s'`: any run, one of the reader's steps alone, one of the writer's. */
  ghost predicate Leads(s: State, s': State) {
    Inv(s) && exists trace :: Run(s, trace) == Some(s')
  }

  ghost predicate ReaderLeads(s: State, s': State) {
    Inv(s) && exists trace :: (forall k :: 0 <= k < |trace| ==> !IsWriterAction(trace[k])) && Run(s, trace) == Some(s')
  }

  ghost predicate WriterLeads(s: State, s': State) {
    Inv(s) && exists trace :: (forall k :: 0 <= k < |trace| ==> IsWriterAction(trace[k])) && Run(s, trace) == Some(s')
  }

  lemma StaysPut(s: State)
    requires Inv(s)
    ensures Leads(s, s)
  {
    assert Run(s, []) == Some(s);
  }

  lemma LeadsOn(s0: State, s: State, a: Action, s': State)
    requires Leads(s0, s) && Shaped(s) && Step(s, a) == Some(s')
    ensures Leads(s0, s')
  {
    var trace :| Run(s0, trace) == Some(s);
    var trace' := Extend(s0, trace, s, a, s');
  }

  lemma OneStepLeads(s: State, a: Action, s': State)
    requires Inv(s) && Step(s, a) == Some(s')
    ensures Leads(s, s')
  {
    StaysPut(s);
    LeadsOn(s, s, a, s');
  }

  lemma LeadsFurther(s0: State, s: State, s': State)
    requires Leads(s0, s) && Leads(s, s')
    ensures Leads(s0, s')
  {
    var xs :| Run(s0, xs) == Some(s);
    var ys :| Run(s, ys) == Some(s');
    RunConcat(s0, xs, ys);
    assert Run(s0, xs + ys) == Some(s');
  }

  /** A run followed by one more step is a run. */
  ghost function Extend(s0: State, trace: seq<Action>, s: State, a: Action, s': State): (trace': seq<Action>)
    requires Inv(s0) && Run(s0, trace) == Some(s) && Shaped(s) && Step(s, a) == Some(s')
    ensures trace' == trace + [a] && Run(s0, trace') == Some(s')
  {
    RunConcat(s0, trace, [a]);
    StepInv(s, a);
    assert Run(s, [a]) == Run(s', [a][1..]);
    trace + [a]
  }

  /** The slot the reader is about to touch is live. */
  lemma ReaderSlotLive(s: State)
    requires Inv(s)
    ensures (s.rpc.RFound? || s.rpc.PFound?) ==> s.slots[s.r].Some?
  {
    if Len(s) > 0 {
      assert At(s.size, s.r, 0) == s.r;
      assert s.slots[s.r].Some? <==> s.form.Modulo? || ShouldLive(s, s.r);
    }
  }
}
