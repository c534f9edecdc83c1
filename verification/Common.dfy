/** Shared vocabulary: optional values, results, and counting over the program counters of a
    fixed set of threads. */
module Common {

  datatype Option<+T> = None | Some(value: T)

  datatype Result<+T, +E> = Ok(value: T) | Err(error: E)

  /** The indices of `s` whose element satisfies `p`. */
  function Where<T>(s: seq<T>, p: T -> bool): set<nat> {
    set i: nat | i < |s| && p(s[i])
  }

  /** How many elements of `s` satisfy `p`. */
  function Count<T>(s: seq<T>, p: T -> bool): (n: nat) {
    |Where(s, p)|
  }

  /** Changing one element moves the count by exactly what that element contributed. */
  lemma CountUpdate<T>(s: seq<T>, i: nat, x: T, p: T -> bool)
    requires i < |s|
    ensures Count(s[i := x], p) + (if p(s[i]) then 1 else 0) == Count(s, p) + (if p(x) then 1 else 0)
  {
    var others := Where(s, p) - {i};
    assert Where(s, p) == if p(s[i]) then others + {i} else others;
    assert Where(s[i := x], p) == if p(x) then others + {i} else others;
  }

  /** Somebody satisfies `p` exactly when the count is positive. */
  lemma CountPositive<T>(s: seq<T>, p: T -> bool)
    ensures Count(s, p) > 0 <==> exists i :: 0 <= i < |s| && p(s[i])
  {
    if i :| 0 <= i < |s| && p(s[i]) {
      assert i in Where(s, p);
    }
    if Count(s, p) > 0 {
      var i :| i in Where(s, p);
    }
  }

  /** The count is full exactly when everybody satisfies `p`. */
  lemma CountFull<T>(s: seq<T>, p: T -> bool)
    ensures Count(s, p) <= |s|
    ensures Count(s, p) == |s| <==> forall i :: 0 <= i < |s| ==> p(s[i])
  {
    var all := Indices(|s|);
    assert all == Where(s, p) + (all - Where(s, p));
    if Count(s, p) == |s| {
      assert all - Where(s, p) == {};
      forall i | 0 <= i < |s|
        ensures p(s[i])
      {
        assert i in all;
        assert i !in all - Where(s, p);
      }
    } else {
      var i :| i in all - Where(s, p);
      assert !p(s[i]);
    }
  }

  /** Two exclusive predicates that together cover everybody count everybody. */
  lemma CountSplit<T>(s: seq<T>, p: T -> bool, q: T -> bool)
    requires forall i :: 0 <= i < |s| ==> !(p(s[i]) && q(s[i]))
    requires forall i :: 0 <= i < |s| ==> p(s[i]) || q(s[i])
    ensures Count(s, p) + Count(s, q) == |s|
  {
    assert Where(s, p) + Where(s, q) == Indices(|s|);
    assert Where(s, p) !! Where(s, q);
  }

  function Indices(n: nat): (all: set<nat>)
    ensures forall i: nat :: i in all <==> i < n
    ensures |all| == n
  {
    if n == 0 then {} else Indices(n - 1) + {n - 1}
  }

  // ---- Division ----

  lemma MulGap(m: nat, a: int, b: int)
    requires a < b
    ensures m * a + m <= m * b
  {
    var d := b - a - 1;
    assert m * b == m * a + m + m * d;
  }

  /** Quotient and remainder are determined by their defining equation. */
  lemma QuotientUnique(m: nat, q1: int, r1: nat, q2: int, r2: nat)
    requires r1 < m && r2 < m && m * q1 + r1 == m * q2 + r2
    ensures q1 == q2 && r1 == r2
  {
    if q1 < q2 {
      MulGap(m, q1, q2);
    } else if q2 < q1 {
      MulGap(m, q2, q1);
    }
  }

  lemma RemainderUnique(x: nat, m: nat, q: nat, r: nat)
    requires m > 0 && r < m && x == m * q + r
    ensures x / m == q && x % m == r
  {
    QuotientUnique(m, x / m, x % m, q, r);
  }

  // ---- Exactly-once bookkeeping for worker pools ----

  /** The jobs 0..pops-1 were handed out; `hand` says which job, if any, a worker holds. Every job is
      either finished, once, or in the hands of exactly one worker. */
  ghost predicate ExactlyOnce<P>(pcs: seq<P>, hand: P -> Option<nat>, pops: nat, finished: seq<nat>) {
    && (forall i :: 0 <= i < |finished| ==> finished[i] < pops)
    && (forall i, j :: 0 <= i < j < |finished| ==> finished[i] != finished[j])
    && (forall w :: 0 <= w < |pcs| && hand(pcs[w]).Some? ==> hand(pcs[w]).value < pops && hand(pcs[w]).value !in finished)
    && (forall v, w :: 0 <= v < w < |pcs| && hand(pcs[v]).Some? ==> hand(pcs[v]) != hand(pcs[w]))
    && (forall k :: 0 <= k < pops ==> k in finished || InSomeHand(pcs, hand, k))
  }

  ghost predicate InSomeHand<P>(pcs: seq<P>, hand: P -> Option<nat>, k: nat) {
    exists w :: 0 <= w < |pcs| && hand(pcs[w]) == Some(k)
  }

  /** Nothing changes when no worker's hand changes. */
  lemma ExactlyOnceKept<P>(pcs: seq<P>, pcs': seq<P>, hand: P -> Option<nat>, pops: nat, finished: seq<nat>)
    requires ExactlyOnce(pcs, hand, pops, finished)
    requires |pcs'| == |pcs| && forall w :: 0 <= w < |pcs| ==> hand(pcs'[w]) == hand(pcs[w])
    ensures ExactlyOnce(pcs', hand, pops, finished)
  {
    forall k: nat | InSomeHand(pcs, hand, k)
      ensures InSomeHand(pcs', hand, k)
    {
      var w :| 0 <= w < |pcs| && hand(pcs[w]) == Some(k);
      assert hand(pcs'[w]) == Some(k);
    }
  }

  /** An empty-handed worker takes the next job. */
  lemma ExactlyOnceTake<P>(pcs: seq<P>, w: nat, pc: P, hand: P -> Option<nat>, pops: nat, finished: seq<nat>)
    requires ExactlyOnce(pcs, hand, pops, finished)
    requires w < |pcs| && hand(pcs[w]) == None && hand(pc) == Some(pops)
    ensures ExactlyOnce(pcs[w := pc], hand, pops + 1, finished)
  {
    assert hand(pcs[w := pc][w]) == Some(pops);
    forall k: nat | InSomeHand(pcs, hand, k)
      ensures InSomeHand(pcs[w := pc], hand, k)
    {
      var v :| 0 <= v < |pcs| && hand(pcs[v]) == Some(k);
      assert hand(pcs[w := pc][v]) == Some(k);
    }
  }

  /** A worker completes the job it holds. */
  lemma ExactlyOnceFinish<P>(pcs: seq<P>, w: nat, pc: P, hand: P -> Option<nat>, pops: nat, finished: seq<nat>)
    requires ExactlyOnce(pcs, hand, pops, finished)
    requires w < |pcs| && hand(pcs[w]).Some? && hand(pc) == None
    ensures ExactlyOnce(pcs[w := pc], hand, pops, finished + [hand(pcs[w]).value])
  {
    var done := hand(pcs[w]).value;
    forall k | 0 <= k < pops
      ensures k in finished + [done] || InSomeHand(pcs[w := pc], hand, k)
    {
      if k !in finished && k != done {
        var v :| 0 <= v < |pcs| && hand(pcs[v]) == Some(k);
        assert hand(pcs[w := pc][v]) == Some(k);
      }
    }
  }

  lemma Associative<X>(a: seq<X>, b: seq<X>, c: seq<X>)
    ensures a + (b + c) == a + b + c
  {
  }
}
