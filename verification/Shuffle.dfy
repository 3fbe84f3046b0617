/** The in-place shuffle that turns a batch of concurrent events into one schedule. */
module Shuffle {

  /** A draw of the generator is one of this many equally spaced fractions of one. */
  const RANGE: nat := 0x1_0000_0000

  type Draw = d: nat | d < RANGE

  lemma Scales(a: nat, b: nat, n: nat)
    requires a < b && n > 0
    ensures a * n < b * n
  {
  }

  /** The index below `n` that a draw selects. */
  function Pick(draw: Draw, n: nat): (j: nat)
    requires n > 0
    ensures j < n
  {
    Scales(draw, RANGE, n);
    Quotients(draw * n, n);
    draw * n / RANGE
  }

  /** It is the whole part of the draw's fraction of `n`. */
  lemma PickExactly(draw: Draw, n: nat)
    requires n > 0
    ensures Pick(draw, n) * RANGE <= draw * n < (Pick(draw, n) + 1) * RANGE
  {
    WholePart(draw * n);
  }

  lemma WholePart(x: nat)
    ensures x / RANGE * RANGE <= x < (x / RANGE + 1) * RANGE
  {
  }

  lemma Quotients(x: nat, n: nat)
    requires x < RANGE * n
    ensures 0 <= x / RANGE < n
  {
  }

  /** As many draws as it takes to shuffle `n` elements. */
  predicate Enough(draws: seq<Draw>, n: nat) {
    |draws| == if n == 0 then 0 else n - 1
  }

  function Swap<T>(s: seq<T>, i: nat, j: nat): (r: seq<T>)
    requires i < |s| && j < |s|
    ensures |r| == |s|
  {
    s[i := s[j]][j := s[i]]
  }

  /** What remains to be done when the elements from `n` on have been placed. */
  ghost function Shuffled<T>(s: seq<T>, n: nat, draws: seq<Draw>): (r: seq<T>)
    requires n <= |s| && Enough(draws, n)
    ensures |r| == |s|
    decreases n
  {
    if n <= 1 then s else Shuffled(Swap(s, n - 1, Pick(draws[0], n)), n - 1, draws[1..])
  }

  method ShuffleCopy<T>(events: seq<T>, draws: seq<Draw>) returns (copy: array<T>)
    requires Enough(draws, |events|)
    ensures fresh(copy) && copy[..] == Shuffled(events, |events|, draws)
  {
    copy := new T[|events|](k requires 0 <= k < |events| => events[k]);
    assert copy[..] == events;
    var i := |events| - 1;
    ghost var left := draws;
    while i > 0
      invariant -1 <= i < |events| && (i < 0 ==> events == [])
      invariant left == if i < 0 then [] else draws[|events| - 1 - i..]
      invariant Shuffled(copy[..], i + 1, left) == Shuffled(events, |events|, draws)
    {
      var j := Pick(draws[|events| - 1 - i], i + 1);
      ghost var before := copy[..];
      copy[i], copy[j] := copy[j], copy[i];
      assert copy[..] == Swap(before, i, j);
      i, left := i - 1, left[1..];
    }
  }

  // ---------- Its schedules are exactly the permutations ----------

  lemma SwapPermutes<T>(s: seq<T>, i: nat, j: nat)
    requires i < |s| && j < |s|
    ensures multiset(Swap(s, i, j)) == multiset(s)
  {
  }

  lemma {:induction false} ShufflePermutes<T>(s: seq<T>, n: nat, draws: seq<Draw>)
    requires n <= |s| && Enough(draws, n)
    ensures multiset(Shuffled(s, n, draws)) == multiset(s)
    decreases n
  {
    if n > 1 {
      var j := Pick(draws[0], n);
      SwapPermutes(s, n - 1, j);
      ShufflePermutes(Swap(s, n - 1, j), n - 1, draws[1..]);
    }
  }

  /** Some draw selects each index. */
  lemma DrawFor(j: nat, n: nat) returns (draw: Draw)
    requires j < n <= RANGE
    ensures Pick(draw, n) == j
  {
    var d, rest := (j * RANGE + n - 1) / n, (j * RANGE + n - 1) % n;
    assert d * n == j * RANGE + (n - 1 - rest);
    assert d < RANGE by { DrawInRange(j, n, d); }
    draw := d;
    Quotient(draw * n, j, n - 1 - rest);
  }

  lemma DrawInRange(j: nat, n: nat, d: nat)
    requires j < n <= RANGE && d * n <= j * RANGE + n - 1
    ensures d < RANGE
  {
    assert d >= RANGE ==> d * n >= RANGE * n;
  }

  lemma Quotient(x: nat, j: nat, rest: nat)
    requires x == j * RANGE + rest && rest < RANGE
    ensures x / RANGE == j
  {
  }

  lemma Unsnoc<T>(s: seq<T>)
    requires s != []
    ensures multiset(s[..|s| - 1]) == multiset(s) - multiset{s[|s| - 1]}
  {
    assert s == s[..|s| - 1] + [s[|s| - 1]];
  }

  /** Two arrangements with the same last element arrange the same rest. */
  lemma SameRest<T>(r: seq<T>, q: seq<T>)
    requires |r| == |q| > 0 && r[|r| - 1] == q[|q| - 1] && multiset(r) == multiset(q)
    ensures multiset(r[..|r| - 1]) == multiset(q[..|q| - 1])
  {
    Unsnoc(r);
    Unsnoc(q);
  }

  /** Elements that are already in place do not take part. */
  lemma {:induction false} ShuffleKeepsLast<T>(s: seq<T>, x: T, n: nat, draws: seq<Draw>)
    requires n <= |s| && Enough(draws, n)
    ensures Shuffled(s + [x], n, draws) == Shuffled(s, n, draws) + [x]
    decreases n
  {
    if n > 1 {
      var j := Pick(draws[0], n);
      assert Swap(s + [x], n - 1, j) == Swap(s, n - 1, j) + [x];
      ShuffleKeepsLast(Swap(s, n - 1, j), x, n - 1, draws[1..]);
    }
  }

  lemma Occurs<T>(s: seq<T>, x: T) returns (j: nat)
    requires x in multiset(s)
    ensures j < |s| && s[j] == x
  {
    j :| 0 <= j < |s| && s[j] == x;
  }

  /** Swapping the right element to the end leaves an arrangement of the rest. */
  lemma PlacedLast<T>(s: seq<T>, q: seq<T>, j: nat)
    requires j < |s| == |q| && s[j] == q[|q| - 1] && multiset(s) == multiset(q)
    ensures multiset(Swap(s, |s| - 1, j)[..|s| - 1]) == multiset(q[..|s| - 1])
  {
    SwapPermutes(s, |s| - 1, j);
    SameRest(Swap(s, |s| - 1, j), q);
  }

  lemma OneArrangement<T>(s: seq<T>, q: seq<T>)
    requires |s| == |q| <= 1 && multiset(s) == multiset(q)
    ensures s == q
  {
    assert |s| == 1 ==> s[0] in multiset(q);
  }

  lemma ShuffledLast<T>(s: seq<T>, q: seq<T>, j: nat, draw: Draw, rest: seq<Draw>)
    requires 1 < |s| == |q| && j < |s| && s[j] == q[|q| - 1] && j == Pick(draw, |s|) && Enough(rest, |s| - 1)
    requires Shuffled(Swap(s, |s| - 1, j)[..|s| - 1], |s| - 1, rest) == q[..|s| - 1]
    ensures Shuffled(s, |s|, [draw] + rest) == q
  {
    var n, r := |s|, Swap(s, |s| - 1, j);
    ShuffleKeepsLast(r[..n - 1], q[n - 1], n - 1, rest);
    assert r == r[..n - 1] + [q[n - 1]] && q == q[..n - 1] + [q[n - 1]];
    assert ([draw] + rest)[1..] == rest;
  }

  /** Every order of the elements comes from some draws. */
  lemma {:induction false} ShuffleReaches<T>(s: seq<T>, q: seq<T>) returns (draws: seq<Draw>)
    requires |s| == |q| <= RANGE && multiset(s) == multiset(q)
    ensures Enough(draws, |s|) && Shuffled(s, |s|, draws) == q
    decreases |s|
  {
    var n := |s|;
    if n <= 1 {
      draws := [];
      OneArrangement(s, q);
    } else {
      var j := Occurs(s, q[n - 1]);
      var draw := DrawFor(j, n);
      PlacedLast(s, q, j);
      var rest := ShuffleReaches(Swap(s, n - 1, j)[..n - 1], q[..n - 1]);
      ShuffledLast(s, q, j, draw, rest);
      draws := [draw] + rest;
    }
  }

  /** The schedules of a batch are exactly its permutations. */
  lemma SchedulesArePermutations<T>(s: seq<T>, q: seq<T>)
    requires |s| <= RANGE
    ensures multiset(q) == multiset(s) <==> exists draws: seq<Draw> :: Enough(draws, |s|) && Shuffled(s, |s|, draws) == q
  {
    if multiset(q) == multiset(s) {
      assert |q| == |multiset(q)| == |multiset(s)| == |s|;
      var draws := ShuffleReaches(s, q);
    }
    forall draws: seq<Draw> | Enough(draws, |s|) && Shuffled(s, |s|, draws) == q ensures multiset(q) == multiset(s) {
      ShufflePermutes(s, |s|, draws);
    }
  }
}
