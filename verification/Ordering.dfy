/**
 * The newest-first keyset order used by every listing, and sorting by it.
 *
 * A position is a millisecond timestamp and an id. Positions are ordered by
 * timestamp descending, then by id descending.
 */
module Ordering {
  import opened Basics

  datatype Pos = Pos(ms: int, id: string)

  /**
   * Strings compare by UTF-16 code units. For whole characters that is the order
   * of Rank: a supplementary character starts with a surrogate, so it sorts
   * above U+D7FF and below U+E000.
   */
  function Rank(c: char): int {
    var n := c as int;
    if n < 0xD800 then n
    else if n >= 0x1_0000 then n - 0x1_0000 + 0xD800
    else n + 0x11_0000
  }

  /** The UTF-16 code units of a character; the second is -1 where there is only one. */
  function Units(c: char): (int, int) {
    var n := c as int;
    if n < 0x1_0000 then (n, -1) else (0xD800 + (n - 0x1_0000) / 0x400, 0xDC00 + (n - 0x1_0000) % 0x400)
  }

  /** Rank orders characters by their code units. */
  lemma RankIsUtf16(a: char, b: char)
    ensures Rank(a) < Rank(b) <==> Units(a).0 < Units(b).0 || (Units(a).0 == Units(b).0 && Units(a).1 < Units(b).1)
  {
  }

  predicate TextLess(a: string, b: string) {
    if b == [] then false
    else if a == [] then true
    else if a[0] == b[0] then TextLess(a[1..], b[1..])
    else Rank(a[0]) < Rank(b[0])
  }

  lemma {:induction false} TextLessTotal(a: string, b: string)
    ensures (if TextLess(a, b) then 1 else 0) + (if TextLess(b, a) then 1 else 0) + (if a == b then 1 else 0) == 1
  {
    if a != [] && b != [] && a[0] == b[0] {
      TextLessTotal(a[1..], b[1..]);
      assert a == [a[0]] + a[1..] && b == [b[0]] + b[1..];
    }
  }

  lemma {:induction false} TextLessTransitive(a: string, b: string, c: string)
    requires TextLess(a, b) && TextLess(b, c)
    ensures TextLess(a, c)
  {
    if a != [] && a[0] == b[0] && b[0] == c[0] {
      TextLessTransitive(a[1..], b[1..], c[1..]);
    }
  }

  /** compareStable: negative when a sorts first. */
  function CompareStable(a: Pos, b: Pos): int {
    if a.ms != b.ms then b.ms - a.ms
    else if TextLess(a.id, b.id) then 1
    else if TextLess(b.id, a.id) then -1
    else 0
  }

  predicate Before(a: Pos, b: Pos) {
    CompareStable(a, b) < 0
  }

  /** Later instants come first, and among equal ones greater ids. */
  lemma BeforeExactly(a: Pos, b: Pos)
    ensures Before(a, b) <==> a.ms > b.ms || (a.ms == b.ms && TextLess(b.id, a.id))
  {
    TextLessTotal(a.id, b.id);
  }

  /** Texts compare at the first character in which they differ, and a proper prefix comes first. */
  lemma {:induction false} TextLessExactly(a: string, b: string)
    ensures TextLess(a, b) <==>
      (exists k :: 0 <= k <= |a| && k < |b| && a[..k] == b[..k] && (k == |a| || Rank(a[k]) < Rank(b[k])))
  {
    if a != [] && b != [] && a[0] == b[0] {
      TextLessExactly(a[1..], b[1..]);
      if TextLess(a[1..], b[1..]) {
        var k :| 0 <= k <= |a[1..]| && k < |b[1..]| && a[1..][..k] == b[1..][..k] && (k == |a[1..]| || Rank(a[1..][k]) < Rank(b[1..][k]));
        assert a[..k + 1] == [a[0]] + a[1..][..k] && b[..k + 1] == [b[0]] + b[1..][..k];
      }
      if k :| 0 <= k <= |a| && k < |b| && a[..k] == b[..k] && (k == |a| || Rank(a[k]) < Rank(b[k])) {
        assert k > 0;
        assert a[1..][..k - 1] == a[..k][1..] && b[1..][..k - 1] == b[..k][1..];
      }
    } else if b != [] {
      assert a[..0] == b[..0];
      forall k | 0 < k <= |a| && k < |b| ensures a[..k] != b[..k] {
        assert a[..k][0] == a[0] && b[..k][0] == b[0];
      }
    }
  }

  /** The order is total: exactly one of before, after and equal, as the comparator's sign says. */
  lemma CompareStableTotal(a: Pos, b: Pos)
    ensures Before(a, b) <==> CompareStable(b, a) > 0
    ensures CompareStable(a, b) == 0 <==> a == b
    ensures !(Before(a, b) && Before(b, a))
    ensures Before(a, b) || Before(b, a) || a == b
  {
    TextLessTotal(a.id, b.id);
  }

  lemma BeforeTransitive(a: Pos, b: Pos, c: Pos)
    requires Before(a, b) && Before(b, c)
    ensures Before(a, c)
  {
    TextLessTotal(a.id, b.id);
    TextLessTotal(b.id, c.id);
    TextLessTotal(a.id, c.id);
    if a.ms == b.ms == c.ms {
      TextLessTransitive(c.id, b.id, a.id);
    }
  }

  /** a <= b and b < c, or a < b and b <= c, gives a < c. */
  lemma BeforeTransitiveWeak(a: Pos, b: Pos, c: Pos)
    requires !Before(b, a) && !Before(c, b)
    ensures !Before(c, a)
    ensures Before(a, b) || Before(b, c) ==> Before(a, c)
  {
    CompareStableTotal(a, b);
    CompareStableTotal(b, c);
    CompareStableTotal(a, c);
    if Before(a, b) && Before(b, c) {
      BeforeTransitive(a, b, c);
    }
  }

  // ---------- Sorting by position ----------

  ghost predicate Sorted<T(!new)>(key: T -> Pos, s: seq<T>) {
    forall i, j :: 0 <= i < j < |s| ==> !Before(key(s[j]), key(s[i]))
  }

  ghost predicate StrictlySorted<T(!new)>(key: T -> Pos, s: seq<T>) {
    forall i, j :: 0 <= i < j < |s| ==> Before(key(s[i]), key(s[j]))
  }

  /** Stable insertion: x goes behind every element that does not sort after it. */
  function Insert<T>(key: T -> Pos, x: T, s: seq<T>): seq<T> {
    if s == [] then [x]
    else if Before(key(x), key(s[0])) then [x] + s
    else [s[0]] + Insert(key, x, s[1..])
  }

  /** Array.prototype.sort with the stable comparator. */
  function Sort<T>(key: T -> Pos, s: seq<T>): seq<T> {
    if s == [] then [] else Insert(key, s[|s| - 1], Sort(key, s[..|s| - 1]))
  }

  lemma {:induction false} InsertMultiset<T>(key: T -> Pos, x: T, s: seq<T>)
    ensures multiset(Insert(key, x, s)) == multiset(s) + multiset{x}
  {
    if s != [] && !Before(key(x), key(s[0])) {
      InsertMultiset(key, x, s[1..]);
      assert s == [s[0]] + s[1..];
    }
  }

  lemma {:induction false} SortMultiset<T>(key: T -> Pos, s: seq<T>)
    ensures multiset(Sort(key, s)) == multiset(s)
    ensures |Sort(key, s)| == |s|
  {
    if s != [] {
      SortMultiset(key, s[..|s| - 1]);
      InsertMultiset(key, s[|s| - 1], Sort(key, s[..|s| - 1]));
      assert s == s[..|s| - 1] + [s[|s| - 1]];
    }
    assert |multiset(Sort(key, s))| == |multiset(s)|;
  }

  lemma SameElements<T>(a: seq<T>, b: seq<T>)
    requires multiset(a) == multiset(b)
    ensures forall x :: x in a <==> x in b
  {
    forall x ensures x in a <==> x in b {
      assert x in a <==> x in multiset(a);
    }
  }

  lemma SortElements<T>(key: T -> Pos, s: seq<T>)
    ensures forall x :: x in Sort(key, s) <==> x in s
  {
    SortMultiset(key, s);
    SameElements(Sort(key, s), s);
  }

  /** Insertion splits a sorted list at the first element that sorts after x. */
  lemma {:induction false} InsertAt<T(!new)>(key: T -> Pos, x: T, s: seq<T>, k: nat)
    requires k <= |s|
    requires forall i :: 0 <= i < k ==> !Before(key(x), key(s[i]))
    requires k < |s| ==> Before(key(x), key(s[k]))
    ensures Insert(key, x, s) == s[..k] + [x] + s[k..]
  {
    if k == 0 {
      assert s[..0] + [x] + s[0..] == [x] + s;
    } else {
      var t := s[1..];
      InsertAt(key, x, t, k - 1);
      assert t[..k - 1] + [x] + t[k - 1..] == s[1..k] + [x] + s[k..];
      assert [s[0]] + (s[1..k] + [x] + s[k..]) == s[..k] + [x] + s[k..];
    }
  }

  /** Where a sorted list splits around x. */
  lemma SplitPoint<T(!new)>(key: T -> Pos, x: T, s: seq<T>) returns (k: nat)
    requires Sorted(key, s)
    ensures k <= |s|
    ensures forall i :: 0 <= i < k ==> !Before(key(x), key(s[i]))
    ensures forall i :: k <= i < |s| ==> Before(key(x), key(s[i]))
  {
    k := 0;
    while k < |s| && !Before(key(x), key(s[k]))
      invariant k <= |s|
      invariant forall i :: 0 <= i < k ==> !Before(key(x), key(s[i]))
    {
      k := k + 1;
    }
    forall i | k <= i < |s| ensures Before(key(x), key(s[i])) {
      if k < i {
        CompareStableTotal(key(x), key(s[k]));
        BeforeTransitiveWeak(key(x), key(s[k]), key(s[i]));
      }
    }
  }

  lemma InsertSorted<T(!new)>(key: T -> Pos, x: T, s: seq<T>)
    requires Sorted(key, s)
    ensures Sorted(key, Insert(key, x, s))
  {
    var k := SplitPoint(key, x, s);
    InsertAt(key, x, s, k);
    var r := s[..k] + [x] + s[k..];
    forall i, j | 0 <= i < j < |r| ensures !Before(key(r[j]), key(r[i])) {
      CompareStableTotal(key(r[i]), key(r[j]));
    }
  }

  lemma {:induction false} SortSorted<T(!new)>(key: T -> Pos, s: seq<T>)
    ensures Sorted(key, Sort(key, s))
  {
    if s != [] {
      SortSorted(key, s[..|s| - 1]);
      InsertSorted(key, s[|s| - 1], Sort(key, s[..|s| - 1]));
    }
  }

  ghost predicate DistinctKeys<T(!new)>(key: T -> Pos, s: seq<T>) {
    forall i, j :: 0 <= i < j < |s| ==> key(s[i]) != key(s[j])
  }

  /** Distinct positions sort strictly. */
  lemma {:induction false} SortStrict<T(!new)>(key: T -> Pos, s: seq<T>)
    requires DistinctKeys(key, s)
    ensures StrictlySorted(key, Sort(key, s))
  {
    if s != [] {
      var h, x := s[..|s| - 1], s[|s| - 1];
      var t := Sort(key, h);
      SortStrict(key, h);
      SortElements(key, h);
      forall i | 0 <= i < |t| ensures key(t[i]) != key(x) {
        assert t[i] in t;
      }
      InsertStrict(key, x, t);
    }
  }

  lemma {:induction false} InsertStrict<T(!new)>(key: T -> Pos, x: T, s: seq<T>)
    requires StrictlySorted(key, s) && forall i :: 0 <= i < |s| ==> key(s[i]) != key(x)
    ensures StrictlySorted(key, Insert(key, x, s))
  {
    if s == [] {
    } else if Before(key(x), key(s[0])) {
      forall j | 1 <= j < |s| ensures Before(key(x), key(s[j])) {
        BeforeTransitive(key(x), key(s[0]), key(s[j]));
      }
    } else {
      var t := Insert(key, x, s[1..]);
      InsertStrict(key, x, s[1..]);
      InsertMultiset(key, x, s[1..]);
      CompareStableTotal(key(x), key(s[0]));
      forall j | 0 <= j < |t| ensures Before(key(s[0]), key(t[j])) {
        assert t[j] in multiset(t);
        assert t[j] == x || t[j] in s[1..];
      }
    }
  }

  // ---------- Sorting and filtering commute ----------

  lemma {:induction false} FilterInsert<T(!new)>(key: T -> Pos, p: T -> bool, x: T, s: seq<T>)
    requires Sorted(key, s)
    ensures Filter(p, Insert(key, x, s)) == if p(x) then Insert(key, x, Filter(p, s)) else Filter(p, s)
  {
    if s == [] {
    } else if Before(key(x), key(s[0])) {
      var r := Filter(p, s);
      assert ([x] + s)[1..] == s;
      if p(x) {
        FilterIn(p, s);
        forall y | y in r ensures Before(key(x), key(y)) {
          var i :| 0 <= i < |s| && s[i] == y;
          if i > 0 {
            CompareStableTotal(key(x), key(s[0]));
            BeforeTransitiveWeak(key(x), key(s[0]), key(s[i]));
          }
        }
        assert r != [] ==> r[0] in r;
      }
    } else {
      FilterInsert(key, p, x, s[1..]);
      var t := Insert(key, x, s[1..]);
      assert ([s[0]] + t)[1..] == t;
      var f := Filter(p, s[1..]);
      if p(s[0]) {
        assert ([s[0]] + f)[1..] == f;
      }
    }
  }

  lemma {:induction false} FilterSort<T(!new)>(key: T -> Pos, p: T -> bool, s: seq<T>)
    ensures Filter(p, Sort(key, s)) == Sort(key, Filter(p, s))
  {
    if s != [] {
      var h, x := s[..|s| - 1], s[|s| - 1];
      assert s == h + [x];
      FilterAppend(p, h, [x]);
      FilterSort(key, p, h);
      SortSorted(key, h);
      FilterInsert(key, p, x, Sort(key, h));
      var f := Filter(p, s);
      if p(x) {
        assert Filter(p, [x]) == [x];
        assert f == Filter(p, h) + [x];
        assert f[..|f| - 1] == Filter(p, h);
      } else {
        assert Filter(p, [x]) == [];
        assert f == Filter(p, h);
      }
    }
  }

  /** Everything behind position k of a strictly sorted list is its tail from k + 1. */
  lemma FilterAfter<T(!new)>(key: T -> Pos, p: T -> bool, s: seq<T>, k: nat)
    requires StrictlySorted(key, s) && k < |s|
    requires forall x :: x in s ==> p(x) == Before(key(s[k]), key(x))
    ensures Filter(p, s) == s[k + 1..]
  {
    FilterSuffix(key, p, s, k, 0);
    assert s[0..] == s;
  }

  lemma {:induction false} FilterSuffix<T(!new)>(key: T -> Pos, p: T -> bool, s: seq<T>, k: nat, i: nat)
    requires StrictlySorted(key, s) && k < |s| && i <= |s|
    requires forall x :: x in s ==> p(x) == Before(key(s[k]), key(x))
    ensures Filter(p, s[i..]) == if i <= k then s[k + 1..] else s[i..]
    decreases |s| - i
  {
    if i < |s| {
      FilterSuffix(key, p, s, k, i + 1);
      CompareStableTotal(key(s[i]), key(s[k]));
      assert s[i..] == [s[i]] + s[i + 1..];
      assert s[i] in s;
    }
  }
}
