/**
 * Ranking candidates: `list.sort(key=...)` is a stable sort on a key computed
 * once per element. Here the keys are computed up front and paired with the
 * Steps; the stable sort is an insertion sort, given once as a function (the
 * specification) and once as an in-place method over an array.
 */
module Ranking {
  import opened Steps

  /** A sort key: `(cumulative_move_count, includes_niss, requires_niss, tie_break)`. */
  datatype SortKey = SortKey(moveCount: int, includesNiss: bool, requiresNiss: bool, tieBreak: real)

  /** Python orders False before True. */
  predicate BoolLess(a: bool, b: bool) {
    !a && b
  }

  /** Python's tuple comparison `a < b` on sort keys. */
  predicate KeyLess(a: SortKey, b: SortKey) {
    || a.moveCount < b.moveCount
    || (a.moveCount == b.moveCount && BoolLess(a.includesNiss, b.includesNiss))
    || (a.moveCount == b.moveCount && a.includesNiss == b.includesNiss && BoolLess(a.requiresNiss, b.requiresNiss))
    || (a.moveCount == b.moveCount && a.includesNiss == b.includesNiss && a.requiresNiss == b.requiresNiss
        && a.tieBreak < b.tieBreak)
  }

  /** A Step together with its sort key. */
  datatype Ranked = Ranked(key: SortKey, item: Step)

  predicate SortedByKey(s: seq<Ranked>) {
    forall i, j :: 0 <= i < j < |s| ==> !KeyLess(s[j].key, s[i].key)
  }

  /** Inserting into a sorted list from the right: `x` goes after every element whose key is not greater. */
  function Insert(s: seq<Ranked>, x: Ranked): (r: seq<Ranked>)
    ensures |r| == |s| + 1
    decreases |s|
  {
    if s == [] then [x]
    else if KeyLess(x.key, s[|s| - 1].key) then
      assert s == s[..|s| - 1] + [s[|s| - 1]];
      Insert(s[..|s| - 1], x) + [s[|s| - 1]]
    else s + [x]
  }

  /** The stable sort by key: insert the elements one after the other, from the first. */
  function SortRanked(s: seq<Ranked>): (r: seq<Ranked>)
    ensures |r| == |s|
    decreases |s|
  {
    if s == [] then [] else Insert(SortRanked(s[..|s| - 1]), s[|s| - 1])
  }

  /** Where `Insert` puts `x`: after the last element whose key is not greater than `x`'s. */
  lemma {:induction false} InsertPosition(p: seq<Ranked>, x: Ranked, j: int)
    requires 0 <= j <= |p|
    requires j == 0 || !KeyLess(x.key, p[j - 1].key)
    requires forall k :: j <= k < |p| ==> KeyLess(x.key, p[k].key)
    ensures Insert(p, x) == p[..j] + [x] + p[j..]
    decreases |p|
  {
    if j < |p| {
      var init, last := p[..|p| - 1], p[|p| - 1];
      assert Insert(p, x) == Insert(init, x) + [last] by {
        assert KeyLess(x.key, last.key);
      }
      assert Insert(init, x) == init[..j] + [x] + init[j..] by {
        forall k | j <= k < |init|
          ensures KeyLess(x.key, init[k].key)
        {
          assert init[k] == p[k];
        }
        assert j == 0 || init[j - 1] == p[j - 1];
        InsertPosition(init, x, j);
      }
      assert init[..j] == p[..j];
      assert init[j..] + [last] == p[j..];
    } else {
      assert p[..j] == p;
      assert p[j..] == [];
    }
  }

  /** One step of the insertion sort: `a[i]` moves left past every greater key in `a[..i]`. */
  method InsertInPlace(a: array<Ranked>, i: int)
    requires 0 <= i < a.Length
    modifies a
    ensures a[..i + 1] == Insert(old(a[..i]), old(a[i]))
    ensures forall k :: i < k < a.Length ==> a[k] == old(a[k])
  {
    var x := a[i];
    ghost var p := a[..i];
    var j := i;
    while j > 0 && KeyLess(x.key, a[j - 1].key)
      invariant 0 <= j <= i
      invariant forall k :: 0 <= k < j ==> a[k] == p[k]
      invariant forall k :: j < k <= i ==> a[k] == p[k - 1]
      invariant forall k :: j <= k < i ==> KeyLess(x.key, p[k].key)
      invariant forall k :: i < k < a.Length ==> a[k] == old(a[k])
      decreases j
    {
      a[j] := a[j - 1];
      j := j - 1;
    }
    a[j] := x;
    InsertPosition(p, x, j);
    assert a[..i + 1] == p[..j] + [x] + p[j..];
  }

  /** Python's `list.sort` on the decorated list, in place: insertion sort of an array. */
  method SortInPlace(a: array<Ranked>)
    modifies a
    ensures a[..] == SortRanked(old(a[..]))
  {
    ghost var orig := a[..];
    for i := 0 to a.Length
      invariant a[..i] == SortRanked(orig[..i])
      invariant a[i..] == orig[i..]
    {
      assert orig[..i + 1] == orig[..i] + [orig[i]];
      InsertInPlace(a, i);
    }
    assert a[..a.Length] == a[..] && orig[..a.Length] == orig;
  }

  lemma {:induction false} InsertMultiset(s: seq<Ranked>, x: Ranked)
    ensures multiset(Insert(s, x)) == multiset(s) + multiset{x}
    decreases |s|
  {
    if s != [] && KeyLess(x.key, s[|s| - 1].key) {
      InsertMultiset(s[..|s| - 1], x);
      assert s == s[..|s| - 1] + [s[|s| - 1]];
    }
  }

  /** Python's `list.sort(key=...)`: the i-th element is sorted under the i-th key, all keys taken beforehand. */
  function Pair(keys: seq<SortKey>, items: seq<Step>): (r: seq<Ranked>)
    requires |keys| == |items|
    ensures |r| == |items| && forall i :: 0 <= i < |r| ==> r[i] == Ranked(keys[i], items[i])
  {
    seq(|items|, i requires 0 <= i < |items| => Ranked(keys[i], items[i]))
  }

  /** Sort an array of Steps in place under the given keys. */
  method SortByKeys(a: array<Step>, keys: seq<SortKey>)
    requires |keys| == a.Length
    modifies a
    ensures a[..] == Items(SortRanked(Pair(keys, old(a[..]))))
  {
    var d := new Ranked[a.Length](i reads a requires 0 <= i < a.Length => Ranked(keys[i], a[i]));
    assert d[..] == Pair(keys, a[..]);
    SortInPlace(d);
    ghost var sorted := d[..];
    for i := 0 to a.Length
      invariant d[..] == sorted
      invariant forall k :: 0 <= k < i ==> a[k] == sorted[k].item
    {
      a[i] := d[i].item;
    }
    assert a[..] == Items(sorted);
  }

  lemma {:induction false} InsertSorted(s: seq<Ranked>, x: Ranked)
    requires SortedByKey(s)
    ensures SortedByKey(Insert(s, x))
    decreases |s|
  {
    if s != [] {
      var init, last := s[..|s| - 1], s[|s| - 1];
      if KeyLess(x.key, last.key) {
        InsertSorted(init, x);
        var r := Insert(init, x);
        InsertMultiset(init, x);
        forall y | y in r
          ensures !KeyLess(last.key, y.key)
        {
          assert y in multiset(init) + multiset{x};
        }
      }
    }
  }

  /** The sort permutes the decorated elements. */
  lemma {:induction false} SortMultiset(s: seq<Ranked>)
    ensures multiset(SortRanked(s)) == multiset(s)
    decreases |s|
  {
    if s != [] {
      SortMultiset(s[..|s| - 1]);
      InsertMultiset(SortRanked(s[..|s| - 1]), s[|s| - 1]);
      assert s == s[..|s| - 1] + [s[|s| - 1]];
    }
  }

  /** The sort orders by key. */
  lemma {:induction false} SortRankedSorted(s: seq<Ranked>)
    ensures SortedByKey(SortRanked(s))
    decreases |s|
  {
    if s != [] {
      SortRankedSorted(s[..|s| - 1]);
      InsertSorted(SortRanked(s[..|s| - 1]), s[|s| - 1]);
    }
  }

  /** A projection of every element of a list. */
  function Project<X>(f: Ranked -> X, s: seq<Ranked>): (r: seq<X>)
    ensures |r| == |s| && forall i :: 0 <= i < |s| ==> r[i] == f(s[i])
  {
    seq(|s|, i requires 0 <= i < |s| => f(s[i]))
  }

  function ItemOf(r: Ranked): Step {
    r.item
  }

  /** The Steps of a decorated list, in order. */
  function Items(s: seq<Ranked>): seq<Step> {
    Project(ItemOf, s)
  }

  lemma {:induction false} InsertProject<X>(f: Ranked -> X, s: seq<Ranked>, x: Ranked)
    ensures multiset(Project(f, Insert(s, x))) == multiset(Project(f, s)) + multiset{f(x)}
    decreases |s|
  {
    if s != [] {
      var init, last := s[..|s| - 1], s[|s| - 1];
      assert s == init + [last];
      assert Project(f, s) == Project(f, init) + [f(last)];
      if KeyLess(x.key, last.key) {
        InsertProject(f, init, x);
        assert Project(f, Insert(s, x)) == Project(f, Insert(init, x)) + [f(last)];
      } else {
        assert Project(f, s + [x]) == Project(f, s) + [f(x)];
      }
    }
  }

  /** The sort permutes: any projection of the elements keeps its multiset. */
  lemma {:induction false} SortProject<X>(f: Ranked -> X, s: seq<Ranked>)
    ensures multiset(Project(f, SortRanked(s))) == multiset(Project(f, s))
    decreases |s|
  {
    if s != [] {
      var init, last := s[..|s| - 1], s[|s| - 1];
      SortProject(f, init);
      InsertProject(f, SortRanked(init), last);
      assert s == init + [last];
      assert Project(f, s) == Project(f, init) + [f(last)];
    }
  }

  /** The Steps of `s` whose key is `k`, in order. */
  function ItemsWithKey(s: seq<Ranked>, k: SortKey): seq<Step> {
    if s == [] then []
    else ItemsWithKey(s[..|s| - 1], k) + (if s[|s| - 1].key == k then [s[|s| - 1].item] else [])
  }

  lemma {:induction false} InsertStable(s: seq<Ranked>, x: Ranked, k: SortKey)
    ensures ItemsWithKey(Insert(s, x), k) == ItemsWithKey(s, k) + (if x.key == k then [x.item] else [])
    decreases |s|
  {
    if s == [] {
      assert [x][..0] == [];
    } else {
      var init, last := s[..|s| - 1], s[|s| - 1];
      if KeyLess(x.key, last.key) {
        InsertStable(init, x, k);
        var r := Insert(init, x);
        assert (r + [last])[..|r + [last]| - 1] == r;
      } else {
        assert (s + [x])[..|s + [x]| - 1] == s;
      }
    }
  }

  /** The sort is stable: the elements sharing a key keep their relative order. */
  lemma {:induction false} SortStable(s: seq<Ranked>, k: SortKey)
    ensures ItemsWithKey(SortRanked(s), k) == ItemsWithKey(s, k)
    decreases |s|
  {
    if s != [] {
      SortStable(s[..|s| - 1], k);
      InsertStable(SortRanked(s[..|s| - 1]), s[|s| - 1], k);
    }
  }

  /** `(moveCount, includesNiss, requiresNiss)` as one integer with the same order. */
  function PrimaryRank(k: SortKey): int {
    4 * k.moveCount + (if k.includesNiss then 2 else 0) + (if k.requiresNiss then 1 else 0)
  }

  function RankOf(r: Ranked): int {
    PrimaryRank(r.key)
  }

  predicate NonDecreasing(s: seq<int>) {
    forall i, j :: 0 <= i < j < |s| ==> s[i] <= s[j]
  }

  lemma SameHead(a: seq<int>, b: seq<int>)
    requires a != [] && NonDecreasing(a) && NonDecreasing(b) && multiset(a) == multiset(b)
    ensures b != [] && a[0] == b[0]
  {
    assert a[0] in multiset(b);
    var k :| 0 <= k < |b| && b[k] == a[0];
    assert b[0] in multiset(a);
    var m :| 0 <= m < |a| && a[m] == b[0];
  }

  lemma SameTail(a: seq<int>, b: seq<int>)
    requires a != [] && b != [] && a[0] == b[0] && multiset(a) == multiset(b)
    ensures multiset(a[1..]) == multiset(b[1..])
  {
    assert a == [a[0]] + a[1..];
    assert b == [b[0]] + b[1..];
    assert multiset(a) == multiset{a[0]} + multiset(a[1..]);
    assert multiset(b) == multiset{a[0]} + multiset(b[1..]);
    forall v
      ensures multiset(a[1..])[v] == multiset(b[1..])[v]
    {
      assert multiset(a)[v] == multiset{a[0]}[v] + multiset(a[1..])[v];
      assert multiset(b)[v] == multiset{a[0]}[v] + multiset(b[1..])[v];
    }
  }

  /** Two non-decreasing lists of integers with the same elements are the same list. */
  lemma {:induction false} SortedUnique(a: seq<int>, b: seq<int>)
    requires NonDecreasing(a) && NonDecreasing(b) && multiset(a) == multiset(b)
    ensures a == b
    decreases |a|
  {
    if a == [] {
      assert |b| == |multiset(b)| == |multiset(a)| == 0;
    } else {
      SameHead(a, b);
      SameTail(a, b);
      SortedUnique(a[1..], b[1..]);
      assert a == [a[0]] + a[1..] && b == [b[0]] + b[1..];
    }
  }

  /** Sorting by key also sorts by the primary rank, which ignores the tie-break. */
  lemma SortedPrimary(s: seq<Ranked>)
    requires SortedByKey(s)
    ensures NonDecreasing(Project(RankOf, s))
  {
  }

  /**
   * The tie-break only reorders ties: two lists whose elements agree on
   * everything but the tie-break come out of the sort with the same sequence
   * of primary ranks.
   */
  lemma TieBreakOnlyReorders(s: seq<Ranked>, t: seq<Ranked>)
    requires Project(RankOf, s) == Project(RankOf, t)
    ensures Project(RankOf, SortRanked(s)) == Project(RankOf, SortRanked(t))
  {
    SortRankedSorted(s);
    SortRankedSorted(t);
    SortedPrimary(SortRanked(s));
    SortedPrimary(SortRanked(t));
    SortProject(RankOf, s);
    SortProject(RankOf, t);
    SortedUnique(Project(RankOf, SortRanked(s)), Project(RankOf, SortRanked(t)));
  }
}
