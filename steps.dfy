/**
 * The history of a solution attempt: a chain of Steps, each holding the moves
 * one stage contributed on the normal side and on the inverse side (NISS), and
 * a back-reference to the Step it extends. Steps are never changed after they
 * are built, so the chain is a value.
 */
module Steps {
  import opened Wrappers
  import opened PyText
  import opened Moves

  /** One stage's contribution; `previous == None` only for a root (the scramble, or an inverse root). */
  datatype Step = Step(name: string, moves: seq<string>, movesOnInverse: seq<string>, previous: Option<Step>)

  predicate IsRoot(s: Step) {
    s.previous.None?
  }

  /** The root at the start of the chain ending in `s`. */
  function Root(s: Step): (r: Step)
    ensures IsRoot(r)
    decreases s
  {
    match s.previous
    case None => s
    case Some(p) => Root(p)
  }

  /** `all_moves`: the whole history projected onto the normal side. */
  function AllMoves(s: Step): seq<string>
    decreases s
  {
    var before := match s.previous case None => [] case Some(p) => AllMoves(p);
    Invert(s.movesOnInverse) + before + s.moves
  }

  /** `on_inverse()`: the whole history, inverted, as the moves of a fresh root named "inverse". */
  function OnInverse(s: Step): (r: Step)
    ensures IsRoot(r) && r.name == "inverse" && r.movesOnInverse == []
  {
    Step("inverse", Invert(AllMoves(s)), [], None)
  }

  /** `move_count`: the raw number of moves of this one step; nothing cancels. */
  function MoveCount(s: Step): nat {
    |s.moves| + |s.movesOnInverse|
  }

  /** `cumulative_move_count`: the moves added after the root, which itself counts 0. */
  function CumulativeMoveCount(s: Step): nat
    decreases s
  {
    match s.previous
    case None => 0
    case Some(p) => CumulativeMoveCount(p) + MoveCount(s)
  }

  /** `includes_niss`: this one step uses both sides. */
  predicate IncludesNiss(s: Step) {
    |s.moves| > 0 && |s.movesOnInverse| > 0
  }

  /**
   * `requires_niss` as the source computes it. Python binds `^` tighter than
   * `>`, so the expression is the chained comparison
   * `len(moves) > (0 ^ len(previous.moves)) > 0`, that is
   * `len(moves) > len(previous.moves) > 0`, and the property is its negation.
   */
  predicate RequiresNiss(s: Step) {
    match s.previous
    case None => false
    case Some(p) =>
      if IncludesNiss(p) then false
      else !(|s.moves| > |p.moves| && |p.moves| > 0)
  }

  /**
   * The NISS flags case by case: a root never requires NISS and neither does a
   * step after one that used both sides; after an inverse-only step every step
   * does; after a normal-only step exactly the steps with no more normal moves
   * than it do.
   */
  lemma NissFlags(s: Step)
    ensures IncludesNiss(s) <==> s.moves != [] && s.movesOnInverse != []
    ensures s.previous.None? ==> !RequiresNiss(s)
    ensures s.previous.Some? && IncludesNiss(s.previous.value) ==> !RequiresNiss(s)
    ensures s.previous.Some? && !IncludesNiss(s.previous.value) && s.previous.value.moves == [] ==> RequiresNiss(s)
    ensures s.previous.Some? && !IncludesNiss(s.previous.value) && s.previous.value.moves != [] ==>
              (RequiresNiss(s) <==> |s.moves| <= |s.previous.value.moves|)
  {
  }

  /** The number of non-root steps on the chain ending in `s`. */
  function Depth(s: Step): nat
    decreases s
  {
    match s.previous
    case None => 0
    case Some(p) => Depth(p) + 1
  }

  /** What `from_beginning()` returns: the non-root steps of the chain in forward order. */
  function Chain(s: Step): seq<Step>
    decreases s
  {
    match s.previous
    case None => []
    case Some(p) => Chain(p) + [s]
  }

  function Reverse<T>(xs: seq<T>): (r: seq<T>)
    ensures |r| == |xs|
  {
    if xs == [] then [] else Reverse(xs[1..]) + [xs[0]]
  }

  lemma {:induction false} ReverseSnoc<T>(xs: seq<T>, x: T)
    ensures Reverse(xs + [x]) == [x] + Reverse(xs)
  {
    if xs != [] {
      assert (xs + [x])[1..] == xs[1..] + [x];
      ReverseSnoc(xs[1..], x);
    }
  }

  /** `from_beginning()`: walk back to the root collecting steps, then reverse the list. */
  method FromBeginning(s: Step) returns (steps: seq<Step>)
    ensures steps == Chain(s)
  {
    steps := [];
    var cur := s;
    while cur.previous.Some?
      invariant Chain(s) == Chain(cur) + Reverse(steps)
      decreases cur
    {
      ReverseSnoc(steps, cur);
      steps := steps + [cur];
      cur := cur.previous.value;
    }
    steps := Reverse(steps);
  }

  /** The chain of `s` is empty exactly for a root, has one element per non-root step, ends in `s`, and links each element to the one before it. */
  lemma {:induction false} ChainShape(s: Step)
    ensures (Chain(s) == []) == IsRoot(s)
    ensures |Chain(s)| == Depth(s)
    ensures !IsRoot(s) ==> Chain(s)[|Chain(s)| - 1] == s
    ensures !IsRoot(s) ==> Chain(s)[0].previous == Some(Root(s))
    ensures forall i :: 0 < i < |Chain(s)| ==> Chain(s)[i].previous == Some(Chain(s)[i - 1])
    decreases s
  {
    match s.previous
    case None =>
    case Some(p) =>
      ChainShape(p);
      if IsRoot(p) {
        assert Chain(s) == [s];
      }
  }

  /** The sum of the move counts of a list of steps. */
  function TotalMoveCount(steps: seq<Step>): nat {
    if steps == [] then 0 else TotalMoveCount(steps[..|steps| - 1]) + MoveCount(steps[|steps| - 1])
  }

  /** The cumulative count is the sum of the raw counts of every non-root step in the chain. */
  lemma {:induction false} CumulativeIsChainTotal(s: Step)
    ensures CumulativeMoveCount(s) == TotalMoveCount(Chain(s))
    decreases s
  {
    match s.previous
    case None =>
    case Some(p) =>
      CumulativeIsChainTotal(p);
      assert (Chain(p) + [s])[..|Chain(p) + [s]| - 1] == Chain(p);
  }

  /**
   * The chain of the repository's move-count example: `move_count` counts raw
   * moves, so `F2 U2 R` after `R F` counts 3 (not 2 with `F F2` merged), and
   * the cumulative counts are 3, 6, 9 and 12.
   */
  lemma RawCountsOfExampleChain()
    ensures var s := Step("1", ["U'", "D", "F'", "R'", "U", "F2", "U2", "F2", "U", "B'", "D2",
                                "R", "U2", "R", "U2", "L'", "D2", "R2", "B2", "L'", "U2", "D2"], [], None);
            var s2 := Step("2", ["R", "F"], ["D2"], Some(s));
            var s3 := Step("3", ["F2", "U2", "R"], [], Some(s2));
            var s4 := Step("4", [], ["U", "F2", "U"], Some(s3));
            var s5 := Step("5", ["R2", "F2", "L2"], [], Some(s4));
            && MoveCount(s2) == 3 && CumulativeMoveCount(s2) == 3
            && MoveCount(s3) == 3 && CumulativeMoveCount(s3) == 6
            && MoveCount(s4) == 3 && CumulativeMoveCount(s4) == 9
            && MoveCount(s5) == 3 && CumulativeMoveCount(s5) == 12
  {
  }

  /** The projected history holds every move of the chain: the counted ones and the root's. */
  lemma {:induction false} AllMovesLength(s: Step)
    ensures |AllMoves(s)| == CumulativeMoveCount(s) + MoveCount(Root(s))
    decreases s
  {
    match s.previous
    case None =>
    case Some(p) => AllMovesLength(p);
  }

  /** Re-rooting on the inverse: the new root costs nothing and projects to the inverse of the history, whose inverse is the history again. */
  lemma {:induction false} OnInverseRoundTrip(s: Step)
    ensures AllMoves(OnInverse(s)) == Invert(AllMoves(s))
    ensures Invert(AllMoves(OnInverse(s))) == AllMoves(s)
    ensures CumulativeMoveCount(OnInverse(s)) == 0
  {
    var r := OnInverse(s);
    assert AllMoves(r) == Invert([]) + [] + Invert(AllMoves(s));
    InvertInvolutive(AllMoves(s));
  }

  /** `str(step)`: the normal moves space-joined, then the inverse moves parenthesized, if any. */
  function StepText(s: Step): string {
    var normal := Join(s.moves, " ");
    var inverse := if s.movesOnInverse != [] then "(" + Join(s.movesOnInverse, " ") + ")" else "";
    if normal != "" && inverse != "" then normal + " " + inverse
    else if normal != "" then normal
    else inverse
  }

  // ----- MoveCountHistogram -----

  /** How many of `steps` have cumulative move count `k`. */
  function Occurrences(steps: seq<Step>, k: int): nat {
    if steps == [] then 0
    else Occurrences(steps[..|steps| - 1], k) + (if CumulativeMoveCount(steps[|steps| - 1]) == k then 1 else 0)
  }

  /** Some step has cumulative move count `k`. */
  predicate CountOccurs(steps: seq<Step>, k: int) {
    exists s :: s in steps && CumulativeMoveCount(s) == k
  }

  /** Some row has key `k`. */
  predicate HasRow(rows: seq<(int, nat)>, k: int) {
    exists i :: 0 <= i < |rows| && rows[i].0 == k
  }

  lemma {:induction false} OccurrencesPositive(steps: seq<Step>, s: Step)
    requires s in steps
    ensures Occurrences(steps, CumulativeMoveCount(s)) >= 1
  {
    if steps[|steps| - 1] != s {
      assert s in steps[..|steps| - 1];
      OccurrencesPositive(steps[..|steps| - 1], s);
    }
  }

  lemma {:induction false} OccurrencesWitness(steps: seq<Step>, k: int)
    requires Occurrences(steps, k) > 0
    ensures CountOccurs(steps, k)
  {
    var last := steps[|steps| - 1];
    if CumulativeMoveCount(last) != k {
      OccurrencesWitness(steps[..|steps| - 1], k);
      var s :| s in steps[..|steps| - 1] && CumulativeMoveCount(s) == k;
      assert s in steps;
    }
  }

  /** The sum of the counts of histogram rows. */
  function RowTotal(rows: seq<(int, nat)>): nat {
    if rows == [] then 0 else rows[0].1 + RowTotal(rows[1..])
  }

  /** The sum over the keys of `rows` of how many steps have that count. */
  function OccurrencesOver(steps: seq<Step>, rows: seq<(int, nat)>): nat {
    if rows == [] then 0 else Occurrences(steps, rows[0].0) + OccurrencesOver(steps, rows[1..])
  }

  /** How many rows have key `k`. */
  function KeyHits(rows: seq<(int, nat)>, k: int): nat {
    if rows == [] then 0 else (if rows[0].0 == k then 1 else 0) + KeyHits(rows[1..], k)
  }

  lemma {:induction false} KeyHitsOnce(rows: seq<(int, nat)>, k: int)
    requires forall i, j :: 0 <= i < j < |rows| ==> rows[i].0 < rows[j].0
    requires HasRow(rows, k)
    ensures KeyHits(rows, k) == 1
  {
    if rows[0].0 == k {
      KeyHitsNone(rows[1..], k);
    } else {
      var i :| 0 <= i < |rows| && rows[i].0 == k;
      assert rows[1..][i - 1].0 == k;
      KeyHitsOnce(rows[1..], k);
    }
  }

  lemma {:induction false} KeyHitsNone(rows: seq<(int, nat)>, k: int)
    requires forall i :: 0 <= i < |rows| ==> rows[i].0 > k
    ensures KeyHits(rows, k) == 0
  {
    if rows != [] {
      KeyHitsNone(rows[1..], k);
    }
  }

  lemma {:induction false} OccurrencesOverSnoc(steps: seq<Step>, x: Step, rows: seq<(int, nat)>)
    ensures OccurrencesOver(steps + [x], rows) == OccurrencesOver(steps, rows) + KeyHits(rows, CumulativeMoveCount(x))
  {
    if rows != [] {
      assert (steps + [x])[..|steps + [x]| - 1] == steps;
      OccurrencesOverSnoc(steps, x, rows[1..]);
    }
  }

  /** When the keys are distinct and cover every step's count, the occurrences over them add up to the number of steps. */
  lemma {:induction false} OccurrencesOverAll(steps: seq<Step>, rows: seq<(int, nat)>)
    requires forall i, j :: 0 <= i < j < |rows| ==> rows[i].0 < rows[j].0
    requires forall s :: s in steps ==> HasRow(rows, CumulativeMoveCount(s))
    ensures OccurrencesOver(steps, rows) == |steps|
  {
    if steps == [] {
      OccurrencesOverEmpty(rows);
    } else {
      var p, x := steps[..|steps| - 1], steps[|steps| - 1];
      assert steps == p + [x];
      forall s | s in p
        ensures HasRow(rows, CumulativeMoveCount(s))
      {
        assert s in steps;
      }
      OccurrencesOverAll(p, rows);
      OccurrencesOverSnoc(p, x, rows);
      KeyHitsOnce(rows, CumulativeMoveCount(x));
    }
  }

  lemma {:induction false} OccurrencesOverEmpty(rows: seq<(int, nat)>)
    ensures OccurrencesOver([], rows) == 0
  {
    if rows != [] {
      OccurrencesOverEmpty(rows[1..]);
    }
  }

  lemma {:induction false} RowTotalIsOccurrences(steps: seq<Step>, rows: seq<(int, nat)>)
    requires forall i :: 0 <= i < |rows| ==> rows[i].1 == Occurrences(steps, rows[i].0)
    ensures RowTotal(rows) == OccurrencesOver(steps, rows)
  {
    if rows != [] {
      RowTotalIsOccurrences(steps, rows[1..]);
    }
  }

  lemma Least(keys: set<int>) returns (m: int)
    requires keys != {}
    ensures m in keys && forall k :: k in keys ==> m <= k
    decreases |keys|
  {
    if forall y :: y !in keys {
      assert false;
    }
    var x :| x in keys;
    if keys == {x} {
      m := x;
    } else {
      var m' := Least(keys - {x});
      m := if x < m' then x else m';
      forall k | k in keys
        ensures m <= k
      {
        if k != x {
          assert k in keys - {x};
        }
      }
    }
  }

  /** The counting loop of `counts`: a dictionary from cumulative move count to the number of steps with it. */
  method CountByMoveCount(steps: seq<Step>) returns (count: map<int, nat>)
    ensures forall k :: k in count <==> Occurrences(steps, k) > 0
    ensures forall k :: k in count ==> count[k] == Occurrences(steps, k)
  {
    count := map[];
    for n := 0 to |steps|
      invariant forall k :: k in count <==> Occurrences(steps[..n], k) > 0
      invariant forall k :: k in count ==> count[k] == Occurrences(steps[..n], k)
    {
      assert steps[..n + 1][..n] == steps[..n];
      var c := CumulativeMoveCount(steps[n]);
      count := count[c := (if c in count then count[c] else 0) + 1];
    }
    assert steps[..|steps|] == steps;
  }

  /** The keys of `count` in strictly ascending order, each once. */
  method SortedKeys(count: map<int, nat>) returns (keys: seq<int>)
    ensures forall i, j :: 0 <= i < j < |keys| ==> keys[i] < keys[j]
    ensures forall k :: k in count.Keys <==> k in keys
  {
    keys := [];
    var rest := count.Keys;
    while rest != {}
      invariant rest <= count.Keys
      invariant forall i, j :: 0 <= i < j < |keys| ==> keys[i] < keys[j]
      invariant forall k :: k in keys ==> k in count.Keys && k !in rest
      invariant forall i, k :: 0 <= i < |keys| && k in rest ==> keys[i] < k
      invariant forall k :: k in count.Keys ==> k in rest || k in keys
      decreases rest
    {
      ghost var least := Least(rest);
      var k :| k in rest && forall k' :: k' in rest ==> k <= k';
      keys := keys + [k];
      rest := rest - {k};
    }
  }

  /** `sorted(list(count.items()))`: every item once, keys strictly ascending. */
  method SortedItems(count: map<int, nat>) returns (rows: seq<(int, nat)>)
    ensures forall i, j :: 0 <= i < j < |rows| ==> rows[i].0 < rows[j].0
    ensures forall i :: 0 <= i < |rows| ==> rows[i].0 in count && rows[i].1 == count[rows[i].0]
    ensures forall k :: k in count ==> HasRow(rows, k)
  {
    var keys := SortedKeys(count);
    forall i | 0 <= i < |keys|
      ensures keys[i] in count
    {
      assert keys[i] in keys;
    }
    rows := seq(|keys|, i requires 0 <= i < |keys| => (keys[i], count[keys[i]]));
    forall k | k in count
      ensures HasRow(rows, k)
    {
      var i :| 0 <= i < |keys| && keys[i] == k;
      assert rows[i].0 == k;
    }
  }

  /**
   * `MoveCountHistogram(steps).counts`: one row per cumulative move count that
   * occurs, in ascending order, with the number of steps having it; the rows
   * account for every step.
   */
  method HistogramCounts(steps: seq<Step>) returns (rows: seq<(int, nat)>)
    ensures forall i, j :: 0 <= i < j < |rows| ==> rows[i].0 < rows[j].0
    ensures forall i :: 0 <= i < |rows| ==> rows[i].1 == Occurrences(steps, rows[i].0) && rows[i].1 >= 1
    ensures forall i :: 0 <= i < |rows| ==> CountOccurs(steps, rows[i].0)
    ensures forall s :: s in steps ==> HasRow(rows, CumulativeMoveCount(s))
    ensures RowTotal(rows) == |steps|
  {
    var count := CountByMoveCount(steps);
    rows := SortedItems(count);
    CountedRows(steps, count, rows);
    HistogramRows(steps, rows);
  }

  /** The sorted items of the counting dictionary carry the occurrences of exactly the occurring counts. */
  lemma CountedRows(steps: seq<Step>, count: map<int, nat>, rows: seq<(int, nat)>)
    requires forall k :: k in count <==> Occurrences(steps, k) > 0
    requires forall k :: k in count ==> count[k] == Occurrences(steps, k)
    requires forall i :: 0 <= i < |rows| ==> rows[i].0 in count && rows[i].1 == count[rows[i].0]
    requires forall k :: k in count ==> HasRow(rows, k)
    ensures forall i :: 0 <= i < |rows| ==> rows[i].1 == Occurrences(steps, rows[i].0) && rows[i].1 > 0
    ensures forall k :: Occurrences(steps, k) > 0 ==> HasRow(rows, k)
  {
    forall i | 0 <= i < |rows|
      ensures rows[i].1 == Occurrences(steps, rows[i].0) && rows[i].1 > 0
    {
      assert rows[i].0 in count;
    }
    forall k | Occurrences(steps, k) > 0
      ensures HasRow(rows, k)
    {
      assert k in count;
    }
  }

  /** Rows keyed by exactly the occurring counts, each carrying its number of occurrences, describe every step. */
  lemma HistogramRows(steps: seq<Step>, rows: seq<(int, nat)>)
    requires forall i, j :: 0 <= i < j < |rows| ==> rows[i].0 < rows[j].0
    requires forall i :: 0 <= i < |rows| ==> rows[i].1 == Occurrences(steps, rows[i].0) && rows[i].1 > 0
    requires forall k :: Occurrences(steps, k) > 0 ==> HasRow(rows, k)
    ensures forall i :: 0 <= i < |rows| ==> CountOccurs(steps, rows[i].0)
    ensures forall s :: s in steps ==> HasRow(rows, CumulativeMoveCount(s))
    ensures RowTotal(rows) == |steps|
  {
    RowsWitnessed(steps, rows);
    RowsCover(steps, rows);
    RowTotalIsOccurrences(steps, rows);
    OccurrencesOverAll(steps, rows);
  }

  lemma RowsWitnessed(steps: seq<Step>, rows: seq<(int, nat)>)
    requires forall i :: 0 <= i < |rows| ==> Occurrences(steps, rows[i].0) > 0
    ensures forall i :: 0 <= i < |rows| ==> CountOccurs(steps, rows[i].0)
  {
    forall i | 0 <= i < |rows|
      ensures CountOccurs(steps, rows[i].0)
    {
      OccurrencesWitness(steps, rows[i].0);
    }
  }

  lemma RowsCover(steps: seq<Step>, rows: seq<(int, nat)>)
    requires forall k :: Occurrences(steps, k) > 0 ==> HasRow(rows, k)
    ensures forall s :: s in steps ==> HasRow(rows, CumulativeMoveCount(s))
  {
    forall s | s in steps
      ensures HasRow(rows, CumulativeMoveCount(s))
    {
      OccurrencesPositive(steps, s);
    }
  }

  /** One histogram entry, `<n>x<m>-moves` for `n` steps of `m` moves. */
  function HistogramEntry(row: (int, nat)): string {
    IntToString(row.1) + "x" + IntToString(row.0) + "-moves"
  }

  /** `str(MoveCountHistogram(steps))`: the entries of the rows joined by spaces. */
  function HistogramText(rows: seq<(int, nat)>): string {
    Join(seq(|rows|, i requires 0 <= i < |rows| => HistogramEntry(rows[i])), " ")
  }

  /** The rendered histogram has exactly one space-separated entry per row, in row order. */
  lemma HistogramTextEntries(rows: seq<(int, nat)>)
    requires rows != []
    ensures SplitOn(HistogramText(rows), {' '}) == seq(|rows|, i requires 0 <= i < |rows| => HistogramEntry(rows[i]))
  {
    var entries := seq(|rows|, i requires 0 <= i < |rows| => HistogramEntry(rows[i]));
    forall i | 0 <= i < |entries|
      ensures Avoids(entries[i], {' '})
    {
      var a, b := IntToString(rows[i].1), IntToString(rows[i].0);
      assert entries[i] == a + "x" + b + "-moves";
    }
    SplitJoined(entries, ' ', {' '});
  }
  // ----- lists of steps built stage by stage -----

  /** Appending the steps that follow the last of `all` to steps that follow one of the others gives steps that follow one of `all`. */
  lemma FollowAppend(r0: seq<Step>, r1: seq<Step>, all: seq<Step>)
    requires all != []
    requires forall x :: x in r0 ==> x.previous.Some? && x.previous.value in all[..|all| - 1]
    requires forall x :: x in r1 ==> x.previous == Some(all[|all| - 1])
    ensures forall x :: x in r0 + r1 ==> x.previous.Some? && x.previous.value in all
  {
    forall x | x in r0 + r1
      ensures x.previous.Some? && x.previous.value in all
    {
      if x in r0 {
        var k :| 0 <= k < |all| - 1 && all[..|all| - 1][k] == x.previous.value;
        assert all[k] == x.previous.value;
      }
    }
  }

  /** Appending the steps named after the last of `names` to steps named after one of the others gives steps named after one of `names`. */
  lemma NamedAppend(r0: seq<Step>, r1: seq<Step>, names: seq<string>)
    requires names != []
    requires forall x :: x in r0 ==> x.name in names[..|names| - 1]
    requires forall x :: x in r1 ==> x.name == names[|names| - 1]
    ensures forall x :: x in r0 + r1 ==> x.name in names
  {
    forall x | x in r0 + r1
      ensures x.name in names
    {
      if x in r0 {
        var k :| 0 <= k < |names| - 1 && names[..|names| - 1][k] == x.name;
        assert names[k] == x.name;
      }
    }
  }
}
