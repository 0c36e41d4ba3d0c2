/**
 * The concrete stage policies: how EO and DR candidates are searched for
 * (normal side, inverse side, NISS), how they are ranked and cut down, and how
 * a DR is finished. The solver is a parameter; the random tie-break of the
 * ranking is a parameter `ties`, the draw for the i-th element of the list
 * being sorted.
 */
module Strategies {
  import opened Wrappers
  import opened PyText
  import opened Moves
  import opened Steps
  import opened SolverOutput
  import opened Ranking

  // ----- Filters -----

  /** A list comprehension `[s for s in steps if p(s)]`. */
  function Keep(p: Step -> bool, steps: seq<Step>): (r: seq<Step>)
    ensures |r| <= |steps|
    ensures forall i :: 0 <= i < |r| ==> r[i] in steps && p(r[i])
    ensures forall i :: 0 <= i < |steps| && p(steps[i]) ==> steps[i] in r
  {
    if steps == [] then []
    else
      var last := steps[|steps| - 1];
      Keep(p, steps[..|steps| - 1]) + (if p(last) then [last] else [])
  }

  lemma {:induction false} KeepMultiset(p: Step -> bool, steps: seq<Step>)
    ensures multiset(Keep(p, steps)) <= multiset(steps)
  {
    if steps != [] {
      KeepMultiset(p, steps[..|steps| - 1]);
      assert steps == steps[..|steps| - 1] + [steps[|steps| - 1]];
    }
  }

  /** A filter keeps every passing element as often as the input holds it, and no other element. */
  lemma {:induction false} KeepCounts(p: Step -> bool, steps: seq<Step>)
    ensures forall x :: multiset(Keep(p, steps))[x] == if p(x) then multiset(steps)[x] else 0
  {
    if steps != [] {
      var init, last := steps[..|steps| - 1], steps[|steps| - 1];
      KeepCounts(p, init);
      assert steps == init + [last];
    }
  }

  /** Filtering two permutations of each other gives permutations of each other. */
  lemma KeepPermutation(p: Step -> bool, a: seq<Step>, b: seq<Step>)
    requires multiset(a) == multiset(b)
    ensures multiset(Keep(p, a)) == multiset(Keep(p, b))
    ensures |Keep(p, a)| == |Keep(p, b)|
  {
    var ka, kb := multiset(Keep(p, a)), multiset(Keep(p, b));
    forall x
      ensures ka[x] == kb[x]
    {
      KeepCounts(p, a);
      KeepCounts(p, b);
      assert multiset(a)[x] == multiset(b)[x];
    }
    assert ka == kb;
  }

  /** The first element a filter keeps is the first element of the input that passes it. */
  lemma {:induction false} KeepFirst(p: Step -> bool, steps: seq<Step>)
    requires Keep(p, steps) != []
    ensures exists i :: 0 <= i < |steps| && steps[i] == Keep(p, steps)[0] && p(steps[i])
                        && forall j :: 0 <= j < i ==> !p(steps[j])
  {
    var init, last := steps[..|steps| - 1], steps[|steps| - 1];
    var r := Keep(p, steps);
    if Keep(p, init) != [] {
      assert r[0] == Keep(p, init)[0];
      KeepFirst(p, init);
      var i :| 0 <= i < |init| && init[i] == Keep(p, init)[0] && p(init[i]) && forall j :: 0 <= j < i ==> !p(init[j]);
      assert steps[i] == init[i];
      assert forall j :: 0 <= j < i ==> steps[j] == init[j];
    } else {
      assert r == [last] && p(last);
      forall j | 0 <= j < |steps| - 1
        ensures !p(steps[j])
      {
        assert steps[j] == init[j];
      }
      assert steps[|steps| - 1] == r[0];
    }
  }

  /** The order of the ranking, without the random draw: `(cumulative_move_count, includes_niss, requires_niss)`. */
  function Primary(s: Step): (int, bool, bool) {
    (CumulativeMoveCount(s), IncludesNiss(s), RequiresNiss(s))
  }

  /** Lexicographic `<=` on `Primary`, False before True. */
  predicate NotAfter(a: Step, b: Step) {
    || CumulativeMoveCount(a) < CumulativeMoveCount(b)
    || (CumulativeMoveCount(a) == CumulativeMoveCount(b) && BoolLess(IncludesNiss(a), IncludesNiss(b)))
    || (CumulativeMoveCount(a) == CumulativeMoveCount(b) && IncludesNiss(a) == IncludesNiss(b)
        && (RequiresNiss(a) ==> RequiresNiss(b)))
  }

  predicate InRankOrder(steps: seq<Step>) {
    forall i, j :: 0 <= i < j < |steps| ==> NotAfter(steps[i], steps[j])
  }

  /** Every Step kept in `r` ranks no later than every Step of `pool` left out of it: `r` holds the best of `pool`. */
  predicate KeepsBest(r: seq<Step>, pool: seq<Step>) {
    forall x, y :: x in r && y in multiset(pool) - multiset(r) ==> NotAfter(x, y)
  }

  /** Filtering keeps the order. */
  lemma {:induction false} KeepInRankOrder(p: Step -> bool, steps: seq<Step>)
    requires InRankOrder(steps)
    ensures InRankOrder(Keep(p, steps))
  {
    if steps != [] {
      var init, last := steps[..|steps| - 1], steps[|steps| - 1];
      KeepInRankOrder(p, init);
      var r := Keep(p, init);
      forall i | 0 <= i < |r|
        ensures NotAfter(r[i], last)
      {
        var k :| 0 <= k < |init| && init[k] == r[i];
        assert steps[k] == init[k];
      }
    }
  }

  // ----- Searching on both sides -----

  /** `-N` is passed, and results are filtered by their split, exactly when the inverse is checked and a split is allowed. */
  predicate UsesNiss(checkInverse: bool, maxNissSplit: int) {
    checkInverse && maxNissSplit > 0
  }

  /** `["-M", max_length]`, then `"-N"` when NISS is used. */
  function SearchArgs(maxLength: int, niss: bool): seq<Arg> {
    [Flag("-M"), Number(maxLength)] + (if niss then [Flag("-N")] else [])
  }

  function Min(a: int, b: int): int {
    if a <= b then a else b
  }

  /** `min(len(s.moves), len(s.moves_on_inverse)) <= max_niss_split`. */
  predicate WithinSplit(s: Step, maxNissSplit: int) {
    Min(|s.moves|, |s.movesOnInverse|) <= maxNissSplit
  }

  function WithinSplitOnly(steps: seq<Step>, maxNissSplit: int): seq<Step> {
    Keep(s => WithinSplit(s, maxNissSplit), steps)
  }

  // ----- GeneralEO -----

  datatype GeneralEO = GeneralEO(maxEoLength: int, maxEoAttempts: int, checkInverse: bool, maxNissSplit: int)

  /** `GeneralEO()` with its default arguments. */
  const DefaultEO: GeneralEO := GeneralEO(5, 30, true, 1)

  /** EOs found on the inverse scramble, as Steps whose moves are on the inverse side; `previous` is kept. */
  function EoFromInverse(found: seq<Step>): seq<Step> {
    seq(|found|, i requires 0 <= i < |found| => Step(found[i].name, [], found[i].moves, found[i].previous))
  }

  /** The three branches of `find_eos_on_axis`, given the normal results and the results on the inverse. */
  function CombineEos(e: GeneralEO, normal: seq<Step>, found: seq<Step>): seq<Step> {
    if UsesNiss(e.checkInverse, e.maxNissSplit) then WithinSplitOnly(normal, e.maxNissSplit)
    else if e.checkInverse then normal + EoFromInverse(found) + normal
    else normal
  }

  /** `find_eos_on_axis`: the solver asked on the scramble, and on its inverse when the branch needs it. */
  function EosOnAxis(e: GeneralEO, solver: Solver, axis: string, scramble: Step): seq<Step> {
    var args := SearchArgs(e.maxEoLength, UsesNiss(e.checkInverse, e.maxNissSplit));
    CombineEos(e, NissySteps(solver, axis, scramble, args), NissySteps(solver, axis, OnInverse(scramble), args))
  }

  /** `GeneralEO.find_eos_on_axis`, accumulating into `all_eos`. */
  method FindEosOnAxis(e: GeneralEO, solver: Solver, axis: string, scramble: Step) returns (allEos: seq<Step>)
    ensures allEos == EosOnAxis(e, solver, axis, scramble)
  {
    allEos := [];
    var args := [Flag("-M"), Number(e.maxEoLength)];
    if e.checkInverse && e.maxNissSplit > 0 {
      args := args + [Flag("-N")];
    }
    assert args == SearchArgs(e.maxEoLength, UsesNiss(e.checkInverse, e.maxNissSplit));
    var eos := Nissy(solver, axis, scramble, args);
    ghost var normal := eos;
    ghost var found := NissySteps(solver, axis, OnInverse(scramble), args);
    if e.checkInverse && e.maxNissSplit > 0 {
      eos := WithinSplitOnly(eos, e.maxNissSplit);
      assert allEos + eos == CombineEos(e, normal, found);
    } else if e.checkInverse {
      allEos := allEos + eos;
      assert allEos == normal;
      var iEos := Nissy(solver, axis, OnInverse(scramble), args);
      assert iEos == found;
      iEos := EoFromInverse(iEos);
      allEos := allEos + iEos;
      assert allEos + eos == normal + EoFromInverse(found) + normal;
    } else {
      assert allEos + eos == CombineEos(e, normal, found);
    }
    allEos := allEos + eos;
  }

  lemma NissyShape(solver: Solver, stepName: string, scramble: Step, args: seq<Arg>)
    ensures forall x :: x in NissySteps(solver, stepName, scramble, args) ==>
              x.name == stepName && x.previous == Some(scramble)
  {
    var r := NissySteps(solver, stepName, scramble, args);
    forall x | x in r
      ensures x.name == stepName && x.previous == Some(scramble)
    {
      var k :| 0 <= k < |r| && r[k] == x;
    }
  }

  /**
   * What `find_eos_on_axis` promises: every EO is named after the axis; with
   * NISS, the normal results within the split survive, in their order and
   * each as often as the solver gave it; checking the
   * inverse without NISS gives the normal results, the converted inverse
   * results, and the normal results again; otherwise the normal results.
   */
  lemma EosOnAxisShape(e: GeneralEO, solver: Solver, axis: string, scramble: Step)
    ensures var r := EosOnAxis(e, solver, axis, scramble);
            forall x :: x in r ==> x.name == axis
    ensures var niss := UsesNiss(e.checkInverse, e.maxNissSplit);
            var normal := NissySteps(solver, axis, scramble, SearchArgs(e.maxEoLength, niss));
            var r := EosOnAxis(e, solver, axis, scramble);
            && (niss ==> && r == WithinSplitOnly(normal, e.maxNissSplit)
                         && (forall x :: multiset(r)[x] == if WithinSplit(x, e.maxNissSplit) then multiset(normal)[x] else 0)
                         && forall x :: x in normal ==> (x in r <==> WithinSplit(x, e.maxNissSplit)))
            && (!e.checkInverse ==> r == normal)
  {
    var niss := UsesNiss(e.checkInverse, e.maxNissSplit);
    var args := SearchArgs(e.maxEoLength, niss);
    var normal := NissySteps(solver, axis, scramble, args);
    NissyShape(solver, axis, scramble, args);
    NissyShape(solver, axis, OnInverse(scramble), args);
    if niss {
      KeepMultiset(s => WithinSplit(s, e.maxNissSplit), normal);
      KeepCounts(s => WithinSplit(s, e.maxNissSplit), normal);
    }
  }

  /** Whatever the branch, every EO hangs off one of the two roots the results hang off. */
  lemma CombineEosFollows(e: GeneralEO, normal: seq<Step>, found: seq<Step>, p: Step, q: Step)
    requires forall x :: x in normal ==> x.previous == Some(p)
    requires forall x :: x in found ==> x.previous == Some(q)
    ensures forall x :: x in CombineEos(e, normal, found) ==> x.previous == Some(p) || x.previous == Some(q)
  {
    var r := CombineEos(e, normal, found);
    if UsesNiss(e.checkInverse, e.maxNissSplit) {
      KeepMultiset(s => WithinSplit(s, e.maxNissSplit), normal);
      forall x | x in r
        ensures x.previous == Some(p)
      {
        assert x in multiset(normal);
      }
    } else if e.checkInverse {
      var conv := EoFromInverse(found);
      forall x | x in conv
        ensures x.previous == Some(q)
      {
        var k :| 0 <= k < |conv| && conv[k] == x;
        assert found[k] in found;
      }
    }
  }

  /** Every EO follows the scramble itself or the inverse root built from it. */
  lemma EosOnAxisFollows(e: GeneralEO, solver: Solver, axis: string, scramble: Step)
    ensures forall x :: x in EosOnAxis(e, solver, axis, scramble) ==>
              x.previous == Some(scramble) || x.previous == Some(OnInverse(scramble))
  {
    var args := SearchArgs(e.maxEoLength, UsesNiss(e.checkInverse, e.maxNissSplit));
    NissyShape(solver, axis, scramble, args);
    NissyShape(solver, axis, OnInverse(scramble), args);
    CombineEosFollows(e, NissySteps(solver, axis, scramble, args), NissySteps(solver, axis, OnInverse(scramble), args),
                      scramble, OnInverse(scramble));
  }

  /** A Step whose moves are all on the inverse side of an inverse root. */
  lemma OnInverseChild(name: string, found: seq<string>, scramble: Step)
    ensures var x := Step(name, [], found, Some(OnInverse(scramble)));
            && CumulativeMoveCount(x) == |found|
            && !IncludesNiss(x)
            && AllMoves(x) == Invert(found) + Invert(AllMoves(scramble))
  {
    var root := OnInverse(scramble);
    assert Invert([]) == [];
    assert AllMoves(root) == Invert(AllMoves(scramble));
  }

  /** The inverse branch without NISS keeps the normal list twice around the converted inverse list. */
  lemma CombineEosInverse(e: GeneralEO, normal: seq<Step>, found: seq<Step>, axis: string, root: Step)
    requires e.checkInverse && e.maxNissSplit <= 0
    requires forall x :: x in found ==> x.name == axis && x.previous == Some(root)
    ensures var r := CombineEos(e, normal, found);
            && |r| == 2 * |normal| + |found|
            && r[..|normal|] == normal && r[|normal| + |found|..] == normal
            && forall i :: |normal| <= i < |normal| + |found| ==>
                 r[i] == Step(axis, [], found[i - |normal|].moves, Some(root))
  {
    var r := CombineEos(e, normal, found);
    var conv := EoFromInverse(found);
    assert r == normal + conv + normal;
    forall i | |normal| <= i < |normal| + |found|
      ensures r[i] == Step(axis, [], found[i - |normal|].moves, Some(root))
    {
      assert found[i - |normal|] in found;
      assert r[i] == conv[i - |normal|];
    }
  }

  /**
   * Checking the inverse without NISS: the normal EOs, then the EOs found on
   * the inverse scramble converted to inverse-side Steps hanging off the
   * inverse root, then the normal EOs again.
   */
  lemma EosOnAxisInverse(e: GeneralEO, solver: Solver, axis: string, scramble: Step)
    requires e.checkInverse && e.maxNissSplit <= 0
    ensures var args := SearchArgs(e.maxEoLength, false);
            var normal := NissySteps(solver, axis, scramble, args);
            var found := NissySteps(solver, axis, OnInverse(scramble), args);
            var r := EosOnAxis(e, solver, axis, scramble);
            && |r| == 2 * |normal| + |found|
            && r[..|normal|] == normal && r[|normal| + |found|..] == normal
            && forall i :: |normal| <= i < |normal| + |found| ==>
                 r[i] == Step(axis, [], found[i - |normal|].moves, Some(OnInverse(scramble)))
  {
    var args := SearchArgs(e.maxEoLength, false);
    NissyShape(solver, axis, OnInverse(scramble), args);
    CombineEosInverse(e, NissySteps(solver, axis, scramble, args), NissySteps(solver, axis, OnInverse(scramble), args),
                      axis, OnInverse(scramble));
  }

  // ----- Ranking and selection -----

  /** `sort_order`: the cumulative move count, non-NISS first, then not-requiring-NISS first, then the draw. */
  function SortOrder(s: Step, tie: real): SortKey {
    SortKey(CumulativeMoveCount(s), IncludesNiss(s), RequiresNiss(s), tie)
  }

  /** Every element of a decorated list carries its own sort order. */
  predicate Decorated(r: Ranked) {
    r.key.moveCount == CumulativeMoveCount(r.item) && r.key.includesNiss == IncludesNiss(r.item)
    && r.key.requiresNiss == RequiresNiss(r.item)
  }

  /** The sort keys of a list, the i-th element drawing `ties(i)`. */
  function SortKeys(steps: seq<Step>, ties: nat -> real): (keys: seq<SortKey>)
    ensures |keys| == |steps|
    ensures forall i :: 0 <= i < |keys| ==> keys[i] == SortOrder(steps[i], ties(i))
  {
    seq(|steps|, i requires 0 <= i < |steps| => SortOrder(steps[i], ties(i)))
  }

  /** The list with the sort key of each element. */
  function Decorate(steps: seq<Step>, ties: nat -> real): (r: seq<Ranked>)
    ensures |r| == |steps| && Items(r) == steps
    ensures forall i :: 0 <= i < |r| ==> Decorated(r[i]) && r[i].key.tieBreak == ties(i)
  {
    Pair(SortKeys(steps, ties), steps)
  }

  /** `steps.sort(key=self.sort_order)`. */
  function RankedSteps(steps: seq<Step>, ties: nat -> real): seq<Step> {
    Items(SortRanked(Decorate(steps, ties)))
  }

  /** `select_eos` / the optimal `select_drs`: sort, then keep the first `attempts`. */
  function SelectedSteps(steps: seq<Step>, ties: nat -> real, attempts: int): seq<Step> {
    Prefix(RankedSteps(steps, ties), attempts)
  }

  /** The list sort of `select_eos` and `select_drs`, on the caller's list. */
  method SortSteps(a: array<Step>, ties: nat -> real)
    modifies a
    ensures a[..] == RankedSteps(old(a[..]), ties)
  {
    SortByKeys(a, SortKeys(a[..], ties));
  }

  /** `GeneralEO.select_eos`: sorts the caller's list in place and returns its first `max_eo_attempts`. */
  method SelectEos(e: GeneralEO, eos: array<Step>, ties: nat -> real) returns (selected: seq<Step>)
    modifies eos
    ensures eos[..] == RankedSteps(old(eos[..]), ties)
    ensures selected == SelectedSteps(old(eos[..]), ties, e.maxEoAttempts)
  {
    SortSteps(eos, ties);
    selected := Prefix(eos[..], e.maxEoAttempts);
  }

  lemma SortedDecorated(steps: seq<Step>, ties: nat -> real)
    ensures forall r :: r in SortRanked(Decorate(steps, ties)) ==> Decorated(r)
  {
    var d := Decorate(steps, ties);
    SortMultiset(d);
    forall r | r in SortRanked(d)
      ensures Decorated(r)
    {
      assert r in multiset(d);
      var k :| 0 <= k < |d| && d[k] == r;
    }
  }

  /** The ranking is a permutation of its input. */
  lemma RankedPermutation(steps: seq<Step>, ties: nat -> real)
    ensures multiset(RankedSteps(steps, ties)) == multiset(steps)
  {
    SortProject(ItemOf, Decorate(steps, ties));
  }

  /** The ranking is in `(cumulative_move_count, includes_niss, requires_niss)` order. */
  lemma RankedInOrder(steps: seq<Step>, ties: nat -> real)
    ensures InRankOrder(RankedSteps(steps, ties))
  {
    var s := SortRanked(Decorate(steps, ties));
    SortRankedSorted(Decorate(steps, ties));
    SortedDecorated(steps, ties);
    forall i, j | 0 <= i < j < |s|
      ensures NotAfter(s[i].item, s[j].item)
    {
      assert Decorated(s[i]) && Decorated(s[j]);
    }
  }

  lemma PrefixMultiset(s: seq<Step>, k: int)
    ensures multiset(Prefix(s, k)) <= multiset(s)
  {
    var r := Prefix(s, k);
    assert s == r + s[|r|..];
  }

  /** Cutting a ranked list keeps its best: whatever is cut off ranks no earlier than what is kept. */
  lemma PrefixKeepsBest(s: seq<Step>, k: int)
    requires InRankOrder(s)
    ensures KeepsBest(Prefix(s, k), s)
  {
    var r := Prefix(s, k);
    var rest := s[|r|..];
    assert s == r + rest;
    assert multiset(s) - multiset(r) == multiset(rest);
    forall x, y | x in r && y in multiset(s) - multiset(r)
      ensures NotAfter(x, y)
    {
      var i :| 0 <= i < |r| && r[i] == x;
      assert y in rest;
      var j :| 0 <= j < |rest| && rest[j] == y;
      assert s[i] == x && s[|r| + j] == y;
    }
  }

  /**
   * `select_eos`: `min(attempts, len)` of the candidates (slice semantics for a
   * negative bound), taken from the input, in rank order, and the best ranked:
   * none of those left out ranks before one that is kept.
   */
  lemma SelectedStepsSpec(steps: seq<Step>, ties: nat -> real, attempts: int)
    ensures var r := SelectedSteps(steps, ties, attempts);
            && multiset(r) <= multiset(steps)
            && (attempts >= 0 ==> |r| == Min(attempts, |steps|))
            && (attempts < 0 ==> |r| == if |steps| + attempts >= 0 then |steps| + attempts else 0)
            && InRankOrder(r)
            && KeepsBest(r, steps)
  {
    RankedPermutation(steps, ties);
    RankedInOrder(steps, ties);
    PrefixMultiset(RankedSteps(steps, ties), attempts);
    PrefixKeepsBest(RankedSteps(steps, ties), attempts);
  }

  /** Primary ranks determine the primary key: `PrimaryRank` loses nothing. */
  lemma PrimaryRankInjective(a: SortKey, b: SortKey)
    requires PrimaryRank(a) == PrimaryRank(b)
    ensures a.moveCount == b.moveCount && a.includesNiss == b.includesNiss && a.requiresNiss == b.requiresNiss
  {
  }

  /** The random component only reorders ties: whatever the draws, position by position the same primary key. */
  lemma TiesOnlyReorder(steps: seq<Step>, t1: nat -> real, t2: nat -> real, attempts: int)
    ensures var r1 := SelectedSteps(steps, t1, attempts);
            var r2 := SelectedSteps(steps, t2, attempts);
            |r1| == |r2| && forall i :: 0 <= i < |r1| ==> Primary(r1[i]) == Primary(r2[i])
  {
    var d1, d2 := Decorate(steps, t1), Decorate(steps, t2);
    DecoratedRanks(steps, t1, t2);
    TieBreakOnlyReorders(d1, d2);
    SortedDecorated(steps, t1);
    SortedDecorated(steps, t2);
    RanksDeterminePrimary(SortRanked(d1), SortRanked(d2));
    PrefixPrimary(RankedSteps(steps, t1), RankedSteps(steps, t2), attempts);
  }

  /** The draws do not enter the primary rank of a decorated list. */
  lemma DecoratedRanks(steps: seq<Step>, t1: nat -> real, t2: nat -> real)
    ensures Project(RankOf, Decorate(steps, t1)) == Project(RankOf, Decorate(steps, t2))
  {
    var d1, d2 := Decorate(steps, t1), Decorate(steps, t2);
    forall i | 0 <= i < |d1|
      ensures RankOf(d1[i]) == RankOf(d2[i])
    {
      assert Items(d1)[i] == Items(d2)[i];
    }
  }

  /** Decorated lists with the same ranks carry steps with the same primary keys. */
  lemma RanksDeterminePrimary(s1: seq<Ranked>, s2: seq<Ranked>)
    requires Project(RankOf, s1) == Project(RankOf, s2)
    requires forall r :: r in s1 ==> Decorated(r)
    requires forall r :: r in s2 ==> Decorated(r)
    ensures |Items(s1)| == |Items(s2)|
    ensures forall i :: 0 <= i < |s1| ==> Primary(Items(s1)[i]) == Primary(Items(s2)[i])
  {
    forall i | 0 <= i < |s1|
      ensures Primary(Items(s1)[i]) == Primary(Items(s2)[i])
    {
      assert RankOf(s1[i]) == Project(RankOf, s1)[i];
      assert Decorated(s1[i]) && Decorated(s2[i]);
      PrimaryRankInjective(s1[i].key, s2[i].key);
    }
  }

  lemma PrefixPrimary(a: seq<Step>, b: seq<Step>, attempts: int)
    requires |a| == |b| && forall i :: 0 <= i < |a| ==> Primary(a[i]) == Primary(b[i])
    ensures var r1, r2 := Prefix(a, attempts), Prefix(b, attempts);
            |r1| == |r2| && forall i :: 0 <= i < |r1| ==> Primary(r1[i]) == Primary(r2[i])
  {
  }

  // ----- OptimalDR and SingleAxisDR -----

  datatype DRKind = Optimal | SingleAxis

  /** A DR strategy: `OptimalDR`, or its subclass `SingleAxisDR`, which only differs in `select_drs`. */
  datatype DRStrategy = DRStrategy(kind: DRKind, maxDrLength: int, maxDrAttempts: int, checkInverse: bool, maxNissSplit: int)

  /** `OptimalDR(...)`: NISS is used exactly when the inverse is checked with a positive split. */
  function OptimalDR(maxDrLength: int, maxAttempts: int, checkInverse: bool, maxNissSplit: int): (d: DRStrategy)
    ensures d.kind == Optimal && d.maxNissSplit == maxNissSplit
    ensures UsesNiss(d.checkInverse, d.maxNissSplit) <==> checkInverse && maxNissSplit > 0
    ensures d.maxDrLength == maxDrLength && d.maxDrAttempts == maxAttempts && d.checkInverse == checkInverse
  {
    DRStrategy(Optimal, maxDrLength, maxAttempts, checkInverse, maxNissSplit)
  }

  /** `SingleAxisDR(...)`: whatever the arguments, no NISS in the middle. */
  function SingleAxisDR(maxDrLength: int, maxAttempts: int, checkInverse: bool): (d: DRStrategy)
    ensures d.kind == SingleAxis && d.maxNissSplit == 0 && !UsesNiss(d.checkInverse, d.maxNissSplit)
    ensures d.maxDrLength == maxDrLength && d.maxDrAttempts == maxAttempts && d.checkInverse == checkInverse
  {
    DRStrategy(SingleAxis, maxDrLength, maxAttempts, checkInverse, 0)
  }

  /** `OptimalDR()` and `SingleAxisDR()` with their default arguments. */
  const DefaultOptimalDR: DRStrategy := OptimalDR(12, 10, true, 0)
  const DefaultSingleAxisDR: DRStrategy := SingleAxisDR(12, 10, true)

  /** `eo_to_dr_stages`: the two DR stages that keep the EO of each axis. */
  const EoToDrStages: map<string, seq<string>> := map[
    "eofb" := ["drud-eofb", "drrl-eofb"],
    "eorl" := ["drud-eorl", "drfb-eorl"],
    "eoud" := ["drfb-eoud", "drrl-eoud"]
  ]

  /** DRs found on the inverse of the EO, as Steps whose moves are on the inverse side, following the EO itself. */
  function DrFromInverse(found: seq<Step>, eo: Step): seq<Step> {
    seq(|found|, i requires 0 <= i < |found| => Step(found[i].name, [], found[i].moves, Some(eo)))
  }

  /** The three branches of one stage of `find_drs_for_eo`: NISS and filter, both sides, or nothing. */
  function CombineDrs(d: DRStrategy, eo: Step, normal: seq<Step>, found: seq<Step>): seq<Step> {
    if UsesNiss(d.checkInverse, d.maxNissSplit) then WithinSplitOnly(normal, d.maxNissSplit)
    else if d.checkInverse then normal + DrFromInverse(found, eo)
    else []
  }

  /** What one DR stage adds to `all_drs`: the solver is given the budget left after the EO. */
  function StageDrs(d: DRStrategy, solver: Solver, eo: Step, budget: int, stage: string): seq<Step> {
    var args := SearchArgs(budget, UsesNiss(d.checkInverse, d.maxNissSplit));
    CombineDrs(d, eo, NissySteps(solver, stage, eo, args), NissySteps(solver, stage, OnInverse(eo), args))
  }

  function DrsForStages(d: DRStrategy, solver: Solver, eo: Step, budget: int, stages: seq<string>): seq<Step> {
    if stages == [] then []
    else DrsForStages(d, solver, eo, budget, stages[..|stages| - 1]) + StageDrs(d, solver, eo, budget, stages[|stages| - 1])
  }

  /** `max_dr_length - eo.cumulative_move_count`: what is left for the DR. */
  function Budget(d: DRStrategy, eo: Step): int {
    d.maxDrLength - CumulativeMoveCount(eo)
  }

  /** `find_drs_for_eo`: the DR stages of the EO's axis, in order. */
  function DrsForEo(d: DRStrategy, solver: Solver, eo: Step): seq<Step>
    requires eo.name in EoToDrStages
  {
    DrsForStages(d, solver, eo, Budget(d, eo), EoToDrStages[eo.name])
  }

  /** The body of the loop of `find_drs_for_eo`: one DR stage, its results appended to `allDrs`. */
  method SearchDrStage(d: DRStrategy, solver: Solver, eo: Step, budget: int, nextStep: string, allDrs: seq<Step>)
    returns (extended: seq<Step>)
    ensures extended == allDrs + StageDrs(d, solver, eo, budget, nextStep)
  {
    extended := allDrs;
    var args := [Flag("-M"), Number(budget)];
    if d.checkInverse && d.maxNissSplit > 0 {
      args := args + [Flag("-N")];
    }
    assert args == SearchArgs(budget, UsesNiss(d.checkInverse, d.maxNissSplit));
    var drs := Nissy(solver, nextStep, eo, args);
    ghost var normal := drs;
    ghost var found := NissySteps(solver, nextStep, OnInverse(eo), args);
    assert StageDrs(d, solver, eo, budget, nextStep) == CombineDrs(d, eo, normal, found);
    if d.checkInverse && d.maxNissSplit > 0 {
      drs := WithinSplitOnly(drs, d.maxNissSplit);
      extended := extended + drs;
      assert extended == allDrs + CombineDrs(d, eo, normal, found);
    } else if d.checkInverse {
      extended := extended + drs;
      var iDrs := Nissy(solver, nextStep, OnInverse(eo), args);
      assert iDrs == found;
      iDrs := DrFromInverse(iDrs, eo);
      extended := extended + iDrs;
      assert extended == allDrs + (normal + DrFromInverse(found, eo));
    } else {
      assert extended == allDrs + CombineDrs(d, eo, normal, found);
    }
  }

  lemma DrsForStagesSnoc(d: DRStrategy, solver: Solver, eo: Step, budget: int, stages: seq<string>, k: int)
    requires 0 <= k < |stages|
    ensures DrsForStages(d, solver, eo, budget, stages[..k + 1])
         == DrsForStages(d, solver, eo, budget, stages[..k]) + StageDrs(d, solver, eo, budget, stages[k])
  {
    assert stages[..k + 1][..k] == stages[..k];
  }

  /** `OptimalDR.find_drs_for_eo`: a loop over the DR stages of the EO's axis, accumulating into `all_drs`. */
  method FindDrsForEo(d: DRStrategy, solver: Solver, eo: Step) returns (allDrs: seq<Step>)
    requires eo.name in EoToDrStages
    ensures allDrs == DrsForEo(d, solver, eo)
  {
    var budget := d.maxDrLength - CumulativeMoveCount(eo);
    assert budget == Budget(d, eo);
    allDrs := [];
    var stages := EoToDrStages[eo.name];
    for k := 0 to |stages|
      invariant allDrs == DrsForStages(d, solver, eo, budget, stages[..k])
    {
      DrsForStagesSnoc(d, solver, eo, budget, stages, k);
      allDrs := SearchDrStage(d, solver, eo, budget, stages[k], allDrs);
    }
    assert stages[..|stages|] == stages;
  }

  /**
   * One DR stage: every DR is named after the stage and follows the EO; with
   * NISS, the normal results within the split, in their order and each as
   * often as the solver gave it; checking the inverse
   * without NISS, the normal results and then the inverse ones as inverse-side
   * Steps after the EO; without checking the inverse, nothing.
   */
  lemma CombineDrsShape(d: DRStrategy, eo: Step, normal: seq<Step>, found: seq<Step>, stage: string)
    requires forall x :: x in normal ==> x.name == stage && x.previous == Some(eo)
    requires forall x :: x in found ==> x.name == stage
    ensures var r := CombineDrs(d, eo, normal, found);
            && (forall x :: x in r ==> x.name == stage && x.previous == Some(eo))
            && (!d.checkInverse ==> r == [])
            && (UsesNiss(d.checkInverse, d.maxNissSplit) ==>
                  && r == WithinSplitOnly(normal, d.maxNissSplit)
                  && (forall x :: multiset(r)[x] == if WithinSplit(x, d.maxNissSplit) then multiset(normal)[x] else 0)
                  && forall x :: x in normal ==> (x in r <==> WithinSplit(x, d.maxNissSplit)))
            && (d.checkInverse && !UsesNiss(d.checkInverse, d.maxNissSplit) ==>
                  |r| == |normal| + |found| && r[..|normal|] == normal
                  && forall i :: |normal| <= i < |r| ==> r[i] == Step(stage, [], found[i - |normal|].moves, Some(eo)))
  {
    var r := CombineDrs(d, eo, normal, found);
    if UsesNiss(d.checkInverse, d.maxNissSplit) {
      KeepMultiset(s => WithinSplit(s, d.maxNissSplit), normal);
      KeepCounts(s => WithinSplit(s, d.maxNissSplit), normal);
    } else if d.checkInverse {
      var conv := DrFromInverse(found, eo);
      assert r == normal + conv;
      forall i | |normal| <= i < |r|
        ensures r[i] == Step(stage, [], found[i - |normal|].moves, Some(eo))
      {
        assert found[i - |normal|] in found;
        assert r[i] == conv[i - |normal|];
      }
      forall x | x in r
        ensures x.name == stage && x.previous == Some(eo)
      {
        if x !in normal {
          var k :| 0 <= k < |conv| && conv[k] == x;
          assert found[k] in found;
        }
      }
    }
  }

  lemma StageDrsShape(d: DRStrategy, solver: Solver, eo: Step, budget: int, stage: string)
    ensures var r := StageDrs(d, solver, eo, budget, stage);
            && (forall x :: x in r ==> x.name == stage && x.previous == Some(eo))
            && (!d.checkInverse ==> r == [])
            && (UsesNiss(d.checkInverse, d.maxNissSplit) ==> forall x :: x in r ==> WithinSplit(x, d.maxNissSplit))
  {
    var args := SearchArgs(budget, UsesNiss(d.checkInverse, d.maxNissSplit));
    NissyShape(solver, stage, eo, args);
    NissyShape(solver, stage, OnInverse(eo), args);
    CombineDrsShape(d, eo, NissySteps(solver, stage, eo, args), NissySteps(solver, stage, OnInverse(eo), args), stage);
  }

  lemma {:induction false} DrsForStagesShape(d: DRStrategy, solver: Solver, eo: Step, budget: int, stages: seq<string>)
    ensures var r := DrsForStages(d, solver, eo, budget, stages);
            && (forall x :: x in r ==> x.name in stages && x.previous == Some(eo))
            && (!d.checkInverse ==> r == [])
            && (UsesNiss(d.checkInverse, d.maxNissSplit) ==> forall x :: x in r ==> WithinSplit(x, d.maxNissSplit))
  {
    if stages != [] {
      var init, last := stages[..|stages| - 1], stages[|stages| - 1];
      var r0, r1 := DrsForStages(d, solver, eo, budget, init), StageDrs(d, solver, eo, budget, last);
      DrsForStagesShape(d, solver, eo, budget, init);
      StageDrsShape(d, solver, eo, budget, last);
      assert DrsForStages(d, solver, eo, budget, stages) == r0 + r1;
      NamedAppend(r0, r1, stages);
    }
  }

  /**
   * `find_drs_for_eo`: every DR belongs to one of the two stages of the EO's
   * axis and follows the EO; nothing is found without checking the inverse;
   * with NISS every DR is within the split.
   */
  lemma DrsForEoShape(d: DRStrategy, solver: Solver, eo: Step)
    requires eo.name in EoToDrStages
    ensures var r := DrsForEo(d, solver, eo);
            && (forall x :: x in r ==> x.name in EoToDrStages[eo.name] && x.previous == Some(eo))
            && (!d.checkInverse ==> r == [])
            && (UsesNiss(d.checkInverse, d.maxNissSplit) ==> forall x :: x in r ==> WithinSplit(x, d.maxNissSplit))
  {
    DrsForStagesShape(d, solver, eo, Budget(d, eo), EoToDrStages[eo.name]);
  }

  /** A DR found on the inverse of the EO counts on top of the EO, and its moves go before the EO's history. */
  lemma InverseDrFollowsEo(stage: string, found: seq<string>, eo: Step)
    ensures var x := Step(stage, [], found, Some(eo));
            && CumulativeMoveCount(x) == CumulativeMoveCount(eo) + |found|
            && AllMoves(x) == Invert(found) + AllMoves(eo)
  {
  }

  // ----- select_drs -----

  /** `m.replace("'", "").replace("L", "R").replace("D", "U").replace("B", "F")`: the axis of a face turn. */
  function AxisOf(m: string): string {
    if m == [] then []
    else
      var c := m[0];
      var rest := AxisOf(m[1..]);
      if c == '\'' then rest
      else [if c == 'L' then 'R' else if c == 'D' then 'U' else if c == 'B' then 'F' else c] + rest
  }

  /** The axes of the quarter turns (moves without a `2`) of a move list. */
  function QuarterTurnAxes(ms: seq<string>): set<string> {
    set m | m in ms && '2' !in m :: AxisOf(m)
  }

  /** The moves `is_findable` looks at: the normal moves, or the inverse ones if there are none, without the last. */
  function FindableMoves(s: Step): seq<string> {
    DropLast(if s.moves != [] then s.moves else s.movesOnInverse)
  }

  /** `is_findable`: before its last move, the DR turns quarter turns on exactly one axis. */
  predicate IsFindable(s: Step) {
    |QuarterTurnAxes(FindableMoves(s))| == 1
  }

  function FindableOnly(steps: seq<Step>): seq<Step> {
    Keep(IsFindable, steps)
  }

  /** `select_drs`, for either kind of DR strategy, given the sorted list. */
  function SelectedDrs(d: DRStrategy, drs: seq<Step>, ties: nat -> real): seq<Step> {
    match d.kind
    case Optimal => SelectedSteps(drs, ties, d.maxDrAttempts)
    case SingleAxis => Prefix(FindableOnly(RankedSteps(drs, ties)), d.maxDrAttempts)
  }

  /** `select_drs`: sort the caller's list in place, then cut it (after the findable filter for `SingleAxisDR`). */
  method SelectDrs(d: DRStrategy, drs: array<Step>, ties: nat -> real) returns (selected: seq<Step>)
    modifies drs
    ensures drs[..] == RankedSteps(old(drs[..]), ties)
    ensures selected == SelectedDrs(d, old(drs[..]), ties)
  {
    SortSteps(drs, ties);
    match d.kind
    case Optimal =>
      selected := Prefix(drs[..], d.maxDrAttempts);
    case SingleAxis =>
      selected := Prefix(FindableOnly(drs[..]), d.maxDrAttempts);
  }

  /** `is_findable`, as a reference definition: some quarter turn before the last move, and all of them on one axis. */
  lemma FindableIff(s: Step)
    ensures var ms := FindableMoves(s);
            IsFindable(s) <==>
              && (exists i :: 0 <= i < |ms| && '2' !in ms[i])
              && (forall i, j :: 0 <= i < |ms| && 0 <= j < |ms| && '2' !in ms[i] && '2' !in ms[j] ==>
                    AxisOf(ms[i]) == AxisOf(ms[j]))
  {
    var ms := FindableMoves(s);
    var axes := QuarterTurnAxes(ms);
    if IsFindable(s) {
      var a :| a in axes;
      assert axes == {a} by {
        assert |axes - {a}| == 0;
      }
      var m :| m in ms && '2' !in m && AxisOf(m) == a;
      var i :| 0 <= i < |ms| && ms[i] == m;
      forall i, j | 0 <= i < |ms| && 0 <= j < |ms| && '2' !in ms[i] && '2' !in ms[j]
        ensures AxisOf(ms[i]) == AxisOf(ms[j])
      {
        assert AxisOf(ms[i]) in axes && AxisOf(ms[j]) in axes;
      }
    } else if exists i :: 0 <= i < |ms| && '2' !in ms[i] {
      var i :| 0 <= i < |ms| && '2' !in ms[i];
      var a := AxisOf(ms[i]);
      assert a in axes;
      assert axes != {a};
      assert exists b :: b in axes && b != a;
      var b :| b in axes && b != a;
      var k :| 0 <= k < |ms| && '2' !in ms[k] && AxisOf(ms[k]) == b;
    }
  }

  /**
   * The findable filter, then the cut, on a ranked list: `min(attempts, number
   * of findable DRs)` of them, all findable, in rank order; a result shorter
   * than the bound holds every findable DR as often as the list does; no
   * findable DR left out ranks before one that is kept.
   */
  lemma FindableCut(ranked: seq<Step>, attempts: int)
    requires InRankOrder(ranked)
    ensures var r := Prefix(FindableOnly(ranked), attempts);
            && multiset(r) <= multiset(ranked)
            && (attempts >= 0 ==> |r| == Min(attempts, |FindableOnly(ranked)|))
            && InRankOrder(r)
            && (forall x :: x in r ==> IsFindable(x))
            && (|r| < attempts ==> forall x :: IsFindable(x) ==> multiset(r)[x] == multiset(ranked)[x])
            && KeepsBest(r, FindableOnly(ranked))
  {
    var f := FindableOnly(ranked);
    KeepMultiset(IsFindable, ranked);
    KeepInRankOrder(IsFindable, ranked);
    PrefixMultiset(f, attempts);
    var r := Prefix(f, attempts);
    forall x | x in r
      ensures IsFindable(x)
    {
      var k :| 0 <= k < |r| && r[k] == x;
      assert f[k] == x;
    }
    forall i, j | 0 <= i < j < |r|
      ensures NotAfter(r[i], r[j])
    {
      assert r[i] == f[i] && r[j] == f[j];
    }
    if |r| < attempts {
      assert r == f;
      KeepCounts(IsFindable, ranked);
    }
    PrefixKeepsBest(f, attempts);
  }

  /**
   * `select_drs`: taken from the input, in rank order. `OptimalDR` keeps
   * `min(max_dr_attempts, len)`; `SingleAxisDR` filters before the cut, so it
   * keeps `min(max_dr_attempts, number of findable DRs)`, all findable, and
   * when fewer than the bound come out, every findable DR as often as the
   * input holds it. Either way the kept DRs are the best ranked of those
   * eligible: no DR left out ranks before one that is kept.
   */
  lemma SelectedDrsSpec(d: DRStrategy, drs: seq<Step>, ties: nat -> real)
    ensures var r := SelectedDrs(d, drs, ties);
            && multiset(r) <= multiset(drs)
            && (d.maxDrAttempts >= 0 ==> |r| <= d.maxDrAttempts)
            && (d.kind == Optimal && d.maxDrAttempts >= 0 ==> |r| == Min(d.maxDrAttempts, |drs|))
            && (d.kind == SingleAxis && d.maxDrAttempts >= 0 ==> |r| == Min(d.maxDrAttempts, |FindableOnly(drs)|))
            && InRankOrder(r)
            && (d.kind == SingleAxis ==> forall x :: x in r ==> IsFindable(x))
            && (d.kind == SingleAxis && |r| < d.maxDrAttempts ==>
                  forall x :: IsFindable(x) ==> multiset(r)[x] == multiset(drs)[x])
            && (d.kind == Optimal ==> KeepsBest(r, drs))
            && (d.kind == SingleAxis ==> KeepsBest(r, FindableOnly(drs)))
  {
    match d.kind
    case Optimal =>
      SelectedStepsSpec(drs, ties, d.maxDrAttempts);
    case SingleAxis =>
      var ranked := RankedSteps(drs, ties);
      RankedPermutation(drs, ties);
      RankedInOrder(drs, ties);
      FindableCut(ranked, d.maxDrAttempts);
      KeepPermutation(IsFindable, ranked, drs);
  }

  // ----- Finishes -----

  datatype FinishStrategy = OptimalDRFinish | EasyCornerDRFinish(maxQtCount: int, maxLength: int)

  /** `EasyCornerDRFinish()` with its default arguments. */
  const DefaultEasyCorner: FinishStrategy := EasyCornerDRFinish(3, 14)

  /** `f"{dr.name.split('-')[0]}fin"`. */
  function FinishStage(drName: string): string {
    SplitOn(drName, {'-'})[0] + "fin"
  }

  /** The finish stage of a DR stage `<dr>-<eo>` is `<dr>fin`. */
  lemma FinishStageOf(dr: string, eo: string)
    requires Avoids(dr, {'-'})
    ensures FinishStage(dr + "-" + eo) == dr + "fin"
  {
    SplitAt(dr, '-', eo, {'-'});
    SplitWithout(dr, {'-'});
    assert dr + "-" + eo == dr + ['-'] + eo;
  }

  /** `qt_count`: the normal-side moves without a `2`. */
  function QuarterTurnCount(ms: seq<string>): (n: nat)
    ensures n <= |ms|
  {
    if ms == [] then 0
    else QuarterTurnCount(ms[..|ms| - 1]) + (if '2' !in ms[|ms| - 1] then 1 else 0)
  }

  lemma {:induction false} QuarterTurnCountAppend(a: seq<string>, b: seq<string>)
    ensures QuarterTurnCount(a + b) == QuarterTurnCount(a) + QuarterTurnCount(b)
    decreases |b|
  {
    if b != [] {
      QuarterTurnCountAppend(a, b[..|b| - 1]);
      assert (a + b)[..|a + b| - 1] == a + b[..|b| - 1];
    } else {
      assert a + b == a;
    }
  }

  function QtCount(s: Step): nat {
    QuarterTurnCount(s.moves)
  }

  /** The extra solver arguments of each finish strategy. */
  function FinishArgs(f: FinishStrategy): seq<Arg> {
    match f
    case OptimalDRFinish => []
    case EasyCornerDRFinish(_, maxLength) => [Flag("-M"), Number(maxLength)]
  }

  /** How each finish strategy picks from the solver's finishes. */
  function PickFinish(f: FinishStrategy, finishes: seq<Step>): seq<Step> {
    match f
    case OptimalDRFinish => Prefix(finishes, 1)
    case EasyCornerDRFinish(maxQtCount, _) => Prefix(WithFewQuarterTurns(finishes, maxQtCount), 1)
  }

  /** `[f for f in finishes if qt_count(f) <= max_qt_count]`. */
  function WithFewQuarterTurns(finishes: seq<Step>, maxQtCount: int): seq<Step> {
    Keep(s => QtCount(s) <= maxQtCount, finishes)
  }

  /** `dr_to_finish`. */
  function DrToFinish(f: FinishStrategy, solver: Solver, dr: Step): seq<Step> {
    PickFinish(f, NissySteps(solver, FinishStage(dr.name), dr, FinishArgs(f)))
  }

  /** `dr_to_finish` of each finish strategy: one solver call on the DR, then the pick. */
  method FinishDr(f: FinishStrategy, solver: Solver, dr: Step) returns (r: seq<Step>)
    ensures r == DrToFinish(f, solver, dr)
  {
    var finishStep := SplitOn(dr.name, {'-'})[0] + "fin";
    match f
    case OptimalDRFinish =>
      var finishes := Nissy(solver, finishStep, dr, []);
      r := Prefix(finishes, 1);
    case EasyCornerDRFinish(maxQtCount, maxLength) =>
      var finishes := Nissy(solver, finishStep, dr, [Flag("-M"), Number(maxLength)]);
      r := Prefix(WithFewQuarterTurns(finishes, maxQtCount), 1);
  }

  /**
   * The finish picked: at most one; the optimal finish strategy takes the
   * solver's first finish, if any; the easy-corner one takes the first finish
   * with at most `max_qt_count` quarter turns, and nothing if there is none.
   */
  lemma PickFinishSpec(f: FinishStrategy, finishes: seq<Step>)
    ensures var r := PickFinish(f, finishes);
            && |r| <= 1
            && (forall x :: x in r ==> x in finishes)
            && (f.OptimalDRFinish? ==> (r == [] <==> finishes == []) && (r != [] ==> r[0] == finishes[0]))
            && (f.EasyCornerDRFinish? ==>
                  && (r == [] <==> forall x :: x in finishes ==> QtCount(x) > f.maxQtCount)
                  && (r != [] ==>
                        && QtCount(r[0]) <= f.maxQtCount
                        && exists i :: 0 <= i < |finishes| && finishes[i] == r[0]
                             && forall j :: 0 <= j < i ==> QtCount(finishes[j]) > f.maxQtCount))
  {
    if f.EasyCornerDRFinish? {
      var p := s => QtCount(s) <= f.maxQtCount;
      var kept := Keep(p, finishes);
      if kept != [] {
        KeepFirst(p, finishes);
      } else {
        forall x | x in finishes
          ensures QtCount(x) > f.maxQtCount
        {
          var k :| 0 <= k < |finishes| && finishes[k] == x;
        }
      }
    }
  }

  /** Every finish is named after the finish stage of the DR and follows the DR. */
  lemma DrToFinishShape(f: FinishStrategy, solver: Solver, dr: Step)
    ensures var r := DrToFinish(f, solver, dr);
            |r| <= 1 && forall x :: x in r ==> x.name == FinishStage(dr.name) && x.previous == Some(dr)
  {
    var outs := NissySteps(solver, FinishStage(dr.name), dr, FinishArgs(f));
    NissyShape(solver, FinishStage(dr.name), dr, FinishArgs(f));
    PickFinishSpec(f, outs);
  }
}
