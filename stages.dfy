/**
 * The three stages of an attempt as the abstract strategy classes run them:
 * each stage applies its per-item search to every item of the stage before,
 * concatenates the results in input order, and then selects (EO, DR) or sorts
 * by move count (finish). The worker pool of the source maps in input order,
 * so here the map is a sequential loop.
 */
module Stages {
  import opened Wrappers
  import opened PyText
  import opened Steps
  import opened SolverOutput
  import opened Ranking
  import opened Strategies

  // ----- find_eos -----

  /** The EO axes, in the order `find_eos` searches them. */
  const EoAxes: seq<string> := ["eofb", "eorl", "eoud"]

  /** The EOs of each axis, concatenated in axis order. */
  function EosOnAxes(e: GeneralEO, solver: Solver, scramble: Step, axes: seq<string>): seq<Step> {
    if axes == [] then []
    else EosOnAxes(e, solver, scramble, axes[..|axes| - 1]) + EosOnAxis(e, solver, axes[|axes| - 1], scramble)
  }

  /** The candidates `find_eos` hands to `select_eos`. */
  function FoundEos(e: GeneralEO, solver: Solver, scramble: Step): seq<Step> {
    EosOnAxes(e, solver, scramble, EoAxes)
  }

  /** What `find_eos` returns. */
  function SelectedEos(e: GeneralEO, solver: Solver, scramble: Step, ties: nat -> real): seq<Step> {
    SelectedSteps(FoundEos(e, solver, scramble), ties, e.maxEoAttempts)
  }

  lemma EosOnAxesSnoc(e: GeneralEO, solver: Solver, scramble: Step, axes: seq<string>, k: int)
    requires 0 <= k < |axes|
    ensures EosOnAxes(e, solver, scramble, axes[..k + 1])
         == EosOnAxes(e, solver, scramble, axes[..k]) + EosOnAxis(e, solver, axes[k], scramble)
  {
    assert axes[..k + 1][..k] == axes[..k];
  }

  /** A list as an array of the same contents. */
  method ToArray(s: seq<Step>) returns (a: array<Step>)
    ensures fresh(a) && a[..] == s
  {
    a := new Step[|s|](i requires 0 <= i < |s| => s[i]);
  }

  /** `EOStrategy.find_eos`: the EOs of the three axes, then `select_eos`. */
  method FindEos(e: GeneralEO, solver: Solver, scramble: Step, ties: nat -> real) returns (eos: seq<Step>)
    ensures eos == SelectedEos(e, solver, scramble, ties)
  {
    var found: seq<Step> := [];
    for k := 0 to |EoAxes|
      invariant found == EosOnAxes(e, solver, scramble, EoAxes[..k])
    {
      EosOnAxesSnoc(e, solver, scramble, EoAxes, k);
      var axisEos := FindEosOnAxis(e, solver, EoAxes[k], scramble);
      found := found + axisEos;
    }
    assert EoAxes[..|EoAxes|] == EoAxes;
    var a := ToArray(found);
    eos := SelectEos(e, a, ties);
  }

  /** Every EO found is named after one of the axes and follows the scramble or its inverse root. */
  lemma {:induction false} EosOnAxesShape(e: GeneralEO, solver: Solver, scramble: Step, axes: seq<string>)
    ensures forall x :: x in EosOnAxes(e, solver, scramble, axes) ==>
              x.name in axes && (x.previous == Some(scramble) || x.previous == Some(OnInverse(scramble)))
  {
    if axes != [] {
      var init, last := axes[..|axes| - 1], axes[|axes| - 1];
      var r0, r1 := EosOnAxes(e, solver, scramble, init), EosOnAxis(e, solver, last, scramble);
      EosOnAxesShape(e, solver, scramble, init);
      EosOnAxisShape(e, solver, last, scramble);
      EosOnAxisFollows(e, solver, last, scramble);
      assert EosOnAxes(e, solver, scramble, axes) == r0 + r1;
      NamedAppend(r0, r1, axes);
    }
  }

  /**
   * `find_eos`: at most `max_eo_attempts` EOs, taken from the candidates of
   * the three axes, in rank order, and none left out ranks before one that
   * is kept; each is named after its axis (so the DR
   * stage table has an entry for it) and follows the scramble or its inverse.
   */
  lemma FindEosSpec(e: GeneralEO, solver: Solver, scramble: Step, ties: nat -> real)
    ensures var found := FoundEos(e, solver, scramble);
            var r := SelectedEos(e, solver, scramble, ties);
            && multiset(r) <= multiset(found)
            && (e.maxEoAttempts >= 0 ==> |r| == Min(e.maxEoAttempts, |found|))
            && InRankOrder(r)
            && KeepsBest(r, found)
            && forall x :: x in r ==>
                 && x.name in EoAxes && x.name in EoToDrStages
                 && (x.previous == Some(scramble) || x.previous == Some(OnInverse(scramble)))
  {
    SelectedStepsSpec(FoundEos(e, solver, scramble), ties, e.maxEoAttempts);
    SelectedEosShape(e, solver, scramble, ties);
  }

  /** Each EO `find_eos` keeps is named after its axis and follows the scramble or its inverse. */
  lemma SelectedEosShape(e: GeneralEO, solver: Solver, scramble: Step, ties: nat -> real)
    ensures forall x :: x in SelectedEos(e, solver, scramble, ties) ==>
              && x.name in EoAxes && x.name in EoToDrStages
              && (x.previous == Some(scramble) || x.previous == Some(OnInverse(scramble)))
  {
    var found := FoundEos(e, solver, scramble);
    var r := SelectedEos(e, solver, scramble, ties);
    SelectedStepsSpec(found, ties, e.maxEoAttempts);
    EosOnAxesShape(e, solver, scramble, EoAxes);
    forall x | x in r
      ensures x in found
    {
      assert x in multiset(found);
    }
  }

  // ----- find_drs -----

  /** Every Step of the list is an EO the DR stage table knows. */
  predicate KnownEos(eos: seq<Step>) {
    forall x :: x in eos ==> x.name in EoToDrStages
  }

  /** The DRs of each EO, concatenated in EO order. */
  function DrsForEos(d: DRStrategy, solver: Solver, eos: seq<Step>): seq<Step>
    requires KnownEos(eos)
  {
    if eos == [] then []
    else DrsForEos(d, solver, eos[..|eos| - 1]) + DrsForEo(d, solver, eos[|eos| - 1])
  }

  /** What `find_drs` returns. */
  function FoundDrs(d: DRStrategy, solver: Solver, eos: seq<Step>, ties: nat -> real): seq<Step>
    requires KnownEos(eos)
  {
    SelectedDrs(d, DrsForEos(d, solver, eos), ties)
  }

  lemma DrsForEosSnoc(d: DRStrategy, solver: Solver, eos: seq<Step>, k: int)
    requires KnownEos(eos) && 0 <= k < |eos|
    ensures KnownEos(eos[..k]) && KnownEos(eos[..k + 1])
    ensures DrsForEos(d, solver, eos[..k + 1]) == DrsForEos(d, solver, eos[..k]) + DrsForEo(d, solver, eos[k])
  {
    assert eos[..k + 1][..k] == eos[..k];
  }

  /** `DRStrategy.find_drs`: the DRs of every EO, then `select_drs`. */
  method FindDrs(d: DRStrategy, solver: Solver, eos: seq<Step>, ties: nat -> real) returns (drs: seq<Step>)
    requires KnownEos(eos)
    ensures drs == FoundDrs(d, solver, eos, ties)
  {
    var found: seq<Step> := [];
    for k := 0 to |eos|
      invariant KnownEos(eos[..k])
      invariant found == DrsForEos(d, solver, eos[..k])
    {
      DrsForEosSnoc(d, solver, eos, k);
      var eoDrs := FindDrsForEo(d, solver, eos[k]);
      found := found + eoDrs;
    }
    assert eos[..|eos|] == eos;
    var a := ToArray(found);
    drs := SelectDrs(d, a, ties);
  }

  /** Every DR found follows one of the EOs, and belongs to one of the DR stages of that EO's axis. */
  lemma {:induction false} DrsForEosShape(d: DRStrategy, solver: Solver, eos: seq<Step>)
    requires KnownEos(eos)
    ensures forall x :: x in DrsForEos(d, solver, eos) ==>
              && x.previous.Some? && x.previous.value in eos
              && x.name in EoToDrStages[x.previous.value.name]
  {
    if eos != [] {
      var init, last := eos[..|eos| - 1], eos[|eos| - 1];
      var r0, r1 := DrsForEos(d, solver, init), DrsForEo(d, solver, last);
      DrsForEosShape(d, solver, init);
      DrsForEoShape(d, solver, last);
      assert DrsForEos(d, solver, eos) == r0 + r1;
      FollowAppend(r0, r1, eos);
    }
  }

  /**
   * `find_drs`: what `select_drs` promises, over the DRs of all EOs: exactly
   * `min(max_dr_attempts, len)` of them for `OptimalDR`, and
   * `min(max_dr_attempts, number of findable ones)` for `SingleAxisDR`; each
   * DR follows one of the given EOs, and none of the eligible DRs left out
   * ranks before one that is kept.
   */
  lemma FindDrsSpec(d: DRStrategy, solver: Solver, eos: seq<Step>, ties: nat -> real)
    requires KnownEos(eos)
    ensures var found := DrsForEos(d, solver, eos);
            var r := FoundDrs(d, solver, eos, ties);
            && multiset(r) <= multiset(found)
            && (d.maxDrAttempts >= 0 ==> |r| <= d.maxDrAttempts)
            && (d.kind == Optimal && d.maxDrAttempts >= 0 ==> |r| == Min(d.maxDrAttempts, |found|))
            && (d.kind == SingleAxis && d.maxDrAttempts >= 0 ==> |r| == Min(d.maxDrAttempts, |FindableOnly(found)|))
            && InRankOrder(r)
            && (d.kind == SingleAxis ==> forall x :: x in r ==> IsFindable(x))
            && (d.kind == SingleAxis && |r| < d.maxDrAttempts ==>
                  forall x :: IsFindable(x) ==> multiset(r)[x] == multiset(found)[x])
            && (d.kind == Optimal ==> KeepsBest(r, found))
            && (d.kind == SingleAxis ==> KeepsBest(r, FindableOnly(found)))
            && forall x :: x in r ==> x.previous.Some? && x.previous.value in eos
  {
    SelectedDrsSpec(d, DrsForEos(d, solver, eos), ties);
    FoundDrsFollow(d, solver, eos, ties);
  }

  /** Each DR `find_drs` keeps follows one of the given EOs. */
  lemma FoundDrsFollow(d: DRStrategy, solver: Solver, eos: seq<Step>, ties: nat -> real)
    requires KnownEos(eos)
    ensures forall x :: x in FoundDrs(d, solver, eos, ties) ==> x.previous.Some? && x.previous.value in eos
  {
    var found := DrsForEos(d, solver, eos);
    var r := FoundDrs(d, solver, eos, ties);
    SelectedDrsSpec(d, found, ties);
    DrsForEosShape(d, solver, eos);
    forall x | x in r
      ensures x in found
    {
      assert x in multiset(found);
    }
  }

  // ----- drs_to_finishes -----

  /** The finishes of each DR, concatenated in DR order. */
  function FinishesForDrs(f: FinishStrategy, solver: Solver, drs: seq<Step>): seq<Step> {
    if drs == [] then []
    else FinishesForDrs(f, solver, drs[..|drs| - 1]) + DrToFinish(f, solver, drs[|drs| - 1])
  }

  /** The key `lambda s: s.cumulative_move_count`, as a sort key whose other components are all equal. */
  function KeyOfCount(c: int): SortKey {
    SortKey(c, false, false, 0.0)
  }

  function CountKey(s: Step): SortKey {
    KeyOfCount(CumulativeMoveCount(s))
  }

  function CountKeys(steps: seq<Step>): (keys: seq<SortKey>)
    ensures |keys| == |steps| && forall i :: 0 <= i < |steps| ==> keys[i] == CountKey(steps[i])
  {
    seq(|steps|, i requires 0 <= i < |steps| => CountKey(steps[i]))
  }

  /** `steps.sort(key=lambda s: s.cumulative_move_count)`. */
  function ByMoveCount(steps: seq<Step>): seq<Step> {
    Items(SortRanked(Pair(CountKeys(steps), steps)))
  }

  /** What `drs_to_finishes` returns. */
  function FinishesOf(f: FinishStrategy, solver: Solver, drs: seq<Step>): seq<Step> {
    ByMoveCount(FinishesForDrs(f, solver, drs))
  }

  lemma FinishesForDrsSnoc(f: FinishStrategy, solver: Solver, drs: seq<Step>, k: int)
    requires 0 <= k < |drs|
    ensures FinishesForDrs(f, solver, drs[..k + 1]) == FinishesForDrs(f, solver, drs[..k]) + DrToFinish(f, solver, drs[k])
  {
    assert drs[..k + 1][..k] == drs[..k];
  }

  /** `FinishStrategy.drs_to_finishes`: the finishes of every DR, sorted by cumulative move count. */
  method DrsToFinishes(f: FinishStrategy, solver: Solver, drs: seq<Step>) returns (finishes: seq<Step>)
    ensures finishes == FinishesOf(f, solver, drs)
  {
    var found: seq<Step> := [];
    for k := 0 to |drs|
      invariant found == FinishesForDrs(f, solver, drs[..k])
    {
      FinishesForDrsSnoc(f, solver, drs, k);
      var drFinishes := FinishDr(f, solver, drs[k]);
      found := found + drFinishes;
    }
    assert drs[..|drs|] == drs;
    var a := ToArray(found);
    SortByKeys(a, CountKeys(a[..]));
    finishes := a[..];
  }

  /** The Steps with cumulative move count `c`, in order. */
  function WithCount(steps: seq<Step>, c: int): seq<Step> {
    Keep(x => CumulativeMoveCount(x) == c, steps)
  }

  /** Every element of the list is keyed by its own cumulative move count. */
  predicate CountKeyed(s: seq<Ranked>) {
    forall i :: 0 <= i < |s| ==> s[i].key == CountKey(s[i].item)
  }

  /** On a list keyed by move count, the Steps with a key are the Steps with that move count. */
  lemma {:induction false} CountKeyedFilter(s: seq<Ranked>, c: int)
    requires CountKeyed(s)
    ensures ItemsWithKey(s, KeyOfCount(c)) == WithCount(Items(s), c)
  {
    if s != [] {
      var init := s[..|s| - 1];
      CountKeyedFilter(init, c);
      assert Items(s)[..|s| - 1] == Items(init);
    }
  }

  /**
   * Sorting by move count permutes the list, orders it by cumulative move
   * count, and keeps the relative order of the Steps with equal counts.
   */
  lemma ByMoveCountSpec(steps: seq<Step>)
    ensures var r := ByMoveCount(steps);
            && multiset(r) == multiset(steps)
            && (forall i, j :: 0 <= i < j < |r| ==> CumulativeMoveCount(r[i]) <= CumulativeMoveCount(r[j]))
            && forall c :: WithCount(r, c) == WithCount(steps, c)
  {
    var p := Pair(CountKeys(steps), steps);
    var s := SortRanked(p);
    SortProject(ItemOf, p);
    SortMultiset(p);
    SortRankedSorted(p);
    assert Items(p) == steps;
    assert CountKeyed(s) by {
      forall i | 0 <= i < |s|
        ensures s[i].key == CountKey(s[i].item)
      {
        assert s[i] in multiset(p);
        var k :| 0 <= k < |p| && p[k] == s[i];
      }
    }
    forall i, j | 0 <= i < j < |s|
      ensures CumulativeMoveCount(Items(s)[i]) <= CumulativeMoveCount(Items(s)[j])
    {
      assert !KeyLess(s[j].key, s[i].key);
    }
    forall c
      ensures WithCount(Items(s), c) == WithCount(steps, c)
    {
      CountKeyedFilter(p, c);
      CountKeyedFilter(s, c);
      SortStable(p, KeyOfCount(c));
    }
  }

  lemma FinishesForDrsLength(f: FinishStrategy, solver: Solver, drs: seq<Step>)
    ensures |FinishesForDrs(f, solver, drs)| <= |drs|
  {
    if drs != [] {
      FinishesForDrsLength(f, solver, drs[..|drs| - 1]);
      DrToFinishShape(f, solver, drs[|drs| - 1]);
    }
  }

  /** Every finish follows one of the DRs and is named after that DR's finish stage. */
  lemma {:induction false} FinishesForDrsShape(f: FinishStrategy, solver: Solver, drs: seq<Step>)
    ensures forall x :: x in FinishesForDrs(f, solver, drs) ==>
              x.previous.Some? && x.previous.value in drs && x.name == FinishStage(x.previous.value.name)
  {
    if drs != [] {
      var init, last := drs[..|drs| - 1], drs[|drs| - 1];
      var r0, r1 := FinishesForDrs(f, solver, init), DrToFinish(f, solver, last);
      FinishesForDrsShape(f, solver, init);
      DrToFinishShape(f, solver, last);
      assert FinishesForDrs(f, solver, drs) == r0 + r1;
      FollowAppend(r0, r1, drs);
    }
  }

  /**
   * `drs_to_finishes`: at most one finish per DR, each following one of the
   * DRs, all of them sorted by cumulative move count, ties in DR order.
   */
  lemma DrsToFinishesSpec(f: FinishStrategy, solver: Solver, drs: seq<Step>)
    ensures var found := FinishesForDrs(f, solver, drs);
            var r := FinishesOf(f, solver, drs);
            && multiset(r) == multiset(found)
            && |r| <= |drs|
            && (forall i, j :: 0 <= i < j < |r| ==> CumulativeMoveCount(r[i]) <= CumulativeMoveCount(r[j]))
            && (forall c :: WithCount(r, c) == WithCount(found, c))
            && forall x :: x in r ==> x.previous.Some? && x.previous.value in drs
  {
    var found := FinishesForDrs(f, solver, drs);
    var r := FinishesOf(f, solver, drs);
    ByMoveCountSpec(found);
    FinishesForDrsLength(f, solver, drs);
    assert |r| == |found| by {
      assert |multiset(r)| == |multiset(found)|;
    }
    FinishesFollow(f, solver, drs);
  }

  /** Each finish `drs_to_finishes` returns follows one of the given DRs. */
  lemma FinishesFollow(f: FinishStrategy, solver: Solver, drs: seq<Step>)
    ensures forall x :: x in FinishesOf(f, solver, drs) ==> x.previous.Some? && x.previous.value in drs
  {
    var found := FinishesForDrs(f, solver, drs);
    var r := FinishesOf(f, solver, drs);
    ByMoveCountSpec(found);
    FinishesForDrsShape(f, solver, drs);
    forall x | x in r
      ensures x in found
    {
      assert x in multiset(found);
    }
  }
}
