/**
 * The driver of one solution attempt: a root Step for the scramble, then EO,
 * DR and finish stages strictly in that order, collected in a `SolutionSet`
 * object; and the text summary of its best finishes.
 */
module Pipeline {
  import opened Wrappers
  import opened PyText
  import opened Moves
  import opened Steps
  import opened SolverOutput
  import opened Strategies
  import opened Stages

  /** A meta: one strategy per stage. */
  datatype Meta = Meta(eoStrategy: GeneralEO, drStrategy: DRStrategy, finishStrategy: FinishStrategy)

  /** The entries of `available_metas`. */
  const NearOptimal: Meta := Meta(DefaultEO, DefaultOptimalDR, OptimalDRFinish)
  const SingleAxisDrMeta: Meta := Meta(DefaultEO, DefaultSingleAxisDR, OptimalDRFinish)
  const DebugMeta: Meta := Meta(GeneralEO(1, 10, true, 1), OptimalDR(2, 10, true, 0), OptimalDRFinish)
  const EasyCorners: Meta := Meta(DefaultEO, DefaultOptimalDR, DefaultEasyCorner)

  /** The root of an attempt: `Step(name="scramble", moves=scramble_moves)`. */
  function ScrambleStep(scrambleMoves: seq<string>): Step {
    Step("scramble", scrambleMoves, [], None)
  }

  /** The scramble is a root with nothing on the inverse side, the scramble as its history, and no moves counted. */
  lemma ScrambleStepRoot(scrambleMoves: seq<string>)
    ensures var root := ScrambleStep(scrambleMoves);
            && IsRoot(root) && Chain(root) == []
            && AllMoves(root) == scrambleMoves
            && CumulativeMoveCount(root) == 0 && !RequiresNiss(root)
  {
    var root := ScrambleStep(scrambleMoves);
    assert Invert([]) == [];
    assert AllMoves(root) == Invert([]) + [] + scrambleMoves;
  }

  // ----- Rendering -----

  /** `f"{step} // {step.name} ({step.cumulative_move_count})"`. */
  function SolutionLine(step: Step): string {
    StepText(step) + " // " + step.name + " (" + NatToString(CumulativeMoveCount(step)) + ")"
  }

  /** The line of each Step, each one ended by a newline. */
  function Lines(steps: seq<Step>): string {
    if steps == [] then "" else SolutionLine(steps[0]) + "\n" + Lines(steps[1..])
  }

  /** What `solution_summary(sol)` returns. */
  function SolutionText(sol: Step): string {
    Lines(Chain(sol))
  }

  /** What `summary` returns for the given solutions: each one's text followed by an empty line. */
  function SummaryText(sols: seq<Step>): string {
    if sols == [] then "" else SolutionText(sols[0]) + "\n" + SummaryText(sols[1..])
  }

  lemma LinesPrefix(steps: seq<Step>, i: int)
    requires 0 <= i < |steps|
    ensures Lines(steps[..i + 1]) == Lines(steps[..i]) + SolutionLine(steps[i]) + "\n"
  {
    assert steps[..i + 1] == steps[..i] + [steps[i]];
    LinesSnoc(steps[..i], steps[i]);
  }

  lemma {:induction false} LinesSnoc(steps: seq<Step>, x: Step)
    ensures Lines(steps + [x]) == Lines(steps) + SolutionLine(x) + "\n"
  {
    if steps == [] {
      assert [x][1..] == [];
    } else {
      assert (steps + [x])[1..] == steps[1..] + [x];
      LinesSnoc(steps[1..], x);
    }
  }

  lemma SummaryTextPrefix(sols: seq<Step>, i: int)
    requires 0 <= i < |sols|
    ensures SummaryText(sols[..i + 1]) == SummaryText(sols[..i]) + SolutionText(sols[i]) + "\n"
  {
    assert sols[..i + 1] == sols[..i] + [sols[i]];
    SummaryTextSnoc(sols[..i], sols[i]);
  }

  lemma {:induction false} SummaryTextSnoc(sols: seq<Step>, x: Step)
    ensures SummaryText(sols + [x]) == SummaryText(sols) + SolutionText(x) + "\n"
  {
    if sols == [] {
      assert [x][1..] == [];
    } else {
      assert (sols + [x])[1..] == sols[1..] + [x];
      SummaryTextSnoc(sols[1..], x);
    }
  }

  /** The lines of a list of Steps, without their newlines. */
  function LineTexts(steps: seq<Step>): (r: seq<string>)
    ensures |r| == |steps| && forall i :: 0 <= i < |steps| ==> r[i] == SolutionLine(steps[i])
  {
    seq(|steps|, i requires 0 <= i < |steps| => SolutionLine(steps[i]))
  }

  predicate SingleLines(steps: seq<Step>) {
    forall x :: x in steps ==> Avoids(SolutionLine(x), {'\n'})
  }

  /** A line without a newline, a newline, and the rest: the line is split off whole. */
  lemma SplitLine(line: string, rest: string, restParts: seq<string>)
    requires Avoids(line, {'\n'}) && SplitOn(rest, {'\n'}) == restParts
    ensures SplitOn(line + "\n" + rest, {'\n'}) == [line] + restParts
  {
    SplitAt(line, '\n', rest, {'\n'});
    SplitWithout(line, {'\n'});
    assert line + "\n" + rest == line + ['\n'] + rest;
  }

  /** Each string followed by a newline. */
  function Terminated(parts: seq<string>): string {
    if parts == [] then "" else parts[0] + "\n" + Terminated(parts[1..])
  }

  /** Newline-terminated lines split back into the lines, then nothing. */
  lemma {:induction false} TerminatedSplit(parts: seq<string>)
    requires forall k :: 0 <= k < |parts| ==> Avoids(parts[k], {'\n'})
    ensures SplitOn(Terminated(parts), {'\n'}) == parts + [""]
  {
    if parts != [] {
      var rest := parts[1..];
      assert forall k :: 0 <= k < |rest| ==> rest[k] == parts[k + 1];
      TerminatedSplit(rest);
      SplitLine(parts[0], Terminated(rest), rest + [""]);
      assert parts == [parts[0]] + rest;
    }
  }

  lemma {:induction false} LinesTerminated(steps: seq<Step>)
    ensures Lines(steps) == Terminated(LineTexts(steps))
  {
    if steps != [] {
      LinesTerminated(steps[1..]);
      assert LineTexts(steps)[1..] == LineTexts(steps[1..]);
    }
  }

  /** Splitting the rendering at newlines gives back exactly one line per Step, in order, then nothing. */
  lemma LinesSplit(steps: seq<Step>)
    requires SingleLines(steps)
    ensures SplitOn(Lines(steps), {'\n'}) == LineTexts(steps) + [""]
  {
    var parts := LineTexts(steps);
    forall k | 0 <= k < |parts|
      ensures Avoids(parts[k], {'\n'})
    {
      assert steps[k] in steps;
    }
    TerminatedSplit(parts);
    LinesTerminated(steps);
  }

  /** The lines of every solution in turn, each solution followed by an empty line. */
  function Blocks(sols: seq<Step>): seq<string> {
    if sols == [] then [] else LineTexts(Chain(sols[0])) + [""] + Blocks(sols[1..])
  }

  /** Split at newlines, a summary is the lines of each solution's chain, in order, with an empty line after each solution. */
  lemma {:induction false} SummarySplit(sols: seq<Step>)
    requires forall sol :: sol in sols ==> SingleLines(Chain(sol))
    ensures SplitOn(SummaryText(sols), {'\n'}) == Blocks(sols) + [""]
  {
    if sols != [] {
      var rest := sols[1..];
      assert forall sol :: sol in rest ==> sol in sols;
      SummarySplit(rest);
      LinesSplit(Chain(sols[0]));
      SplitAt(SolutionText(sols[0]), '\n', SummaryText(rest), {'\n'});
      assert SummaryText(sols) == SolutionText(sols[0]) + ['\n'] + SummaryText(rest);
    }
  }

  // ----- SolutionSet -----

  /** The default `solution_count` of `summary`. */
  const DefaultSolutionCount: int := 3

  /** The outcome of an attempt: the scramble and the Steps each stage kept. */
  class SolutionSet {
    var scramble: Step
    var eos: seq<Step>
    var drs: seq<Step>
    var finishes: seq<Step>

    constructor(scramble: Step, eos: seq<Step>, drs: seq<Step>, finishes: seq<Step>)
      ensures this.scramble == scramble && this.eos == eos && this.drs == drs && this.finishes == finishes
    {
      this.scramble := scramble;
      this.eos := eos;
      this.drs := drs;
      this.finishes := finishes;
    }

    /** `solution_summary`: one line per Step of `sol.from_beginning()`. */
    method SolutionSummary(sol: Step) returns (s: string)
      ensures s == SolutionText(sol)
    {
      s := "";
      var steps := FromBeginning(sol);
      for i := 0 to |steps|
        invariant s == Lines(steps[..i])
      {
        LinesPrefix(steps, i);
        s := s + SolutionLine(steps[i]) + "\n";
      }
      assert steps[..|steps|] == steps;
    }

    /** `summary`: the first `solution_count` finishes (Python slice semantics), each rendered and followed by an empty line. */
    method Summary(solutionCount: int) returns (s: string)
      ensures s == SummaryText(Prefix(finishes, solutionCount))
    {
      s := "";
      var sols := Prefix(finishes, solutionCount);
      for i := 0 to |sols|
        invariant s == SummaryText(sols[..i])
      {
        var text := SolutionSummary(sols[i]);
        SummaryTextPrefix(sols, i);
        s := s + text + "\n";
      }
      assert sols[..|sols|] == sols;
    }
  }

  // ----- What an attempt produces -----

  /** The EOs an attempt keeps. */
  function AttemptEos(meta: Meta, solver: Solver, scrambleMoves: seq<string>, eoTies: nat -> real): (eos: seq<Step>)
    ensures KnownEos(eos)
  {
    var root := ScrambleStep(scrambleMoves);
    SelectedEosShape(meta.eoStrategy, solver, root, eoTies);
    SelectedEos(meta.eoStrategy, solver, root, eoTies)
  }

  /** The DRs an attempt keeps. */
  function AttemptDrs(meta: Meta, solver: Solver, scrambleMoves: seq<string>, eoTies: nat -> real, drTies: nat -> real): seq<Step> {
    FoundDrs(meta.drStrategy, solver, AttemptEos(meta, solver, scrambleMoves, eoTies), drTies)
  }

  /** The finishes an attempt keeps. */
  function AttemptFinishes(meta: Meta, solver: Solver, scrambleMoves: seq<string>, eoTies: nat -> real, drTies: nat -> real): seq<Step> {
    FinishesOf(meta.finishStrategy, solver, AttemptDrs(meta, solver, scrambleMoves, eoTies, drTies))
  }

  /**
   * `attempt`: the scramble as a root, then the EO, DR and finish stages, each
   * working on what the one before kept; the SolutionSet holds the root and
   * the three results.
   */
  method Attempt(meta: Meta, solver: Solver, scrambleMoves: seq<string>, eoTies: nat -> real, drTies: nat -> real)
    returns (solutions: SolutionSet)
    ensures fresh(solutions)
    ensures solutions.scramble == ScrambleStep(scrambleMoves)
    ensures solutions.eos == AttemptEos(meta, solver, scrambleMoves, eoTies)
    ensures solutions.drs == AttemptDrs(meta, solver, scrambleMoves, eoTies, drTies)
    ensures solutions.finishes == AttemptFinishes(meta, solver, scrambleMoves, eoTies, drTies)
  {
    var scramble := Step("scramble", scrambleMoves, [], None);
    var eos := FindEos(meta.eoStrategy, solver, scramble, eoTies);
    assert eos == AttemptEos(meta, solver, scrambleMoves, eoTies);
    var drs := FindDrs(meta.drStrategy, solver, eos, drTies);
    var finishes := DrsToFinishes(meta.finishStrategy, solver, drs);
    solutions := new SolutionSet(scramble, eos, drs, finishes);
  }

  /** A Step two links after a root: its chain is the three Steps and its count is theirs. */
  lemma ThreeStepChain(f: Step, dr: Step, eo: Step, root: Step)
    requires f.previous == Some(dr) && dr.previous == Some(eo) && eo.previous == Some(root) && IsRoot(root)
    ensures Chain(f) == [eo, dr, f] && Depth(f) == 3 && Root(f) == root
    ensures CumulativeMoveCount(f) == MoveCount(eo) + MoveCount(dr) + MoveCount(f)
  {
    assert Chain(eo) == Chain(root) + [eo] == [eo];
    assert Chain(dr) == Chain(eo) + [dr] == [eo, dr];
    assert Depth(eo) == 1 && Depth(dr) == 2;
    assert Root(eo) == root && Root(dr) == root;
    assert CumulativeMoveCount(eo) == MoveCount(eo);
  }

  /** Three lists, each Step of one following a Step of the one before, the first following a root or its inverse. */
  lemma StagesChain(root: Step, eos: seq<Step>, drs: seq<Step>, finishes: seq<Step>)
    requires IsRoot(root)
    requires forall x :: x in eos ==> x.previous == Some(root) || x.previous == Some(OnInverse(root))
    requires forall x :: x in drs ==> x.previous.Some? && x.previous.value in eos
    requires forall x :: x in finishes ==> x.previous.Some? && x.previous.value in drs
    ensures forall f :: f in finishes ==>
              && |Chain(f)| == 3 && Chain(f)[2] == f && Chain(f)[1] in drs && Chain(f)[0] in eos
              && (Root(f) == root || Root(f) == OnInverse(root))
              && CumulativeMoveCount(f) == MoveCount(Chain(f)[0]) + MoveCount(Chain(f)[1]) + MoveCount(f)
  {
    forall f | f in finishes
      ensures && |Chain(f)| == 3 && Chain(f)[2] == f && Chain(f)[1] in drs && Chain(f)[0] in eos
              && (Root(f) == root || Root(f) == OnInverse(root))
              && CumulativeMoveCount(f) == MoveCount(Chain(f)[0]) + MoveCount(Chain(f)[1]) + MoveCount(f)
    {
      var dr := f.previous.value;
      var eo := dr.previous.value;
      ThreeStepChain(f, dr, eo, eo.previous.value);
    }
  }

  /**
   * Every solution of an attempt is an EO, a DR and a finish: its chain has
   * exactly three Steps, the first an EO the attempt kept, the second a DR it
   * kept, and it starts from the scramble or from the scramble's inverse; its
   * count is the three Steps' moves.
   */
  lemma AttemptChains(meta: Meta, solver: Solver, scrambleMoves: seq<string>, eoTies: nat -> real, drTies: nat -> real)
    ensures var root := ScrambleStep(scrambleMoves);
            var eos := AttemptEos(meta, solver, scrambleMoves, eoTies);
            var drs := AttemptDrs(meta, solver, scrambleMoves, eoTies, drTies);
            forall f :: f in AttemptFinishes(meta, solver, scrambleMoves, eoTies, drTies) ==>
              && |Chain(f)| == 3 && Chain(f)[2] == f && Chain(f)[1] in drs && Chain(f)[0] in eos
              && (Root(f) == root || Root(f) == OnInverse(root))
              && CumulativeMoveCount(f) == MoveCount(Chain(f)[0]) + MoveCount(Chain(f)[1]) + MoveCount(f)
  {
    var root := ScrambleStep(scrambleMoves);
    var eos := AttemptEos(meta, solver, scrambleMoves, eoTies);
    var drs := AttemptDrs(meta, solver, scrambleMoves, eoTies, drTies);
    SelectedEosShape(meta.eoStrategy, solver, root, eoTies);
    FoundDrsFollow(meta.drStrategy, solver, eos, drTies);
    FinishesFollow(meta.finishStrategy, solver, drs);
    StagesChain(root, eos, drs, AttemptFinishes(meta, solver, scrambleMoves, eoTies, drTies));
  }
}
