# fmc-meta in Dafny

A model of the search pipeline of `fmc_meta`, a fewest-moves (FMC) Rubik's cube
helper. An attempt solves a scramble in three stages using the external solver
`nissy`: edge orientation (EO), then domino reduction (DR), then the finish.
Each stage works on the candidates the stage before it kept.

The model covers five parts:

- **Step** (`Steps`). A candidate is a `Step`: a datatype with its own normal
  moves, its moves on the inverse scramble (NISS), and an optional link to the
  Step it extends. The model covers:
  - the properties of a Step: all moves seen from the normal side, re-rooting
    on the inverse, move counts and the NISS flags;
  - listing the chain with `from_beginning`;
  - printing a Step;
  - the move-count histogram.
- **Moves** (`Moves`). The inverse table of the twelve quarter turns, and move
  inversion.
- **Solver output** (`SolverOutput`). The solver's command line, and the parser
  that turns the solver's standard output into Steps. The solver is a function
  from an argument vector to its standard output.
- **Stage policies** (`Strategies`, `Stages`, `Ranking`). Covered:
  - `GeneralEO`, `OptimalDR` and `SingleAxisDR`: searching on the normal side,
    on the inverse or with NISS, ranking with a stable sort and truncation, and
    the single-axis "findable" filter;
  - the two finish strategies;
  - the fan-in of the three abstract stage classes.
- **Driver** (`Pipeline`). `attempt` and the `SolutionSet` class whose
  `solution_summary` and `summary` render the result.

Modelling choices:

- Python's `str.strip`, `str.split`, `str.join`, slicing and `str(int)` are
  written out in `PyText`, so the parser keeps every edge case of the code.
- The random tie-break of the sort key is a parameter `ties: nat -> real`. The
  i-th element of the list being sorted draws `ties(i)`.
- The process pool's `map` keeps order, so it is modelled as a sequential loop.
- Sorting is Python's stable sort. It appears twice:
  - as a function: insertion with new elements placed after equal keys;
  - as an in-place insertion sort on an `array`, proved equal to the function.
- Loops of the source are methods with loop invariants, each proved equal to a
  specification function:
  - `from_beginning`;
  - the histogram loop;
  - the parser loops;
  - the `extend` steps of `find_eos_on_axis` (a method without a loop) and the
    stage loop of `find_drs_for_eo`;
  - the summaries.
- Three behaviours of the code, which the model keeps as written:
  - `move_count` counts raw moves, with no cancellation
    (`src/fmc_meta/__init__.py:58-60`). The repository's own move-count test
    expects cancellation: `tests/test_step.py:22-28` wants a count of 2 for
    `F2 U2 R` after `R F`, where the code counts 3.
    `Steps.RawCountsOfExampleChain` states the counts the code gives for that
    chain.
  - `requires_niss` follows Python's precedence at
    `src/fmc_meta/__init__.py:73`, where `^` binds tighter than `>`. So it
    stands for `not (len(moves) > len(previous.moves) > 0)`.
  - Nothing removes duplicate candidates. In the branch of `find_eos_on_axis`
    that checks the inverse with a split of 0 (`src/fmc_meta/strategies.py:54-62`),
    `all_eos.extend(eos)` runs at `src/fmc_meta/strategies.py:55` and again at
    `:62`, so the normal-side results appear twice.

## Model

| member | source | states |
|---|---|---|
| Moves.QuarterTurnsPaired | src/fmc_meta/__init__.py:11-24 | each of the twelve quarter turns has a different quarter turn as its inverse, and that one maps back to it |
| Moves.InverseOfInvolutive | src/fmc_meta/__init__.py:11-28 | `inverse.get(m, m)` applied twice gives back any token, including ones outside the table such as `R2` |
| Moves.ReverseMapTwice | src/fmc_meta/__init__.py:27-28 | reversing a list while mapping each element, done twice with a self-inverse map, gives back the list |
| Moves.Invert | src/fmc_meta/__init__.py:27-28 | `invert` keeps the length and puts the inverse of the i-th move at position `len - 1 - i` |
| Moves.InvertInvolutive | src/fmc_meta/__init__.py:27-28 | `invert(invert(ms)) == ms` |
| Moves.InvertAppend | src/fmc_meta/__init__.py:27-28 | `invert(a + b) == invert(b) + invert(a)` |
| Steps.Root | src/fmc_meta/__init__.py:38-42 | a helper: its contract records only that the Step reached by following `previous` has none |
| Steps.OnInverse | src/fmc_meta/__init__.py:44-50 | `on_inverse()` is a root named `inverse` with no moves on the inverse side |
| Steps.OnInverseRoundTrip | src/fmc_meta/__init__.py:44-56 | `all_moves` of `on_inverse()` is `invert(all_moves)`, inverting it gives back `all_moves`, and its cumulative count is 0 |
| Steps.AllMovesLength | src/fmc_meta/__init__.py:38-60 | the length of `all_moves` is the cumulative count plus the root's own raw move count |
| Steps.CumulativeIsChainTotal | src/fmc_meta/__init__.py:52-60 | `cumulative_move_count` is the sum of the raw counts of every non-root Step on the chain, 0 for a root |
| Steps.NissFlags | src/fmc_meta/__init__.py:62-73 | `includes_niss` iff both sides have moves; `requires_niss` is false for a root and after a Step that includes NISS, true after an inverse-only Step, and after a normal-only Step true exactly when the Step has no more normal moves than it |
| Steps.RawCountsOfExampleChain | src/fmc_meta/__init__.py:58-60 | for the chain built in `tests/test_step.py:7-42`, the code's raw counts are 3, 3, 3, 3 per step and 3, 6, 9, 12 cumulative (the test expects 2 and 5 for the third step) |
| Steps.FromBeginning | src/fmc_meta/__init__.py:75-82 | the loop that walks back and reverses returns the chain's non-root Steps in forward order |
| Steps.ChainShape | src/fmc_meta/__init__.py:75-82 | the chain is empty exactly for a root, its length is the depth, it ends with the Step itself, starts at a child of the root, and each element's `previous` is the one before it |
| Steps.CountByMoveCount | src/fmc_meta/__init__.py:103-105 | the dictionary's keys are exactly the counts that occur, each mapped to its number of occurrences |
| Steps.SortedKeys | src/fmc_meta/__init__.py:106 | the keys of the dictionary in strictly ascending order, each once |
| Steps.SortedItems | src/fmc_meta/__init__.py:106 | `sorted(list(count.items()))`: strictly ascending keys, each row an entry of the dictionary, every entry present |
| Steps.HistogramCounts | src/fmc_meta/__init__.py:101-107 | `counts`: keys strictly ascending, each key some Step's count, each value that count's occurrences and at least 1, every Step's count present, values summing to `len(steps)` |
| Steps.HistogramRows | src/fmc_meta/__init__.py:101-107 | rows that list each occurring count once with its number of occurrences have witnessed keys, cover every Step and total `len(steps)` |
| Steps.HistogramTextEntries | src/fmc_meta/__init__.py:109-110 | the printed histogram splits at spaces into exactly one `<n>x<m>-moves` entry per row, in row order |
| SolverOutput.Command | src/fmc_meta/__init__.py:199-204 | the argument vector is `solve`, the stage name, the text of each argument in order, then the moves of `all_moves` joined by spaces |
| SolverOutput.StepsOfLines | src/fmc_meta/__init__.py:210-230 | at most one Step per line, each named after the stage and extending the given history |
| SolverOutput.OneStepPerLine | src/fmc_meta/__init__.py:210-230 | exactly one Step per non-empty line; empty lines give none |
| SolverOutput.RouteMoves | src/fmc_meta/__init__.py:215-221 | the toggle loop over the pieces computes the normal and inverse move lists of its specification |
| SolverOutput.ParseOutput | src/fmc_meta/__init__.py:210-230 | the parsing loop over lines returns the Steps of the output's specification |
| SolverOutput.Nissy | src/fmc_meta/__init__.py:199-230 | `nissy` asks the solver with the command line and parses its answer; every result is named after the stage and extends the scramble given |
| SolverOutput.RouteTokens | src/fmc_meta/__init__.py:215-221 | moves with no empty piece between them all go to the side the toggle selects |
| SolverOutput.RouteParenthesized | src/fmc_meta/__init__.py:215-221 | moves between the empty pieces of `(` and `)` go to the inverse side |
| SolverOutput.PiecesOfText | src/fmc_meta/__init__.py:84-94 | the printed Step splits at `(`, `)` and spaces into the normal moves, then an empty piece, the inverse moves and an empty piece |
| SolverOutput.StepTextShape | src/fmc_meta/__init__.py:84-94 | the printed Step is empty exactly for a skip step, has no newline, and neither starts nor ends with whitespace |
| SolverOutput.CountStripped | src/fmc_meta/__init__.py:211-214 | stripping a printed Step followed by a count and dropping the last space-separated token gives back the printed Step |
| SolverOutput.SingleLineOutput | src/fmc_meta/__init__.py:210-229 | output that strips to one non-empty line gives exactly one Step |
| SolverOutput.RoutePrinted | src/fmc_meta/__init__.py:84-94 | parsing the pieces of a printed Step gives back its normal and inverse moves |
| SolverOutput.ParsePrinted | src/fmc_meta/__init__.py:210-230 | parsing `str(step) + " " + count` gives back one Step with the same two move lists, named after the stage and extending the given history |
| SolverOutput.CountOnlyLine | src/fmc_meta/__init__.py:210-230 | a line that holds only the move count gives one empty skip step |
| Ranking.SortInPlace | src/fmc_meta/strategies.py:74 | the in-place insertion sort leaves the array equal to the stable sort of its old contents |
| Ranking.SortByKeys | src/fmc_meta/__init__.py:173 | `list.sort(key=...)` in place: the array ends as its old Steps stably sorted by the given keys |
| Ranking.SortMultiset | src/fmc_meta/strategies.py:74 | the sort is a permutation |
| Ranking.SortRankedSorted | src/fmc_meta/strategies.py:74 | the sort's keys are in non-decreasing tuple order |
| Ranking.SortStable | src/fmc_meta/__init__.py:173 | the elements with any one key keep their relative order |
| Ranking.TieBreakOnlyReorders | src/fmc_meta/strategies.py:65-74 | two lists with the same primary ranks in the same order sort to lists with the same primary ranks |
| Strategies.Keep | src/fmc_meta/strategies.py:49-53 | a list comprehension with a filter keeps only the elements that pass, and every element that passes |
| Strategies.KeepCounts | src/fmc_meta/strategies.py:49-53 | the filter keeps each passing element exactly as often as the input holds it, and no other element |
| Strategies.KeepPermutation | src/fmc_meta/strategies.py:193 | filtering permutations of each other gives permutations of each other, of the same length |
| Strategies.KeepInRankOrder | src/fmc_meta/strategies.py:193 | filtering a ranked list keeps it ranked |
| Strategies.FindEosOnAxis | src/fmc_meta/strategies.py:42-63 | the `extend` steps on `all_eos` compute the three branches of `find_eos_on_axis`, with arguments `-M max_eo_length`, plus `-N` when NISS is used |
| Strategies.EosOnAxisShape | src/fmc_meta/strategies.py:42-63 | every EO is named after the axis; with NISS the result is the normal results within the NISS split, in their order, each exactly as often as the solver gave it; without `check_inverse` it is the normal results alone |
| Strategies.EosOnAxisInverse | src/fmc_meta/strategies.py:54-62 | with `check_inverse` and split 0 the result is the normal results, then each inverse result moved to the inverse side, then the normal results again |
| Strategies.CombineEosInverse | src/fmc_meta/strategies.py:54-62 | given the normal and inverse results, the NISS-free branch is the normal results, each inverse result moved to the inverse side with its own `previous`, then the normal results again |
| Strategies.EosOnAxisFollows | src/fmc_meta/strategies.py:42-63 | every EO extends the scramble or the detached inverse root `on_inverse()` |
| Strategies.OnInverseChild | src/fmc_meta/strategies.py:56-60 | a converted inverse EO counts its moves, does not include NISS, and its `all_moves` is `invert(found) + invert(scramble.all_moves)` |
| Strategies.Decorate | src/fmc_meta/strategies.py:65-71 | each candidate is paired, in order, with its `sort_order`: cumulative count, `includes_niss`, `requires_niss` and its own draw |
| Strategies.SortSteps | src/fmc_meta/strategies.py:73-74 | sorting the caller's list in place by `sort_order` leaves it as the ranked list |
| Strategies.SelectEos | src/fmc_meta/strategies.py:73-76 | `select_eos` sorts the caller's list in place and returns its first `max_eo_attempts` |
| Strategies.RankedPermutation | src/fmc_meta/strategies.py:74 | ranking is a permutation of the candidates |
| Strategies.RankedInOrder | src/fmc_meta/strategies.py:65-74 | the ranked list is non-decreasing in (`cumulative_move_count`, `includes_niss`, `requires_niss`) |
| Strategies.SelectedStepsSpec | src/fmc_meta/strategies.py:65-76 | the selection is a sub-multiset of the input whose length follows Python slice semantics, `min(attempts, len)` for a non-negative bound, and is in rank order; no candidate left out ranks before one that is kept ("Keep the N shortest") |
| Strategies.PrefixKeepsBest | src/fmc_meta/strategies.py:73-74 | slicing a list in rank order keeps its best: nothing cut off ranks before anything kept, for any slice bound |
| Strategies.TiesOnlyReorder | src/fmc_meta/strategies.py:65-76 | any two tie-break draws select lists of the same length whose primary keys agree position by position |
| Strategies.OptimalDR | src/fmc_meta/strategies.py:80-96 | a record constructor: its contract records the four stored arguments, and that NISS is used exactly when the inverse is checked with a positive split |
| Strategies.SingleAxisDR | src/fmc_meta/strategies.py:156-164 | a single-axis DR strategy has NISS split 0 whatever its arguments, so never uses NISS, and keeps length, attempts and `check_inverse` |
| Strategies.SearchDrStage | src/fmc_meta/strategies.py:117-137 | one loop iteration extends `all_drs` by the stage's results |
| Strategies.FindDrsForEo | src/fmc_meta/strategies.py:113-139 | the loop over `eo_to_dr_stages[eo.name]` returns each stage's results in order, with budget `max_dr_length - eo.cumulative_move_count` |
| Strategies.CombineDrsShape | src/fmc_meta/strategies.py:119-137 | each DR stage's results extend the EO and carry the stage's name; nothing without `check_inverse`; the results within the split with NISS, in their order and each exactly as often as the solver gave it; the normal results then the inverse ones moved to the inverse side otherwise |
| Strategies.StageDrsShape | src/fmc_meta/strategies.py:117-137 | one DR stage's results carry its name and extend the EO; none without `check_inverse`; all within the split with NISS |
| Strategies.DrsForEoShape | src/fmc_meta/strategies.py:113-139 | every DR of an EO is named after one of its axis's two stages and extends the EO; none without `check_inverse`; all within the split with NISS |
| Strategies.InverseDrFollowsEo | src/fmc_meta/strategies.py:132-136 | a DR found on the inverse and attached to the EO adds its moves to the EO's count and puts their inverse in front of the EO's `all_moves` |
| Strategies.SelectDrs | src/fmc_meta/strategies.py:149-194 | `select_drs` of either DR strategy sorts the caller's list in place, then cuts it, after the findable filter for `SingleAxisDR` |
| Strategies.FindableIff | src/fmc_meta/strategies.py:182-191 | `is_findable` iff the inspected moves have a quarter turn and all their quarter turns share one axis |
| Strategies.FindableCut | src/fmc_meta/strategies.py:193 | filtering then cutting a ranked list gives a sub-multiset, findable and in rank order, of exactly `min(attempts, number of findable DRs)` elements; a result shorter than `attempts` holds each findable DR exactly as often as the list does; no findable DR left out ranks before one that is kept |
| Strategies.SelectedDrsSpec | src/fmc_meta/strategies.py:141-194 | the selected DRs are a sub-multiset in rank order; for `OptimalDR` exactly `min(max_dr_attempts, len(drs))` of them, for `SingleAxisDR` exactly `min(max_dr_attempts, number of findable DRs)`, all findable, and when fewer than the bound each findable DR as often as the candidates hold it; no eligible DR left out ranks before one that is kept ("Keep the N shortest DRs") |
| Strategies.FinishStageOf | src/fmc_meta/strategies.py:204-206 | the finish stage of DR stage `<dr>-<eo>` is `<dr>fin` |
| Strategies.QuarterTurnCountAppend | src/fmc_meta/strategies.py:225-226 | `qt_count` of a concatenation is the sum of the counts |
| Strategies.FinishDr | src/fmc_meta/strategies.py:204-228 | `dr_to_finish` of each strategy is one solver call on the DR, then its pick |
| Strategies.PickFinishSpec | src/fmc_meta/strategies.py:204-228 | at most one finish. Optimal: the solver's first result, none iff the solver found none. Easy corners: the first result with at most `max_qt_count` quarter turns, none iff no result qualifies |
| Strategies.DrToFinishShape | src/fmc_meta/strategies.py:204-228 | a finish is named after the DR's finish stage and extends the DR |
| Stages.FindEos | src/fmc_meta/__init__.py:119-130 | `find_eos` concatenates the results of the axes `eofb`, `eorl`, `eoud` in that order and selects from them |
| Stages.FindEosSpec | src/fmc_meta/__init__.py:119-130 | the EOs kept are a sub-multiset of the candidates, `min(max_eo_attempts, len)` many, in rank order, the best ranked (no candidate left out ranks before one kept), each on a known axis extending the scramble or its inverse |
| Stages.FindDrs | src/fmc_meta/__init__.py:147-152 | `find_drs` concatenates each EO's DRs in EO order and selects from them |
| Stages.FindDrsSpec | src/fmc_meta/__init__.py:147-152 | the DRs kept are a ranked sub-multiset of the candidates, each extending one of the EOs; exactly `min(max_dr_attempts, len(found))` for `OptimalDR`; for `SingleAxisDR` exactly `min(max_dr_attempts, number of findable)`, all findable, each findable candidate kept as often as it occurs when fewer than the bound; no eligible candidate left out ranks before one kept |
| Stages.DrsToFinishes | src/fmc_meta/__init__.py:169-174 | `drs_to_finishes` concatenates each DR's finishes in DR order and sorts them by cumulative count |
| Stages.ByMoveCountSpec | src/fmc_meta/__init__.py:173 | sorting by cumulative count is a permutation, non-decreasing in the count, and keeps the order among Steps of equal count |
| Stages.FinishesForDrsLength | src/fmc_meta/__init__.py:169-174 | at most one finish per DR |
| Stages.FinishesForDrsShape | src/fmc_meta/__init__.py:169-172 | every concatenated finish extends one of the DRs and is named after that DR's finish stage |
| Stages.DrsToFinishesSpec | src/fmc_meta/__init__.py:169-174 | the finishes are a permutation of the concatenated per-DR results, at most one per DR, stably sorted by count, each extending one of the DRs |
| Pipeline.ScrambleStepRoot | src/fmc_meta/main.py:35-40 | the scramble Step is a root with an empty chain, `all_moves` equal to the scramble, count 0, and no NISS requirement |
| Pipeline.SolutionSet.constructor | src/fmc_meta/main.py:11-16 | a SolutionSet holds the scramble and the three stage results it is given |
| Pipeline.SolutionSet.SolutionSummary | src/fmc_meta/main.py:18-22 | the loop renders one `<step> // <name> (<cumulative>)` line per element of `from_beginning()` |
| Pipeline.SolutionSet.Summary | src/fmc_meta/main.py:24-28 | the loop renders the first `solution_count` finishes (slice semantics), each followed by an empty line; `DefaultSolutionCount` is the default of 3 |
| Pipeline.LinesSplit | src/fmc_meta/main.py:18-22 | split at newlines, a solution summary is exactly its lines in chain order, then nothing |
| Pipeline.SummarySplit | src/fmc_meta/main.py:24-28 | split at newlines, a summary is the lines of each solution in order, with one empty line after each |
| Pipeline.Attempt | src/fmc_meta/main.py:31-53 | `attempt` returns a new SolutionSet holding the scramble root, the EOs found from it, the DRs found from those EOs and the finishes found from those DRs |
| Pipeline.ThreeStepChain | src/fmc_meta/__init__.py:52-82 | a finish on a DR on an EO on a root has the three as its chain, depth 3, that root, and the sum of their raw counts as cumulative count |
| Pipeline.AttemptChains | src/fmc_meta/main.py:31-53 | every finish of an attempt ends a three-Step chain: a kept EO, a kept DR, the finish. The chain starts at the scramble or its inverse, and its count is the sum of the three Steps' counts |

## Left out

- The solver process is a function parameter. The model leaves out `NISSY_PATH`
  (found with `which` at import), `subprocess.run`, and the exception raised
  when the solver writes to standard error (src/fmc_meta/__init__.py:196-209).
  The executable path is not part of the modelled argument vector.
- The `multiprocessing` pool is modelled as a sequential map. The pool is
  concurrency, and `Pool.map` returns its results in input order.
- `random.Random().uniform` is not modelled, because it draws floating-point
  random numbers. The tie-break draws are the parameter `ties`.
- The `description` properties and `Meta.description` are not modelled. They
  are help text.
- `main.run` is not modelled. It is command-line parsing and printing.
- The `print` calls of `find_eos`, `find_drs` and `attempt` are not modelled;
  they are output only. The histogram they print is modelled as
  `Steps.HistogramText`.
- `rust-src/src/lib.rs` is not part of this model. It is a binding to a foreign
  cube library.
- Cancellation-aware move counts, and removal of mirrored inverse candidates,
  are not modelled. The code does neither.
- Configuration loading and a `retain=` argument are not modelled; they do not
  exist in the code. The repository's end-to-end scenario needs the real
  solver, so it has no counterpart here.
- `available_metas` appears only as four constants of `Pipeline`.
- Stages.FindDrs: an unknown EO name raises `KeyError` in `find_drs_for_eo`;
  here it is a precondition, that every EO's name is a key of the stage table.
  `Stages.FindEosSpec` proves that every EO `find_eos` returns meets it.
- Pipeline.Attempt: the source creates the SolutionSet with empty lists and
  then assigns `eos`, `drs` and `finishes` one after another. The model runs
  the three stages first and constructs the SolutionSet with the final values.
  The source reads `solutions.scramble`, `solutions.eos` and `solutions.drs`
  between the assignments (`src/fmc_meta/main.py:43-50`), but each field is
  read only after it holds its final value, so the result is the same.
- Stages.DrsToFinishes: the key `lambda s: s.cumulative_move_count` is
  represented as a sort key whose other components are constant, so the same
  stable sort serves every ranking.
