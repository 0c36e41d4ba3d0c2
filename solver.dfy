/**
 * The adapter around the external solver `nissy`: the command line it is
 * given and the parser that turns its output into Steps. The solver process
 * itself is a parameter, a function from the argument vector to what the
 * process writes on standard output.
 */
module SolverOutput {
  import opened Wrappers
  import opened PyText
  import opened Steps

  /** One extra solver argument: a flag or an integer, both passed on as `str(a)`. */
  datatype Arg = Flag(text: string) | Number(value: int)

  function ArgText(a: Arg): string {
    match a
    case Flag(t) => t
    case Number(n) => IntToString(n)
  }

  /** The standard output of `nissy` for an argument vector (everything after the executable path). */
  type Solver = seq<string> -> string

  /** `["solve", step_name] + [str(a) for a in args] + [" ".join(scramble.all_moves)]`. */
  function Command(stepName: string, scramble: Step, args: seq<Arg>): (cmd: seq<string>)
    ensures |cmd| == |args| + 3 && cmd[0] == "solve" && cmd[1] == stepName
    ensures forall i :: 0 <= i < |args| ==> cmd[i + 2] == ArgText(args[i])
    ensures cmd[|cmd| - 1] == Join(AllMoves(scramble), " ")
  {
    var head: seq<string> := ["solve", stepName];
    var texts := seq(|args|, i requires 0 <= i < |args| => ArgText(args[i]));
    var cmd := head + texts + [Join(AllMoves(scramble), " ")];
    assert forall i :: 0 <= i < |args| ==> cmd[i + 2] == texts[i];
    cmd
  }

  /** The characters `re.split("[() ]", ...)` splits at. */
  const ParenOrSpace: set<char> := {'(', ')', ' '}

  /**
   * The toggle loop over the pieces of a line: an empty piece (left by a
   * parenthesis or a doubled separator) flips between the normal list and the
   * inverse list; any other piece is a move appended to the current list.
   */
  function Route(pieces: seq<string>, toggle: bool): (r: (seq<string>, seq<string>))
    ensures |r.0| + |r.1| <= |pieces|
  {
    if pieces == [] then ([], [])
    else if pieces[0] == [] then Route(pieces[1..], !toggle)
    else
      var rest := Route(pieces[1..], toggle);
      if toggle then (rest.0, [pieces[0]] + rest.1) else ([pieces[0]] + rest.0, rest.1)
  }

  /** `" ".join(line.strip().split(" ")[:-1])`: the line without its trailing move count. */
  function WithoutCount(line: string): string {
    Join(DropLast(SplitOn(Strip(line), {' '})), " ")
  }

  /** The normal and inverse moves one output line stands for. */
  function LineMoves(line: string): (seq<string>, seq<string>) {
    Route(SplitOn(WithoutCount(line), ParenOrSpace), false)
  }

  /** The Steps for a list of output lines: one per non-empty line, in order. */
  function StepsOfLines(lines: seq<string>, stepName: string, scramble: Step): (r: seq<Step>)
    ensures |r| <= |lines|
    ensures forall k :: 0 <= k < |r| ==> r[k].name == stepName && r[k].previous == Some(scramble)
  {
    if lines == [] then []
    else
      var line := lines[|lines| - 1];
      var before := StepsOfLines(lines[..|lines| - 1], stepName, scramble);
      if line == [] then before
      else
        var moves := LineMoves(line);
        before + [Step(stepName, moves.0, moves.1, Some(scramble))]
  }

  /** The Steps `nissy` returns for a given standard output. */
  function OutputSteps(stdout: string, stepName: string, scramble: Step): seq<Step> {
    StepsOfLines(SplitOn(Strip(stdout), {'\n'}), stepName, scramble)
  }

  /** The number of non-empty lines. */
  function NonEmptyLines(lines: seq<string>): nat {
    if lines == [] then 0
    else NonEmptyLines(lines[..|lines| - 1]) + (if lines[|lines| - 1] == [] then 0 else 1)
  }

  /** One Step per non-empty output line, each named after the stage and extending the given history. */
  lemma {:induction false} OneStepPerLine(lines: seq<string>, stepName: string, scramble: Step)
    ensures |StepsOfLines(lines, stepName, scramble)| == NonEmptyLines(lines)
  {
    if lines != [] {
      OneStepPerLine(lines[..|lines| - 1], stepName, scramble);
    }
  }

  /** The toggle loop over the pieces of one line. */
  method RouteMoves(pieces: seq<string>) returns (normal: seq<string>, inverse: seq<string>)
    ensures (normal, inverse) == Route(pieces, false)
  {
    normal, inverse := [], [];
    var toggle := false;
    assert pieces[0..] == pieces;
    for j := 0 to |pieces|
      invariant normal + Route(pieces[j..], toggle).0 == Route(pieces, false).0
      invariant inverse + Route(pieces[j..], toggle).1 == Route(pieces, false).1
    {
      assert pieces[j..][1..] == pieces[j + 1..];
      var move := pieces[j];
      if move == [] {
        toggle := !toggle;
      } else if toggle {
        inverse := inverse + [move];
      } else {
        normal := normal + [move];
      }
    }
    assert pieces[|pieces|..] == [];
    assert normal + [] == normal && inverse + [] == inverse;
  }

  lemma StepsOfLinesSnoc(lines: seq<string>, k: int, stepName: string, scramble: Step)
    requires 0 <= k < |lines|
    ensures StepsOfLines(lines[..k + 1], stepName, scramble)
         == StepsOfLines(lines[..k], stepName, scramble)
            + (if lines[k] == [] then [] else [Step(stepName, LineMoves(lines[k]).0, LineMoves(lines[k]).1, Some(scramble))])
  {
    assert lines[..k + 1][..k] == lines[..k];
  }

  /** The parsing loop of `nissy`: one Step per non-empty line of the solver's output. */
  method ParseOutput(stdout: string, stepName: string, scramble: Step) returns (steps: seq<Step>)
    ensures steps == OutputSteps(stdout, stepName, scramble)
  {
    var lines := SplitOn(Strip(stdout), {'\n'});
    steps := [];
    for k := 0 to |lines|
      invariant steps == StepsOfLines(lines[..k], stepName, scramble)
    {
      StepsOfLinesSnoc(lines, k, stepName, scramble);
      var line := lines[k];
      if line != [] {
        line := WithoutCount(line);
        var normal, inverse := RouteMoves(SplitOn(line, ParenOrSpace));
        steps := steps + [Step(stepName, normal, inverse, Some(scramble))];
      }
    }
    assert lines[..|lines|] == lines;
  }

  /** What `nissy(step_name, scramble, *args)` returns, for a given solver. */
  function NissySteps(solver: Solver, stepName: string, scramble: Step, args: seq<Arg>): seq<Step> {
    OutputSteps(solver(Command(stepName, scramble, args)), stepName, scramble)
  }

  /** `nissy(step_name, scramble, *args)`: run the solver and parse what it prints. */
  method Nissy(solver: Solver, stepName: string, scramble: Step, args: seq<Arg>) returns (steps: seq<Step>)
    ensures steps == NissySteps(solver, stepName, scramble, args)
    ensures forall k :: 0 <= k < |steps| ==> steps[k].name == stepName && steps[k].previous == Some(scramble)
  {
    var stdout := solver(Command(stepName, scramble, args));
    steps := ParseOutput(stdout, stepName, scramble);
  }

  // ----- Rendering a Step and parsing it back -----

  /** A move token that survives printing and parsing: non-empty, no white space, no parenthesis. */
  predicate Token(t: string) {
    t != [] && forall i :: 0 <= i < |t| ==> !IsSpace(t[i]) && t[i] != '(' && t[i] != ')'
  }

  predicate Tokens(ms: seq<string>) {
    forall k :: 0 <= k < |ms| ==> Token(ms[k])
  }

  /** Characters that no joined token list contains. */
  const Breaks: set<char> := {'(', ')', '\n'}

  lemma TokenAvoids(t: string)
    requires Token(t)
    ensures Avoids(t, ParenOrSpace) && Avoids(t, Breaks) && Avoids(t, {'\n'})
  {
  }

  /** Tokens joined by spaces: empty only without tokens, no parenthesis or newline, no white space at either end. */
  lemma {:induction false} JoinedTokens(ms: seq<string>)
    requires Tokens(ms)
    ensures var j := Join(ms, " "); (j == []) == (ms == []) && Avoids(j, Breaks)
    ensures var j := Join(ms, " "); j == [] || (!IsSpace(j[0]) && !IsSpace(j[|j| - 1]))
  {
    if ms != [] {
      TokenAvoids(ms[0]);
      if |ms| > 1 {
        JoinedTokens(ms[1..]);
        var rest := Join(ms[1..], " ");
        assert Join(ms, " ") == ms[0] + " " + rest;
      }
    }
  }

  /** A toggle walk over moves alone puts them all on the current side. */
  lemma {:induction false} RouteTokens(ms: seq<string>, toggle: bool)
    requires Tokens(ms)
    ensures Route(ms, toggle) == if toggle then ([], ms) else (ms, [])
  {
    if ms != [] {
      RouteTokens(ms[1..], toggle);
      assert [ms[0]] + ms[1..] == ms;
    }
  }

  /** A toggle walk over moves and then anything else: the moves go to the current side first. */
  lemma {:induction false} RouteAppend(ms: seq<string>, rest: seq<string>, toggle: bool)
    requires Tokens(ms)
    ensures Route(ms + rest, toggle).0 == (if toggle then [] else ms) + Route(rest, toggle).0
    ensures Route(ms + rest, toggle).1 == (if toggle then ms else []) + Route(rest, toggle).1
  {
    if ms != [] {
      assert (ms + rest)[1..] == ms[1..] + rest;
      RouteAppend(ms[1..], rest, toggle);
    } else {
      assert ms + rest == rest;
    }
  }

  /** The moves of a parenthesized run `(t1 t2 ...)` land on the inverse side. */
  lemma RouteParenthesized(inv: seq<string>)
    requires Tokens(inv)
    ensures Route([[]] + inv + [[]], false) == ([], inv)
  {
    assert ([[]] + inv + [[]])[1..] == inv + [[]];
    RouteAppend(inv, [[]], true);
    assert Route([[]], true) == Route([], false) == ([], []);
    assert Route(inv + [[]], true).0 == [];
    assert Route(inv + [[]], true).1 == inv + [];
    assert inv + [] == inv;
  }

  /** Tokens joined by spaces split back into the tokens. */
  lemma JoinedPieces(ms: seq<string>)
    requires Tokens(ms) && ms != []
    ensures SplitOn(Join(ms, " "), ParenOrSpace) == ms
  {
    forall k | 0 <= k < |ms| ensures Avoids(ms[k], ParenOrSpace) { TokenAvoids(ms[k]); }
    SplitJoined(ms, ' ', ParenOrSpace);
  }

  /** A parenthesized run of tokens splits into an empty piece, the tokens and an empty piece. */
  lemma ParenPieces(inv: seq<string>)
    requires Tokens(inv) && inv != []
    ensures SplitOn("(" + Join(inv, " ") + ")", ParenOrSpace) == [[]] + inv + [[]]
  {
    var j := Join(inv, " ");
    JoinedPieces(inv);
    var paren := "(" + j + ")";
    assert paren == [] + ['('] + (j + [')'] + []);
    SplitAt(j, ')', [], ParenOrSpace);
    SplitAt([], '(', j + [')'] + [], ParenOrSpace);
  }

  /** Splitting the printed form of a step into pieces: its moves, then an empty piece, its inverse moves and an empty piece. */
  lemma PiecesOfText(s: Step)
    requires Tokens(s.moves) && Tokens(s.movesOnInverse)
    ensures SplitOn(StepText(s), ParenOrSpace) ==
      if s.moves == [] && s.movesOnInverse == [] then [[]]
      else if s.movesOnInverse == [] then s.moves
      else if s.moves == [] then [[]] + s.movesOnInverse + [[]]
      else s.moves + [[]] + s.movesOnInverse + [[]]
  {
    JoinedTokens(s.moves);
    JoinedTokens(s.movesOnInverse);
    var n, paren := Join(s.moves, " "), "(" + Join(s.movesOnInverse, " ") + ")";
    if s.moves != [] {
      JoinedPieces(s.moves);
    }
    if s.movesOnInverse != [] {
      ParenPieces(s.movesOnInverse);
      if s.moves != [] {
        assert StepText(s) == n + [' '] + paren;
        SplitAt(n, ' ', paren, ParenOrSpace);
      }
    }
  }

  /** The printed form of tokens: empty only without moves, no newline, no white space at either end. */
  lemma StepTextShape(s: Step)
    requires Tokens(s.moves) && Tokens(s.movesOnInverse)
    ensures var text := StepText(s);
      && (text == []) == (s.moves == [] && s.movesOnInverse == [])
      && Avoids(text, {'\n'})
      && (text == [] || (!IsSpace(text[0]) && !IsSpace(text[|text| - 1])))
  {
    JoinedTokens(s.moves);
    JoinedTokens(s.movesOnInverse);
    var n, j := Join(s.moves, " "), Join(s.movesOnInverse, " ");
    var paren := "(" + j + ")";
    assert Avoids(paren, {'\n'}) by {
      forall i | 0 <= i < |paren| ensures paren[i] != '\n' {
        if 0 < i < |paren| - 1 { assert paren[i] == j[i - 1]; }
      }
    }
    if n != [] && s.movesOnInverse != [] {
      var text := n + " " + paren;
      assert StepText(s) == text;
      forall i | 0 <= i < |text| ensures text[i] != '\n' {
        if i < |n| { assert text[i] == n[i]; }
        else if i > |n| { assert text[i] == paren[i - |n| - 1]; }
      }
    }
  }

  /** The printed form of a step, minus its count, is recovered from a line `<text> <count>`. */
  lemma {:induction false} CountStripped(s: Step, count: string)
    requires Tokens(s.moves) && Tokens(s.movesOnInverse) && Token(count)
    ensures var line := StepText(s) + " " + count;
      var stripped := if StepText(s) == [] then count else line;
      Strip(line) == stripped && Strip(stripped) == stripped && stripped != [] &&
      Avoids(stripped, {'\n'}) && WithoutCount(stripped) == StepText(s)
  {
    StepTextShape(s);
    TokenAvoids(count);
    var text := StepText(s);
    var line := text + " " + count;
    if text == [] {
      assert line == [' '] + count;
      StripLeadingSpace(count);
      StripUnchanged(count);
      SplitWithout(count, {' '});
    } else {
      assert line[0] == text[0] && line[|line| - 1] == count[|count| - 1];
      StripUnchanged(line);
      SplitWithout(count, {' '});
      assert line == text + [' '] + count;
      SplitAt(text, ' ', count, {' '});
      JoinSplit(text, ' ');
      assert DropLast(SplitOn(line, {' '})) == SplitOn(text, {' '});
      assert Avoids(line, {'\n'}) by {
        forall i | 0 <= i < |line| ensures line[i] != '\n' {
          if i < |text| { assert line[i] == text[i]; }
          else if i > |text| { assert line[i] == count[i - |text| - 1]; }
        }
      }
    }
  }

  /** Standard output that strips to a single non-empty line gives exactly one Step, for that line. */
  lemma SingleLineOutput(stdout: string, line: string, stepName: string, history: Step)
    requires Strip(stdout) == line && line != [] && Avoids(line, {'\n'})
    ensures OutputSteps(stdout, stepName, history) ==
      [Step(stepName, LineMoves(line).0, LineMoves(line).1, Some(history))]
  {
    SplitWithout(line, {'\n'});
    assert [line][..0] == [];
  }

  /** The pieces of a printed step route back to its two move lists. */
  lemma {:induction false} RoutePrinted(s: Step)
    requires Tokens(s.moves) && Tokens(s.movesOnInverse)
    ensures Route(SplitOn(StepText(s), ParenOrSpace), false) == (s.moves, s.movesOnInverse)
  {
    PiecesOfText(s);
    var pieces := SplitOn(StepText(s), ParenOrSpace);
    if s.moves == [] && s.movesOnInverse == [] {
      assert Route([[]], false) == Route([], true);
    } else if s.movesOnInverse == [] {
      RouteTokens(s.moves, false);
    } else if s.moves == [] {
      RouteParenthesized(s.movesOnInverse);
    } else {
      assert pieces == s.moves + ([[]] + s.movesOnInverse + [[]]);
      RouteAppend(s.moves, [[]] + s.movesOnInverse + [[]], false);
      RouteParenthesized(s.movesOnInverse);
      assert s.moves + [] == s.moves && [] + s.movesOnInverse == s.movesOnInverse;
    }
  }

  /**
   * Printing a step and appending a move count gives a line that parses back
   * to the step's two move lists, provided the moves are tokens.
   */
  lemma {:induction false} ParsePrinted(s: Step, count: string, stepName: string, history: Step)
    requires Tokens(s.moves) && Tokens(s.movesOnInverse) && Token(count)
    ensures OutputSteps(StepText(s) + " " + count, stepName, history) ==
      [Step(stepName, s.moves, s.movesOnInverse, Some(history))]
  {
    var line := StepText(s) + " " + count;
    var stripped := if StepText(s) == [] then count else line;
    CountStripped(s, count);
    SingleLineOutput(line, stripped, stepName, history);
    RoutePrinted(s);
    assert LineMoves(stripped) == (s.moves, s.movesOnInverse);
  }

  /** A line holding nothing but a move count is a skip: a Step with no moves at all. */
  lemma CountOnlyLine(count: string, stepName: string, history: Step)
    requires Token(count)
    ensures OutputSteps(count, stepName, history) == [Step(stepName, [], [], Some(history))]
  {
    TokenAvoids(count);
    StripUnchanged(count);
    SingleLineOutput(count, count, stepName, history);
    SplitWithout(count, {' '});
    assert WithoutCount(count) == [];
    assert Route([[]], false) == Route([], true);
  }
}
