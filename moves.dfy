/**
 * Move tokens in face-turn notation and their inversion. The twelve quarter
 * turns (a face letter, optionally followed by a prime) are swapped with
 * their inverses; every other token, such as a half turn `R2`, is its own
 * inverse.
 */
module Moves {

  /** The quarter-turn inverse table. */
  const InverseTable: map<string, string> := map[
    "U" := "U'", "U'" := "U",
    "D" := "D'", "D'" := "D",
    "F" := "F'", "F'" := "F",
    "B" := "B'", "B'" := "B",
    "R" := "R'", "R'" := "R",
    "L" := "L'", "L'" := "L"
  ]

  /** `inverse.get(m, m)`. */
  function InverseOf(m: string): string {
    if m in InverseTable then InverseTable[m] else m
  }

  /** A quarter turn and its inverse are distinct quarter turns that undo each other. */
  lemma QuarterTurnsPaired(m: string)
    requires m in InverseTable
    ensures InverseOf(m) in InverseTable && InverseOf(m) != m && InverseOf(InverseOf(m)) == m
  {
  }

  /** Inverting a token twice gives the token back. */
  lemma InverseOfInvolutive(m: string)
    ensures InverseOf(InverseOf(m)) == m
  {
    if m in InverseTable {
      QuarterTurnsPaired(m);
    }
  }

  /** The tokens in reverse order, each mapped by `f`. */
  function ReverseMap(f: string -> string, ms: seq<string>): (r: seq<string>)
    ensures |r| == |ms|
    ensures forall i :: 0 <= i < |ms| ==> r[|ms| - 1 - i] == f(ms[i])
  {
    seq(|ms|, i requires 0 <= i < |ms| => f(ms[|ms| - 1 - i]))
  }

  /** Reversing and mapping by a self-inverse function, twice over, gives the tokens back. */
  lemma ReverseMapTwice(f: string -> string, ms: seq<string>)
    requires forall m :: f(f(m)) == m
    ensures ReverseMap(f, ReverseMap(f, ms)) == ms
  {
    var r := ReverseMap(f, ms);
    forall i | 0 <= i < |ms|
      ensures ReverseMap(f, r)[i] == ms[i]
    {
      var j := |ms| - 1 - i;
      assert ReverseMap(f, r)[|ms| - 1 - j] == f(r[j]);
      assert r[|ms| - 1 - i] == f(ms[i]);
    }
  }

  /** `invert(moves)`: the moves in reverse order, each replaced by its inverse. */
  function Invert(ms: seq<string>): (r: seq<string>)
    ensures |r| == |ms|
    ensures forall i :: 0 <= i < |ms| ==> r[|ms| - 1 - i] == InverseOf(ms[i])
  {
    ReverseMap(InverseOf, ms)
  }

  /** Inversion is an involution. */
  lemma InvertInvolutive(ms: seq<string>)
    ensures Invert(Invert(ms)) == ms
  {
    forall m
      ensures InverseOf(InverseOf(m)) == m
    {
      InverseOfInvolutive(m);
    }
    ReverseMapTwice(InverseOf, ms);
  }

  /** The inverse of a concatenation is the concatenation of the inverses in the other order. */
  lemma InvertAppend(a: seq<string>, b: seq<string>)
    ensures Invert(a + b) == Invert(b) + Invert(a)
  {
  }
}
