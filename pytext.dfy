/**
 * The Python built-ins on strings and lists that the pipeline relies on:
 * `str.strip()`, `str.split(sep)` and `re.split` over a character class,
 * `sep.join(parts)`, prefix slicing `s[:k]` and `str(n)` for integers.
 * Strings are sequences of characters and lists are sequences.
 */
module PyText {

  /** The characters Python's `str.isspace()` accepts, which `str.strip()` removes. */
  predicate IsSpace(c: char) {
    || ('\t' <= c <= '\r')
    || ('\U{1C}' <= c <= ' ')
    || c == '\U{85}' || c == '\U{A0}' || c == '\U{1680}'
    || ('\U{2000}' <= c <= '\U{200A}')
    || c == '\U{2028}' || c == '\U{2029}' || c == '\U{202F}' || c == '\U{205F}' || c == '\U{3000}'
  }

  /** No character of `s` belongs to `chars`. */
  predicate Avoids(s: string, chars: set<char>) {
    forall i :: 0 <= i < |s| ==> s[i] !in chars
  }

  function StripLeft(s: string): (r: string)
    ensures |r| <= |s| && r == s[|s| - |r|..]
    ensures r == [] || !IsSpace(r[0])
    ensures forall i :: 0 <= i < |s| - |r| ==> IsSpace(s[i])
  {
    if s != [] && IsSpace(s[0]) then StripLeft(s[1..]) else s
  }

  function StripRight(s: string): (r: string)
    ensures |r| <= |s| && r == s[..|r|]
    ensures r == [] || !IsSpace(r[|r| - 1])
    ensures forall i :: |r| <= i < |s| ==> IsSpace(s[i])
  {
    if s != [] && IsSpace(s[|s| - 1]) then StripRight(s[..|s| - 1]) else s
  }

  /** `s.strip()`: the longest infix of `s` that neither starts nor ends with white space. */
  function Strip(s: string): (r: string)
    ensures r == [] || (!IsSpace(r[0]) && !IsSpace(r[|r| - 1]))
    ensures |r| <= |s|
  {
    StripRight(StripLeft(s))
  }

  /** A string that starts and ends with something other than white space is its own strip. */
  lemma StripUnchanged(s: string)
    requires s == [] || (!IsSpace(s[0]) && !IsSpace(s[|s| - 1]))
    ensures Strip(s) == s
  {
  }

  /** Leading white space in front of a string that does not start or end with white space is dropped. */
  lemma StripLeadingSpace(s: string)
    requires s != [] && !IsSpace(s[0]) && !IsSpace(s[|s| - 1])
    ensures Strip([' '] + s) == s
  {
    assert ([' '] + s)[1..] == s;
  }

  /**
   * `s.split(sep)` for a one-character separator (`delims == {sep}`) and
   * `re.split("[...]", s)` for a character class: the maximal runs between
   * delimiters, one more of them than there are delimiters.
   */
  function SplitOn(s: string, delims: set<char>): (r: seq<string>)
    ensures |r| >= 1
    ensures forall k :: 0 <= k < |r| ==> Avoids(r[k], delims)
  {
    if s == [] then [[]]
    else
      var rest := SplitOn(s[1..], delims);
      if s[0] in delims then [[]] + rest else [[s[0]] + rest[0]] + rest[1..]
  }

  /** `sep.join(parts)`. */
  function Join(parts: seq<string>, sep: string): (r: string)
    ensures parts != [] ==> |r| >= |parts[0]|
  {
    if parts == [] then []
    else if |parts| == 1 then parts[0]
    else parts[0] + sep + Join(parts[1..], sep)
  }

  /** Splitting at a delimiter splits the two sides independently. */
  lemma {:induction false} SplitAt(a: string, c: char, b: string, delims: set<char>)
    requires c in delims
    ensures SplitOn(a + [c] + b, delims) == SplitOn(a, delims) + SplitOn(b, delims)
  {
    if a == [] {
      assert a + [c] + b == [c] + b;
      assert ([c] + b)[1..] == b;
    } else {
      assert (a + [c] + b)[1..] == a[1..] + [c] + b;
      SplitAt(a[1..], c, b, delims);
    }
  }

  /** A string without delimiters is a single piece. */
  lemma {:induction false} SplitWithout(s: string, delims: set<char>)
    requires Avoids(s, delims)
    ensures SplitOn(s, delims) == [s]
  {
    if s != [] {
      SplitWithout(s[1..], delims);
      assert [s[0]] + s[1..] == s;
    }
  }

  /** Joining delimiter-free parts with a delimiter and splitting again gives the parts back. */
  lemma {:induction false} SplitJoined(parts: seq<string>, d: char, delims: set<char>)
    requires d in delims && |parts| >= 1
    requires forall k :: 0 <= k < |parts| ==> Avoids(parts[k], delims)
    ensures SplitOn(Join(parts, [d]), delims) == parts
  {
    if |parts| == 1 {
      SplitWithout(parts[0], delims);
    } else {
      SplitJoined(parts[1..], d, delims);
      SplitWithout(parts[0], delims);
      SplitAt(parts[0], d, Join(parts[1..], [d]), delims);
      assert parts == [parts[0]] + parts[1..];
    }
  }

  /** Splitting on a single separator and joining with it again gives the string back. */
  lemma {:induction false} JoinSplit(s: string, d: char)
    ensures Join(SplitOn(s, {d}), [d]) == s
  {
    if s != [] {
      var rest := SplitOn(s[1..], {d});
      JoinSplit(s[1..], d);
      if s[0] == d {
        assert SplitOn(s, {d}) == [[]] + rest;
        assert ([[]] + rest)[1..] == rest;
      } else {
        var r := SplitOn(s, {d});
        assert r == [[s[0]] + rest[0]] + rest[1..];
        if |rest| > 1 {
          assert r[1..] == rest[1..];
          assert Join(rest, [d]) == rest[0] + [d] + Join(rest[1..], [d]);
        }
      }
    }
  }

  /** Python's `s[:k]`, including a negative `k` counted from the end. */
  function Prefix<T>(s: seq<T>, k: int): (r: seq<T>)
    ensures |r| <= |s| && r == s[..|r|]
    ensures k >= 0 ==> |r| == if k <= |s| then k else |s|
    ensures k < 0 ==> |r| == if |s| + k >= 0 then |s| + k else 0
  {
    if k >= 0 then (if k <= |s| then s[..k] else s)
    else if |s| + k >= 0 then s[..|s| + k]
    else []
  }

  /** Python's `s[:-1]`: everything but the last element, and nothing of an empty list. */
  function DropLast<T>(s: seq<T>): (r: seq<T>)
    ensures r == Prefix(s, -1)
  {
    if s == [] then [] else s[..|s| - 1]
  }

  /** The decimal digits `str(n)` writes for a natural number. */
  function NatToString(n: nat): (r: string)
    ensures r != [] && forall i :: 0 <= i < |r| ==> '0' <= r[i] <= '9'
  {
    if n < 10 then ["0123456789"[n]]
    else NatToString(n / 10) + ["0123456789"[n % 10]]
  }

  /** `str(i)` for an integer: its digits, after a minus sign when it is negative. */
  function IntToString(i: int): (r: string)
    ensures r != [] && forall k :: 0 <= k < |r| ==> r[k] == '-' || '0' <= r[k] <= '9'
  {
    if i < 0 then "-" + NatToString(-i) else NatToString(i)
  }
}
