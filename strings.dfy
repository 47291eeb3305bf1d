/** The part of JavaScript's String.prototype that the emitter relies on:
    `indexOf`, and the tests written with it. */
module Strings {

  /** `t` occurs in `s` starting at index `j`. */
  predicate OccursAt(s: string, t: string, j: int) {
    0 <= j && j + |t| <= |s| && s[j..j + |t|] == t
  }

  /** `s.indexOf(t, from)`: the first index at or after `from` where `t`
      occurs in `s`, or -1 when there is none (see IndexOfFromIsFirst). */
  function IndexOfFrom(s: string, t: string, from: nat): (r: int)
    decreases |s| - from
    ensures r == -1 || from <= r
  {
    if |s| < from + |t| then -1
    else if s[from..from + |t|] == t then from
    else IndexOfFrom(s, t, from + 1)
  }

  lemma {:induction false} IndexOfFromIsFirst(s: string, t: string, from: nat)
    decreases |s| - from
    ensures IndexOfFrom(s, t, from) == -1 || OccursAt(s, t, IndexOfFrom(s, t, from))
    ensures IndexOfFrom(s, t, from) == -1 ==> forall j :: from <= j ==> !OccursAt(s, t, j)
    ensures forall j :: from <= j < IndexOfFrom(s, t, from) ==> !OccursAt(s, t, j)
  {
    if |s| < from + |t| {
    } else if s[from..from + |t|] == t {
    } else {
      IndexOfFromIsFirst(s, t, from + 1);
    }
  }

  /** `s.indexOf(t)` */
  function IndexOf(s: string, t: string): (r: int)
    ensures -1 <= r
  {
    IndexOfFrom(s, t, 0)
  }

  /** `s.indexOf(t)` is -1 exactly when `t` does not occur in `s`, and
      otherwise the first index where it occurs. */
  lemma IndexOfIsFirst(s: string, t: string)
    ensures IndexOf(s, t) == -1 <==> forall j :: !OccursAt(s, t, j)
    ensures IndexOf(s, t) != -1 ==>
              OccursAt(s, t, IndexOf(s, t)) && forall j :: 0 <= j < IndexOf(s, t) ==> !OccursAt(s, t, j)
  {
    IndexOfFromIsFirst(s, t, 0);
  }

  /** `s.indexOf(t) === 0` is the test "s starts with t". */
  lemma IndexOfZeroIffPrefix(s: string, t: string)
    ensures IndexOf(s, t) == 0 <==> t <= s
  {
    IndexOfIsFirst(s, t);
    assert OccursAt(s, t, 0) <==> t <= s;
  }

  /** Looking for a one-character string: -1 exactly when the character is
      absent, 0 exactly when it comes first. */
  lemma IndexOfChar(s: string, c: char)
    ensures IndexOf(s, [c]) == -1 <==> c !in s
    ensures IndexOf(s, [c]) == 0 <==> |s| > 0 && s[0] == c
  {
    forall j | 0 <= j < |s|
      ensures OccursAt(s, [c], j) <==> s[j] == c
    {
      assert s[j..j + 1] == [s[j]];
    }
    IndexOfIsFirst(s, [c]);
    if c in s {
      var j :| 0 <= j < |s| && s[j] == c;
      assert OccursAt(s, [c], j);
    }
    if IndexOf(s, [c]) != -1 {
      var r := IndexOf(s, [c]);
      assert OccursAt(s, [c], r);
    }
  }
}
