/** The Array.prototype operations the emitters use on listener lists:
    `indexOf`, and `splice(i, 1)` at the index it finds. */
module Arrays {

  predicate Distinct<T(==)>(s: seq<T>) {
    forall i, j :: 0 <= i < j < |s| ==> s[i] != s[j]
  }

  /** `arr.indexOf(x)`: the first index holding `x`, or -1. */
  function IndexOfElem<T(==)>(s: seq<T>, x: T): (r: int)
    ensures r == -1 <==> x !in s
    ensures r != -1 ==> 0 <= r < |s| && s[r] == x && x !in s[..r]
  {
    if s == [] then -1
    else if s[0] == x then 0
    else
      var r := IndexOfElem(s[1..], x);
      if r == -1 then -1
      else
        assert s[..r + 1] == [s[0]] + s[1..][..r];
        r + 1
  }

  /** `var i = arr.indexOf(x); if (~i) arr.splice(i, 1);` */
  function RemoveFirst<T(==)>(s: seq<T>, x: T): seq<T> {
    var i := IndexOfElem(s, x);
    if i == -1 then s else s[..i] + s[i + 1..]
  }

  /** Removing leaves a list without `x` alone, and otherwise takes away one
      occurrence of `x` and nothing else. */
  lemma RemoveFirstCounts<T>(s: seq<T>, x: T)
    ensures x !in s ==> RemoveFirst(s, x) == s
    ensures x in s ==> |RemoveFirst(s, x)| == |s| - 1
    ensures multiset(RemoveFirst(s, x)) == multiset(s) - multiset{x}
  {
    var i := IndexOfElem(s, x);
    if i != -1 {
      assert s == s[..i] + [s[i]] + s[i + 1..];
    }
  }

  /** Only the first `x` goes: whatever precedes it and whatever follows it
      stay, in order. */
  lemma RemoveFirstSplits<T>(p: seq<T>, x: T, q: seq<T>)
    requires x !in p
    ensures RemoveFirst(p + [x] + q, x) == p + q
  {
    var s := p + [x] + q;
    var i := IndexOfElem(s, x);
    assert s[|p|] == x;
    assert i == |p|;
    assert s[..i] == p && s[i + 1..] == q;
  }

  /** An element stored only once is removed from its own index. */
  lemma RemoveFirstAt<T>(s: seq<T>, i: nat)
    requires i < |s| && multiset(s)[s[i]] == 1
    ensures RemoveFirst(s, s[i]) == s[..i] + s[i + 1..]
  {
    assert s == s[..i] + [s[i]] + s[i + 1..];
  }

  /** Removing takes away at most one element and adds none. */
  lemma RemoveFirstShrinks<T>(s: seq<T>, x: T)
    ensures multiset(RemoveFirst(s, x)) <= multiset(s)
  {
    RemoveFirstCounts(s, x);
  }

  /** Removing the head element takes away exactly that element. */
  lemma RemoveFirstHead<T>(x: T, q: seq<T>)
    ensures RemoveFirst([x] + q, x) == q
  {
    assert ([x] + q)[0] == x;
    assert ([x] + q)[1..] == q;
  }

  /** A duplicate-free sequence whose every element is `x`, and that holds `x`, is `[x]`. */
  lemma OnlyElement<T>(r: seq<T>, x: T)
    requires Distinct(r) && x in r
    requires forall k :: k in r ==> k == x
    ensures r == [x]
  {
    assert r[0] in r;
    var rest := r[1..];
    assert r == [r[0]] + rest;
    assert x !in rest;
    assert forall k :: k in rest ==> k in r;
    NothingButMissing(rest, x);
  }

  lemma NothingButMissing<T>(s: seq<T>, x: T)
    requires forall k :: k in s ==> k == x
    requires x !in s
    ensures s == []
  {
    forall y ensures multiset(s)[y] == 0 {
      assert y !in s;
    }
    assert multiset(s) == multiset{};
    assert |s| == |multiset(s)| == 0;
  }
}
