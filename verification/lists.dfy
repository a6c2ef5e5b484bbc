/**
 * Python list operations the core relies on: `x in s` and `s.remove(x)`
 * compare by value, and `remove` drops the first equal element only.
 */
module Lists {

  /** Position of the first element equal to `x`. */
  function FirstIndex<T(==)>(s: seq<T>, x: T): (i: nat)
    requires x in s
    ensures i < |s| && s[i] == x
    ensures forall k :: 0 <= k < i ==> s[k] != x
  {
    if s[0] == x then 0 else 1 + FirstIndex(s[1..], x)
  }

  /** `s.remove(x)` when `x in s`, and `s` itself otherwise. */
  function RemoveFirst<T(==)>(s: seq<T>, x: T): (r: seq<T>)
    ensures x !in s ==> r == s
    ensures x in s ==> |r| == |s| - 1
    ensures x in s ==> multiset(r) == multiset(s) - multiset{x}
    ensures x in s ==> var i := FirstIndex(s, x);
      (forall k :: 0 <= k < i ==> r[k] == s[k]) &&
      (forall k :: i <= k < |r| ==> r[k] == s[k + 1])
  {
    if x in s then
      var i := FirstIndex(s, x);
      DropAt(s, i);
      s[..i] + s[i + 1..]
    else
      s
  }

  /** The list without its element at `i`. */
  lemma DropAt<T>(s: seq<T>, i: nat)
    requires i < |s|
    ensures var r := s[..i] + s[i + 1..];
      && |r| == |s| - 1
      && multiset(r) == multiset(s) - multiset{s[i]}
      && (forall k :: 0 <= k < i ==> r[k] == s[k])
      && (forall k :: i <= k < |r| ==> r[k] == s[k + 1])
  {
    assert s == s[..i] + [s[i]] + s[i + 1..];
  }

  /** Removing the elements of `xs` one after another, first occurrence each. */
  function RemoveEach<T(==)>(s: seq<T>, xs: seq<T>): (r: seq<T>)
    ensures multiset(r) == multiset(s) - multiset(xs)
    decreases |xs|
  {
    if |xs| == 0 then s
    else
      var next := RemoveFirst(s, xs[0]);
      var r := RemoveEach(next, xs[1..]);
      RemoveOneThenRest(s, next, r, xs);
      r
  }

  /** Taking away the first of `xs`, then the rest, takes away all of `xs`. */
  lemma RemoveOneThenRest<T>(a: seq<T>, b: seq<T>, r: seq<T>, xs: seq<T>)
    requires |xs| > 0
    requires multiset(b) == multiset(a) - multiset{xs[0]}
    requires multiset(r) == multiset(b) - multiset(xs[1..])
    ensures multiset(r) == multiset(a) - multiset(xs)
  {
    assert xs == [xs[0]] + xs[1..];
    assert multiset(xs) == multiset{xs[0]} + multiset(xs[1..]);
  }
}
