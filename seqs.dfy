/** The two Array.prototype operations the core relies on, over sequences:
    `indexOf` (strict equality) and `splice(i, 1)` of the first match. */
module Seqs {

  /** `indexOf`: the index of the first element equal to `x`, or -1 when
      `x` does not occur. */
  function IndexOf<T(==)>(s: seq<T>, x: T): (i: int)
    ensures -1 <= i < |s|
    ensures i == -1 <==> x !in s
    ensures 0 <= i ==> s[i] == x && x !in s[..i]
  {
    if s == [] then -1
    else if s[0] == x then 0
    else
      var j := IndexOf(s[1..], x);
      if j == -1 then -1 else j + 1
  }

  /** `s` without its first entry equal to `x`; `s` itself when there is none. */
  function RemoveFirst<T(==)>(s: seq<T>, x: T): (r: seq<T>)
    ensures x !in s ==> r == s
    ensures x in s ==> |r| == |s| - 1
    ensures multiset(r) == multiset(s) - multiset{x}
  {
    if s == [] then []
    else
      assert s == [s[0]] + s[1..];
      if s[0] == x then s[1..] else [s[0]] + RemoveFirst(s[1..], x)
  }

  /** Removing one `x` changes the count of `x` by at most one and the
      count of every other value not at all. */
  lemma RemoveFirstCount<T>(s: seq<T>, x: T, y: T)
    ensures y != x ==> multiset(RemoveFirst(s, x))[y] == multiset(s)[y]
    ensures multiset(RemoveFirst(s, x))[x] == if x in s then multiset(s)[x] - 1 else 0
  {
  }

  /** Removing the first `x` from `a + [x] + b`, where `a` holds no `x`,
      leaves `a + b`. */
  lemma {:induction false} RemoveFirstAfterPrefix<T>(a: seq<T>, x: T, b: seq<T>)
    requires x !in a
    ensures RemoveFirst(a + [x] + b, x) == a + b
  {
    if a != [] {
      assert (a + [x] + b)[1..] == a[1..] + [x] + b;
      RemoveFirstAfterPrefix(a[1..], x, b);
      assert [a[0]] + (a[1..] + b) == a + b;
    }
  }

  /** Locating the first match with `indexOf` and splicing out that one
      element is exactly RemoveFirst: everything before the match keeps its
      place, everything after it moves down by one. */
  lemma RemoveFirstIsSplice<T>(s: seq<T>, x: T)
    requires x in s
    ensures RemoveFirst(s, x) == s[..IndexOf(s, x)] + s[IndexOf(s, x) + 1..]
  {
    var i := IndexOf(s, x);
    assert s == s[..i] + [x] + s[i + 1..];
    RemoveFirstAfterPrefix(s[..i], x, s[i + 1..]);
  }
}
