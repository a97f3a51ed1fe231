/** `arrayRemove`: looks up the first occurrence of a value in a JavaScript
    array and, when there is one, calls `splice(index)` on the caller's array.
    With a single argument `splice` deletes everything from `index` to the
    end, so the array is truncated before its first match; this model keeps
    that behaviour. */
module ArrayUtil {
  import opened Seqs

  /** A JavaScript array object: a growable sequence that callers share by
      reference and that `splice` changes in place. */
  class JsArray<T> {
    var elems: seq<T>

    constructor (init: seq<T>)
      ensures elems == init
    {
      elems := init;
    }
  }

  /** The longest prefix of `s` that does not contain `x`. */
  function Before<T(==)>(s: seq<T>, x: T): (r: seq<T>)
    ensures r <= s && x !in r
    ensures |r| < |s| ==> s[|r|] == x
  {
    if s == [] || s[0] == x then [] else [s[0]] + Before(s[1..], x)
  }

  /** Truncating at the index `indexOf` reports keeps exactly the part of
      the array before its first match, and keeps all of it when there is
      no match. */
  lemma {:induction false} BeforeIsTruncation<T>(s: seq<T>, x: T)
    ensures x !in s ==> Before(s, x) == s
    ensures x in s ==> Before(s, x) == s[..IndexOf(s, x)]
  {
    if s != [] && s[0] != x {
      BeforeIsTruncation(s[1..], x);
      if x in s {
        assert x in s[1..];
        assert s[..IndexOf(s, x)] == [s[0]] + s[1..][..IndexOf(s[1..], x)];
      } else {
        assert s == [s[0]] + s[1..];
      }
    }
  }

  /** `arrayRemove(array, value)`. */
  method ArrayRemove<T(==)>(a: JsArray<T>, value: T)
    modifies a
    ensures a.elems == Before(old(a.elems), value)
    ensures value !in old(a.elems) ==> a.elems == old(a.elems)
    ensures value in old(a.elems) ==>
      var i := IndexOf(old(a.elems), value);
      a.elems == old(a.elems)[..i] && |old(a.elems)| - |a.elems| >= 1
    ensures value !in a.elems
  {
    BeforeIsTruncation(a.elems, value);
    var index := IndexOf(a.elems, value);
    if index != -1 {
      a.elems := a.elems[..index];
    }
  }

  /** On `[1, 2, 3]` with value `2` the array becomes `[1]`, whereas removing
      just the match, as `removeListener` does with `splice(index, 1)`, gives
      `[1, 3]`. */
  lemma {:induction false} ArrayRemoveTruncatesTail()
    ensures Before([1, 2, 3], 2) == [1]
    ensures RemoveFirst([1, 2, 3], 2) == [1, 3]
  {
    assert [1, 2, 3][1..] == [2, 3];
    assert Before([2, 3], 2) == [];
    assert RemoveFirst([2, 3], 2) == [3];
  }
}
