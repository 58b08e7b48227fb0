/** Small facts about sequences shared by the numeral and entity parsers. */
module Sequences {
  import opened Optional

  /** No element occurs twice. */
  predicate Distinct<T(==)>(s: seq<T>) {
    forall i, j | 0 <= i < j < |s| :: s[i] != s[j]
  }

  /** The position of the first occurrence of `x` in `s`, like Java's
      `String.indexOf`, or `None` when `x` does not occur. */
  function IndexOf<T(==)>(s: seq<T>, x: T): (r: Option<nat>)
    ensures r.Some? ==> r.value < |s| && s[r.value] == x
    ensures r.Some? ==> forall j | 0 <= j < r.value :: s[j] != x
    ensures r.None? <==> x !in s
  {
    if |s| == 0 then None
    else if s[0] == x then Some(0)
    else
      match IndexOf(s[1..], x)
      case None => None
      case Some(k) => Some(k + 1)
  }

  /** In a sequence without repetitions, the first occurrence of `s[k]` is `k`. */
  lemma IndexOfDistinct<T>(s: seq<T>, k: nat)
    requires Distinct(s)
    requires k < |s|
    ensures IndexOf(s, s[k]) == Some(k)
  {
  }

  /** The first `x` in `a + [x] + b` is the one after `a` when `a` holds none. */
  lemma IndexOfSeparator<T>(a: seq<T>, x: T, b: seq<T>)
    requires x !in a
    ensures IndexOf(a + [x] + b, x) == Some(|a|)
  {
    var s := a + [x] + b;
    assert s[|a|] == x;
  }
}
