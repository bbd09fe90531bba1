/** `Array.prototype.filter`, on sequences. */
module Sequences {

  /** `Array.prototype.filter`: the elements the callback keeps, in order. */
  function Filter<T>(keep: T -> bool, s: seq<T>): (kept: seq<T>)
    ensures |kept| <= |s|
  {
    if |s| == 0 then []
    else (if keep(s[0]) then [s[0]] else []) + Filter(keep, s[1..])
  }

  /** An element survives the filter exactly when it was there and the callback keeps it. */
  lemma {:induction false} FilterMember<T>(keep: T -> bool, s: seq<T>, x: T)
    ensures x in Filter(keep, s) <==> x in s && keep(x)
    decreases |s|
  {
    if |s| > 0 {
      FilterMember(keep, s[1..], x);
      assert s == [s[0]] + s[1..];
    }
  }

  /** A callback that keeps nothing leaves nothing. */
  lemma {:induction false} FilterNothing<T>(keep: T -> bool, s: seq<T>)
    requires forall x :: !keep(x)
    ensures Filter(keep, s) == []
    decreases |s|
  {
    if |s| > 0 {
      FilterNothing(keep, s[1..]);
    }
  }

  /** Filtering a concatenation filters each part. */
  lemma {:induction false} FilterAppend<T>(keep: T -> bool, s: seq<T>, t: seq<T>)
    ensures Filter(keep, s + t) == Filter(keep, s) + Filter(keep, t)
    decreases |s|
  {
    if |s| > 0 {
      FilterAppend(keep, s[1..], t);
      assert (s + t)[0] == s[0] && (s + t)[1..] == s[1..] + t;
    } else {
      assert s + t == t;
    }
  }
}
