/** Order-preserving sublists: what `Array.prototype.filter` returns. */
module Lists {

  /** `xs` is `ys` with some elements removed and the rest in their order. */
  predicate Sublist<T(==)>(xs: seq<T>, ys: seq<T>)
    decreases |ys|
  {
    if |xs| == 0 then true
    else if |ys| == 0 then false
    else (xs[0] == ys[0] && Sublist(xs[1..], ys[1..])) || Sublist(xs, ys[1..])
  }

  lemma {:induction false} SublistRefl<T>(xs: seq<T>)
    ensures Sublist(xs, xs)
    decreases |xs|
  {
    if |xs| > 0 {
      SublistRefl(xs[1..]);
    }
  }

  /** Keeping or dropping the head of `ys` preserves the sublist relation. */
  lemma SublistCons<T>(x: T, xs: seq<T>, ys: seq<T>)
    requires |ys| > 0 && Sublist(xs, ys[1..])
    ensures Sublist(xs, ys)
    ensures x == ys[0] ==> Sublist([x] + xs, ys)
  {
    assert ([x] + xs)[1..] == xs;
  }

  lemma {:induction false} SublistLength<T>(xs: seq<T>, ys: seq<T>)
    requires Sublist(xs, ys)
    ensures |xs| <= |ys|
    decreases |ys|
  {
    if |xs| > 0 {
      if xs[0] == ys[0] && Sublist(xs[1..], ys[1..]) {
        SublistLength(xs[1..], ys[1..]);
      } else {
        SublistLength(xs, ys[1..]);
      }
    }
  }

  /** Pushing the element at position `i` of `s` onto the prefix of `s`
      before it gives the prefix one longer. */
  lemma PushAt<T>(s: seq<T>, i: nat, x: T)
    requires i < |s| && x == s[i]
    ensures s[..i] + [x] == s[..i + 1]
  {
  }

  lemma MemberOfCons<T>(y: T, ys: seq<T>, x: T)
    ensures x in [y] + ys <==> x == y || x in ys
  {
  }

  /** Every element of a sublist comes from the list. */
  lemma {:induction false} SublistMembers<T>(xs: seq<T>, ys: seq<T>, x: T)
    requires Sublist(xs, ys) && x in xs
    ensures x in ys
    decreases |ys|
  {
    if xs[0] == ys[0] && Sublist(xs[1..], ys[1..]) {
      if x != xs[0] {
        assert x in xs[1..];
        SublistMembers(xs[1..], ys[1..], x);
      }
    } else {
      SublistMembers(xs, ys[1..], x);
    }
  }

  /** `xs.filter(keep)`. */
  function Filter<T>(xs: seq<T>, keep: T -> bool): (r: seq<T>)
    decreases |xs|
  {
    if |xs| == 0 then []
    else if keep(xs[0]) then [xs[0]] + Filter(xs[1..], keep)
    else Filter(xs[1..], keep)
  }

  /** The filter keeps the list's order and drops only elements. */
  lemma {:induction false} FilterSublist<T>(xs: seq<T>, keep: T -> bool)
    ensures Sublist(Filter(xs, keep), xs)
    decreases |xs|
  {
    if |xs| > 0 {
      FilterSublist(xs[1..], keep);
      SublistCons(xs[0], Filter(xs[1..], keep), xs);
    }
  }

  /** An element is kept exactly when it is in the list and passes. */
  lemma {:induction false} FilterMembers<T>(xs: seq<T>, keep: T -> bool, x: T)
    ensures x in Filter(xs, keep) <==> x in xs && keep(x)
    decreases |xs|
  {
    if |xs| > 0 {
      FilterMembers(xs[1..], keep, x);
      MemberOfCons(xs[0], xs[1..], x);
      assert xs == [xs[0]] + xs[1..];
      if keep(xs[0]) {
        MemberOfCons(xs[0], Filter(xs[1..], keep), x);
      }
    }
  }

  /** When every element passes, the filter returns the whole list. */
  lemma {:induction false} FilterAll<T>(xs: seq<T>, keep: T -> bool)
    requires forall i :: 0 <= i < |xs| ==> keep(xs[i])
    ensures Filter(xs, keep) == xs
    decreases |xs|
  {
    if |xs| > 0 {
      FilterAll(xs[1..], keep);
      assert [xs[0]] + xs[1..] == xs;
    }
  }
}
