/** Shared vocabulary of the book pipeline model: optional values, the
    "is it a str?" view of loosely typed Python values, and sums and means
    over real-valued scores (the model reads every float score as a real). */
module Common {

  datatype Option<+T> = None | Some(value: T)

  /** A Python value as the code inspects it with `isinstance(x, str)`:
      either a string, or anything else (None, a number, NaN, a list). */
  datatype Value = Str(s: string) | NotStr

  /** `sum(xs)` over reals. */
  function Sum(xs: seq<real>): real
  {
    if xs == [] then 0.0 else xs[0] + Sum(xs[1..])
  }

  /** `np.mean(xs)` over reals. */
  function Mean(xs: seq<real>): real
    requires xs != []
  {
    Sum(xs) / (|xs| as real)
  }

  predicate AllIn(xs: seq<real>, lo: real, hi: real)
  {
    forall i :: 0 <= i < |xs| ==> lo <= xs[i] <= hi
  }

  lemma {:induction false} SumAppend(a: seq<real>, b: seq<real>)
    ensures Sum(a + b) == Sum(a) + Sum(b)
    decreases |a|
  {
    if a == [] {
      assert a + b == b;
    } else {
      assert (a + b)[1..] == a[1..] + b;
      SumAppend(a[1..], b);
    }
  }

  /** Taking the element at index j out of a sequence. */
  lemma RemoveAt(b: seq<real>, j: nat)
    requires j < |b|
    ensures Sum(b) == b[j] + Sum(b[..j] + b[j + 1..])
  {
    var left, mid, right := b[..j], [b[j]] + b[j + 1..], b[j + 1..];
    assert Sum(b) == Sum(left) + Sum(mid) by {
      assert b == left + mid;
      SumAppend(left, mid);
    }
    assert Sum(mid) == b[j] + Sum(right) by {
      assert mid[1..] == right;
    }
    SumAppend(left, right);
  }

  lemma MultisetRemove<T>(b: seq<T>, j: nat)
    requires j < |b|
    ensures multiset(b[..j] + b[j + 1..]) == multiset(b) - multiset{b[j]}
  {
    assert b == b[..j] + [b[j]] + b[j + 1..];
  }

  /** A sum depends only on the multiset of its terms, so reordering the
      terms (for instance, classifying chunks in another order) changes nothing. */
  lemma {:induction false} SumPermutation(a: seq<real>, b: seq<real>)
    requires multiset(a) == multiset(b)
    ensures Sum(a) == Sum(b)
    decreases |a|
  {
    if a == [] {
      assert |b| == |multiset(b)| == 0;
    } else {
      assert a == [a[0]] + a[1..];
      assert multiset(a[1..]) == multiset(a) - multiset{a[0]};
      assert a[0] in multiset(b);
      var j :| 0 <= j < |b| && b[j] == a[0];
      RemoveAt(b, j);
      MultisetRemove(b, j);
      SumPermutation(a[1..], b[..j] + b[j + 1..]);
    }
  }

  lemma {:induction false} SumBounds(xs: seq<real>, lo: real, hi: real)
    requires AllIn(xs, lo, hi)
    ensures (|xs| as real) * lo <= Sum(xs) <= (|xs| as real) * hi
    decreases |xs|
  {
    if xs != [] {
      SumBounds(xs[1..], lo, hi);
    }
  }

  /** The mean of scores that lie in [lo, hi] lies in [lo, hi]. */
  lemma MeanBounds(xs: seq<real>, lo: real, hi: real)
    requires xs != [] && AllIn(xs, lo, hi)
    ensures lo <= Mean(xs) <= hi
  {
    SumBounds(xs, lo, hi);
    var n := |xs| as real;
    assert n * lo <= Sum(xs) <= n * hi;
    assert Sum(xs) / n >= lo by {
      assert Sum(xs) >= lo * n;
    }
    assert Sum(xs) / n <= hi by {
      assert Sum(xs) <= hi * n;
    }
  }

  /** Membership in a concatenation, from either part. */
  lemma InAppendLeft<T>(x: T, a: seq<T>, b: seq<T>)
    requires x in a
    ensures x in a + b
  {
    var k :| 0 <= k < |a| && a[k] == x;
    assert (a + b)[k] == x;
  }

  lemma InAppendRight<T>(x: T, a: seq<T>, b: seq<T>)
    requires x in b
    ensures x in a + b
  {
    var k :| 0 <= k < |b| && b[k] == x;
    assert (a + b)[|a| + k] == x;
  }

  lemma InAppendEither<T>(x: T, a: seq<T>, b: seq<T>)
    requires x in a + b
    ensures x in a || x in b
  {
    var k :| 0 <= k < |a + b| && (a + b)[k] == x;
    if k >= |a| { assert b[k - |a|] == x; } else { assert a[k] == x; }
  }

  /** Applies `f` to every element and keeps the `Some` results, in order. */
  function FilterMap<A, B>(xs: seq<A>, f: A -> Option<B>): seq<B>
    decreases |xs|
  {
    if xs == [] then []
    else (match f(xs[0]) case None => [] case Some(y) => [y]) + FilterMap(xs[1..], f)
  }

  lemma {:induction false} FilterMapLength<A, B>(xs: seq<A>, f: A -> Option<B>)
    ensures |FilterMap(xs, f)| <= |xs|
    decreases |xs|
  {
    if xs != [] { FilterMapLength(xs[1..], f); }
  }

  /** The filter works element by element, so order is kept. */
  lemma {:induction false} FilterMapAppend<A, B>(a: seq<A>, b: seq<A>, f: A -> Option<B>)
    ensures FilterMap(a + b, f) == FilterMap(a, f) + FilterMap(b, f)
    decreases |a|
  {
    if a == [] {
      assert a + b == b;
    } else {
      assert (a + b)[0] == a[0] && (a + b)[1..] == a[1..] + b;
      FilterMapAppend(a[1..], b, f);
      var head := match f(a[0]) case None => [] case Some(y) => [y];
      AppendAssoc(head, FilterMap(a[1..], f), FilterMap(b, f));
    }
  }

  /** Every `Some` result is kept. */
  lemma {:induction false} FilterMapComplete<A, B>(xs: seq<A>, f: A -> Option<B>, i: nat)
    requires i < |xs| && f(xs[i]).Some?
    ensures f(xs[i]).value in FilterMap(xs, f)
    decreases |xs|
  {
    var head := match f(xs[0]) case None => [] case Some(y) => [y];
    var rest := FilterMap(xs[1..], f);
    if i == 0 {
      assert head == [f(xs[0]).value];
      InAppendLeft(f(xs[i]).value, head, rest);
    } else {
      assert xs[1..][i - 1] == xs[i];
      FilterMapComplete(xs[1..], f, i - 1);
      InAppendRight(f(xs[i]).value, head, rest);
    }
  }

  /** Every kept value is the `Some` result of some element. */
  lemma {:induction false} FilterMapSound<A, B>(xs: seq<A>, f: A -> Option<B>, y: B)
    requires y in FilterMap(xs, f)
    ensures exists i :: 0 <= i < |xs| && f(xs[i]) == Some(y)
    decreases |xs|
  {
    var head := match f(xs[0]) case None => [] case Some(z) => [z];
    var rest := FilterMap(xs[1..], f);
    InAppendEither(y, head, rest);
    if y in rest {
      FilterMapSound(xs[1..], f, y);
      var i :| 0 <= i < |xs[1..]| && f(xs[1..][i]) == Some(y);
      assert xs[1..][i] == xs[i + 1];
    } else {
      assert f(xs[0]) == Some(y);
    }
  }

  lemma AppendAssoc<T>(a: seq<T>, b: seq<T>, c: seq<T>)
    ensures (a + b) + c == a + (b + c)
  {
  }

  /** The mean does not depend on the order of the scores. */
  lemma MeanPermutation(a: seq<real>, b: seq<real>)
    requires a != [] && multiset(a) == multiset(b)
    ensures b != [] && Mean(a) == Mean(b)
  {
    assert |a| == |multiset(a)| == |multiset(b)| == |b|;
    SumPermutation(a, b);
  }
}
