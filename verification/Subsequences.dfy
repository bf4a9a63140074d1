/** Sequences from which something has been left out. */
module Subsequences {

  predicate Subsequence<T(==)>(a: seq<T>, b: seq<T>) {
    if a == [] then true
    else if b == [] then false
    else (a[0] == b[0] && Subsequence(a[1..], b[1..])) || Subsequence(a, b[1..])
  }

  lemma {:induction false} SubsequenceRefl<T>(a: seq<T>)
    ensures Subsequence(a, a)
  {
    if a != [] {
      SubsequenceRefl(a[1..]);
    }
  }

  lemma {:induction false} SubsequenceGrows<T>(a: seq<T>, b: seq<T>, e: seq<T>)
    requires Subsequence(a, b)
    ensures Subsequence(a + e, b + e)
    decreases |b|
  {
    if a == [] {
      assert a + e == e;
      SubsequenceOfLonger(e, b);
    } else {
      assert (b + e)[1..] == b[1..] + e && (a + e)[1..] == a[1..] + e;
      if a[0] == b[0] && Subsequence(a[1..], b[1..]) {
        SubsequenceGrows(a[1..], b[1..], e);
      } else {
        SubsequenceGrows(a, b[1..], e);
      }
    }
  }

  lemma {:induction false} SubsequenceOfLonger<T>(e: seq<T>, b: seq<T>)
    ensures Subsequence(e, b + e)
    decreases |b|
  {
    if b == [] {
      assert b + e == e;
      SubsequenceRefl(e);
    } else {
      assert (b + e)[1..] == b[1..] + e;
      SubsequenceOfLonger(e, b[1..]);
    }
  }

  lemma {:induction false} SubsequenceTail<T>(a: seq<T>, b: seq<T>)
    requires a != [] && Subsequence(a, b)
    ensures Subsequence(a[1..], b)
    decreases |b|
  {
    if a[0] == b[0] && Subsequence(a[1..], b[1..]) {
      if a[1..] != [] {
        // leave out one more element of b
        assert Subsequence(a[1..], b[1..]);
      }
    } else {
      SubsequenceTail(a, b[1..]);
    }
  }

  /** Leaving out a front part. */
  lemma {:induction false} SubsequenceDropFront<T>(x: seq<T>, c: seq<T>, b: seq<T>)
    requires Subsequence(x + c, b)
    ensures Subsequence(c, b)
    decreases |x|
  {
    if x == [] {
      assert x + c == c;
    } else {
      SubsequenceTail(x + c, b);
      assert (x + c)[1..] == x[1..] + c;
      SubsequenceDropFront(x[1..], c, b);
    }
  }

  /** Leaving out a middle part. */
  lemma {:induction false} SubsequenceDropMiddle<T>(a: seq<T>, x: seq<T>, c: seq<T>, b: seq<T>)
    requires Subsequence(a + x + c, b)
    ensures Subsequence(a + c, b)
    decreases |b|
  {
    if a == [] {
      assert a + x + c == x + c && a + c == c;
      SubsequenceDropFront(x, c, b);
    } else {
      var whole := a + x + c;
      assert whole[0] == a[0] && whole[1..] == a[1..] + x + c;
      assert (a + c)[1..] == a[1..] + c;
      if whole[0] == b[0] && Subsequence(whole[1..], b[1..]) {
        SubsequenceDropMiddle(a[1..], x, c, b[1..]);
      } else {
        SubsequenceDropMiddle(a, x, c, b[1..]);
      }
    }
  }
}
