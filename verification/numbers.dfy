/** Go's 64-bit arithmetic, and sums over sequences. */
module Numbers {
  const TWO_63: int := 0x8000_0000_0000_0000
  const TWO_64: int := 0x1_0000_0000_0000_0000

  type Int64 = x: int | -TWO_63 <= x < TWO_63

  predicate InInt64(x: int) { -TWO_63 <= x < TWO_63 }

  /** The int64 a Go operation leaves behind when its exact result is `x`. */
  function Wrap(x: int): (r: Int64)
    ensures -TWO_63 <= x < TWO_63 ==> r == x
    ensures (x - r) % TWO_64 == 0
  {
    (x + TWO_63) % TWO_64 - TWO_63
  }

  /** Two integers with the same int64 image differ by a multiple of 2^64. */
  lemma WrapCongruent(x: int, y: int)
    requires (x - y) % TWO_64 == 0
    ensures Wrap(x) == Wrap(y)
  {
    var k := (x - y) / TWO_64;
    assert x + TWO_63 == y + TWO_63 + k * TWO_64;
  }

  lemma WrapAdd(x: int, y: int)
    ensures Wrap(Wrap(x) + y) == Wrap(x + y)
  {
    assert (Wrap(x) + y - (x + y)) % TWO_64 == 0 by {
      assert Wrap(x) + y - (x + y) == -(x - Wrap(x));
    }
    WrapCongruent(Wrap(x) + y, x + y);
  }

  /** The image is the number itself, or another of the same class, if and only if that is in range. */
  lemma WrapIff(x: int, y: int)
    ensures Wrap(x) == y <==> InInt64(y) && (x - y) % TWO_64 == 0
  {
    if InInt64(y) && (x - y) % TWO_64 == 0 {
      WrapCongruent(x, y);
    }
  }

  function Abs(x: int): nat { if x < 0 then -x else x }

  function Min(x: int, y: int): int { if x < y then x else y }

  function Max(x: int, y: int): int { if x < y then y else x }

  /** Go's `/` on integers: the quotient truncated toward zero. */
  function TruncDiv(a: int, b: int): int
    requires b != 0
  {
    if (a < 0) == (b < 0) then Abs(a) / Abs(b) else -(Abs(a) / Abs(b))
  }

  /** Go's `%` on integers: the remainder takes the sign of the dividend. */
  function TruncMod(a: int, b: int): (r: int)
    requires b != 0
    ensures Abs(r) < Abs(b)
  {
    if a < 0 then -(Abs(a) % Abs(b)) else a % Abs(b)
  }

  lemma MulOrder(t: int, x: int, y: int)
    requires t >= 0 && x <= y
    ensures t * x <= t * y
  {
    assert t * (y - x) >= 0;
  }

  lemma MulGap(t: int, x: int, y: int)
    requires t >= 0 && x < y
    ensures t * x + t <= t * y
  {
    MulOrder(t, x + 1, y);
  }

  function Sum(s: seq<int>): int {
    if s == [] then 0 else Sum(s[..|s| - 1]) + s[|s| - 1]
  }

  lemma {:induction false} SumSnoc(s: seq<int>, x: int)
    ensures Sum(s + [x]) == Sum(s) + x
  {
    assert (s + [x])[..|s|] == s;
  }

  lemma SumNext(s: seq<int>, i: nat)
    requires i < |s|
    ensures Sum(s[..i + 1]) == Sum(s[..i]) + s[i]
  {
    assert s[..i + 1] == s[..i] + [s[i]];
    SumSnoc(s[..i], s[i]);
  }

  lemma {:induction false} SumAppend(s: seq<int>, t: seq<int>)
    ensures Sum(s + t) == Sum(s) + Sum(t)
  {
    if t == [] {
      assert s + t == s;
    } else {
      assert (s + t)[..|s + t| - 1] == s + t[..|t| - 1];
      SumAppend(s, t[..|t| - 1]);
    }
  }

  lemma {:induction false} SumCons(x: int, s: seq<int>)
    ensures Sum([x] + s) == x + Sum(s)
  {
    assert Sum([x]) == x by { assert [x][..0] == []; }
    SumAppend([x], s);
  }

  lemma {:induction false} SumZero(s: seq<int>)
    requires forall i | 0 <= i < |s| :: s[i] == 0
    ensures Sum(s) == 0
  {
    if s != [] { SumZero(s[..|s| - 1]); }
  }

  lemma {:induction false} SumNonNegative(s: seq<int>)
    requires forall i | 0 <= i < |s| :: s[i] >= 0
    ensures Sum(s) >= 0
    ensures forall i | 0 <= i < |s| :: s[i] <= Sum(s)
  {
    if s != [] {
      var t := s[..|s| - 1];
      SumNonNegative(t);
      forall i | 0 <= i < |s|
        ensures s[i] <= Sum(s)
      {
        if i < |t| { assert s[i] == t[i]; }
      }
    }
  }

  /** A sum does not depend on the order of its terms. */
  lemma {:induction false} SumMultiset(s: seq<int>, t: seq<int>)
    requires multiset(s) == multiset(t)
    ensures Sum(s) == Sum(t)
    decreases |s|
  {
    if s == [] {
      assert |multiset(t)| == 0;
    } else {
      var x := s[|s| - 1];
      assert x in multiset(t);
      var j :| 0 <= j < |t| && t[j] == x;
      assert s == s[..|s| - 1] + [x];
      assert t == t[..j] + [x] + t[j + 1..];
      assert multiset(s[..|s| - 1]) == multiset(s) - multiset{x};
      assert multiset(t[..j] + t[j + 1..]) == multiset(t) - multiset{x};
      SumMultiset(s[..|s| - 1], t[..j] + t[j + 1..]);
      SumAppend(t[..j], t[j + 1..]);
      SumAppend(t[..j] + [x], t[j + 1..]);
      SumSnoc(t[..j], x);
    }
  }

  /** Termwise comparison carries over to sums. */
  lemma {:induction false} SumMonotone(s: seq<int>, t: seq<int>)
    requires |s| == |t| && forall i | 0 <= i < |s| :: s[i] <= t[i]
    ensures Sum(s) <= Sum(t)
  {
    if s != [] {
      SumMonotone(s[..|s| - 1], t[..|t| - 1]);
    }
  }

  /** Termwise linear combinations carry over to sums. */
  lemma {:induction false} SumLinear(s: seq<int>, t: seq<int>, u: seq<int>, c: int)
    requires |s| == |t| == |u| && forall i | 0 <= i < |s| :: u[i] == s[i] + c * t[i]
    ensures Sum(u) == Sum(s) + c * Sum(t)
  {
    if s != [] {
      SumLinear(s[..|s| - 1], t[..|t| - 1], u[..|u| - 1], c);
      var k := |s| - 1;
      assert u[k] == s[k] + c * t[k];
      assert c * (Sum(t[..k]) + t[k]) == c * Sum(t[..k]) + c * t[k];
    }
  }

  /** Adding one to the positions in `b` adds `|b|` to the sum. */
  lemma {:induction false} SumIndicator(s: seq<int>, b: set<int>)
    requires forall i | i in b :: 0 <= i < |s|
    requires forall i | 0 <= i < |s| :: s[i] == if i in b then 1 else 0
    ensures Sum(s) == |b|
  {
    if s == [] {
      assert forall i :: i !in b;
    } else {
      var k := |s| - 1;
      var b' := b - {k};
      SumIndicator(s[..k], b');
      if k in b {
        assert b == b' + {k};
      } else {
        assert b == b';
      }
    }
  }

  /** The elements of a duplicate-free sequence. */
  lemma {:induction false} DistinctCount<T>(s: seq<T>)
    requires forall i, j | 0 <= i < j < |s| :: s[i] != s[j]
    ensures |set x | x in s| == |s|
  {
    var all := set x | x in s;
    if s == [] {
      assert all == {};
    } else {
      var t := s[..|s| - 1];
      DistinctCount(t);
      var front := set x | x in t;
      assert s == t + [s[|s| - 1]];
      assert all == front + {s[|s| - 1]};
      assert s[|s| - 1] !in front;
    }
  }

  /** A strictly increasing list of n numbers below n is 0, 1, .., n-1. */
  lemma IncreasingIsIdentity(s: seq<int>)
    requires forall i, j | 0 <= i < j < |s| :: s[i] < s[j]
    requires forall i | 0 <= i < |s| :: 0 <= s[i] < |s|
    ensures forall i | 0 <= i < |s| :: s[i] == i
  {
    forall i | 0 <= i < |s|
      ensures s[i] == i
    {
      IncreasingBounds(s, i);
    }
  }

  lemma IncreasingBounds(s: seq<int>, i: nat)
    requires i < |s|
    requires forall i, j | 0 <= i < j < |s| :: s[i] < s[j]
    requires forall i | 0 <= i < |s| :: 0 <= s[i] < |s|
    ensures i <= s[i] && s[i] <= i
  {
    for k := 0 to i
      invariant s[k] >= k
    {
      assert s[k] < s[k + 1];
    }
    var m := |s| - 1;
    while m > i
      invariant i <= m < |s| && s[m] <= m
    {
      assert s[m - 1] < s[m];
      m := m - 1;
    }
  }
}
