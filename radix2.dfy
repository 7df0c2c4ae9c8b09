/** Index arithmetic shared by the radix-2 evaluator and the pipeline generator:
    powers of two, the floor logarithm, and the even/odd split of a sequence. */
module Radix2 {

  function Pow2(k: nat): (r: nat)
    ensures r >= 1
  {
    if k == 0 then 1 else 2 * Pow2(k - 1)
  }

  /** n is 2^k for some k >= 0. */
  predicate IsPow2(n: nat)
    decreases n
  {
    n == 1 || (n >= 2 && n % 2 == 0 && IsPow2(n / 2))
  }

  /** floor(log2 n), and 0 for n <= 1: the value the generator's clog2 loop computes. */
  function Log2(n: nat): nat
  {
    if n <= 1 then 0 else 1 + Log2(n / 2)
  }

  /** Log2 is the floor logarithm. */
  lemma {:induction false} Log2Bounds(n: nat)
    requires n >= 1
    ensures Pow2(Log2(n)) <= n < Pow2(Log2(n) + 1)
  {
    if n >= 2 {
      Log2Bounds(n / 2);
    }
  }

  /** The powers of two are exactly the n with 2^(log2 n) == n. */
  lemma {:induction false} IsPow2Exact(n: nat)
    requires n >= 1
    ensures IsPow2(n) <==> n == Pow2(Log2(n))
  {
    if n >= 2 {
      IsPow2Exact(n / 2);
      if n % 2 == 1 {
        assert Pow2(Log2(n)) == 2 * Pow2(Log2(n / 2));
      }
    }
  }

  lemma {:induction false} Log2OfPow2(k: nat)
    ensures Log2(Pow2(k)) == k && IsPow2(Pow2(k))
  {
    if k > 0 {
      Log2OfPow2(k - 1);
      assert Pow2(k) / 2 == Pow2(k - 1);
    }
  }

  /** The even-indexed half: src_e[j] = src[2j]. */
  function Evens<T>(s: seq<T>): seq<T>
  {
    seq(|s| / 2, j requires 0 <= j < |s| / 2 => s[2 * j])
  }

  /** The odd-indexed half: src_o[j] = src[2j+1]. */
  function Odds<T>(s: seq<T>): seq<T>
  {
    seq(|s| / 2, j requires 0 <= j < |s| / 2 => s[2 * j + 1])
  }

  /** Splitting off the last pair appends one element to each half. */
  lemma SplitSnoc<T>(s: seq<T>)
    requires |s| >= 2 && |s| % 2 == 0
    ensures Evens(s) == Evens(s[..|s| - 2]) + [s[|s| - 2]]
    ensures Odds(s) == Odds(s[..|s| - 2]) + [s[|s| - 1]]
  {
  }

  /** For an even length every sample lands in exactly one half, at half its index. */
  lemma SplitIndices<T>(s: seq<T>)
    requires |s| % 2 == 0
    ensures forall i :: 0 <= i < |s| ==> s[i] == if i % 2 == 0 then Evens(s)[i / 2] else Odds(s)[i / 2]
  {
    forall i | 0 <= i < |s|
      ensures s[i] == if i % 2 == 0 then Evens(s)[i / 2] else Odds(s)[i / 2]
    {
      if i % 2 == 0 {
        assert 2 * (i / 2) == i;
      } else {
        assert 2 * (i / 2) + 1 == i;
      }
    }
  }

  /** For an even length the two halves partition the input: nothing is lost or duplicated. */
  lemma {:induction false} SplitPartitions<T>(s: seq<T>)
    requires |s| % 2 == 0
    ensures multiset(Evens(s)) + multiset(Odds(s)) == multiset(s)
  {
    if |s| >= 2 {
      var t, x, y := s[..|s| - 2], s[|s| - 2], s[|s| - 1];
      SplitPartitions(t);
      SplitSnoc(s);
      assert s == t + [x] + [y];
      MultisetsSnoc(Evens(t), Odds(t), t, x, y);
    }
  }

  /** Appending x to one part and y to the other appends both to the whole. */
  lemma MultisetsSnoc<T>(a: seq<T>, b: seq<T>, t: seq<T>, x: T, y: T)
    requires multiset(a) + multiset(b) == multiset(t)
    ensures multiset(a + [x]) + multiset(b + [y]) == multiset(t + [x] + [y])
  {
  }

  /** The split loop of do_recurse2 (idft_recurse.cc) and idft_math_recursive_gen (idft_gen.cc). */
  method SplitEvenOdd<T(0)>(src: seq<T>) returns (srcE: seq<T>, srcO: seq<T>)
    ensures srcE == Evens(src) && srcO == Odds(src)
  {
    var half := |src| / 2;
    var e := new T[half];
    var o := new T[half];
    var j := 0;
    while j < half
      invariant 0 <= j <= half
      invariant forall i :: 0 <= i < j ==> e[i] == src[2 * i] && o[i] == src[2 * i + 1]
    {
      e[j] := src[2 * j];
      o[j] := src[2 * j + 1];
      j := j + 1;
    }
    srcE, srcO := e[..], o[..];
  }
}
