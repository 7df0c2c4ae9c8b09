/** The fixed-point radix-2 (Danielson-Lanczos) reference evaluator of idft_recurse.cc:
    do_recurse2 computes one output bin by splitting the samples into even and odd halves,
    recursing on each with the same output index, and combining them with a twiddle. */
module IdftRecurse {
  import opened FixedComplex
  import opened Radix2
  import opened Twiddles

  /** The constant of the length-2 case, icomplex((idx%2)==0 ? 1.0 : -1.0, 0.0). */
  function BaseWeight(idx: nat): (w: IComplex)
    ensures w == if idx % 2 == 0 then One() else IComplex(-ONE + 1, 0)
  {
    FromDoubleUnits();
    FromDouble(if idx % 2 == 0 then 1.0 else -1.0, 0.0)
  }

  /** Output bin idx of the samples src, or the fault that stops the computation. */
  function Recurse2(idx: nat, src: seq<IComplex>, tw: Twiddle): (r: Result<IComplex>)
    ensures r.Ok? ==> IsPow2(|src|) && |src| >= 2
    ensures r.Err? ==> r.fault != RangeAssert
    decreases |src|
  {
    var n := |src|;
    if n % 2 != 0 || n < 2 then Err(LengthAssert)
    else if n == 2 then
      var p :- Mul(BaseWeight(idx), src[1]);
      Ok(Add(src[0], p))
    else
      var wk := tw(n, idx % n);
      var resE :- Recurse2(idx, Evens(src), tw);
      var resO :- Recurse2(idx, Odds(src), tw);
      var p :- Mul(wk, resO);
      Ok(Add(resE, p))
  }

  /** do_recurse2, step by step as the source runs it. */
  method DoRecurse2(idx: nat, src: seq<IComplex>, tw: Twiddle) returns (res: Result<IComplex>)
    ensures res == Recurse2(idx, src, tw)
    decreases |src|
  {
    var n := |src|;
    if n % 2 != 0 || n < 2 {
      return Err(LengthAssert);
    }
    if n == 2 {
      var widx := BaseWeight(idx);
      var p :- Mul(widx, src[1]);
      return Ok(Add(src[0], p));
    }
    var srcE, srcO := SplitEvenOdd(src);
    var wk := tw(n, idx % n);
    var resE :- DoRecurse2(idx, srcE, tw);
    var resO :- DoRecurse2(idx, srcO, tw);
    var p :- Mul(wk, resO);
    return Ok(Add(resE, p));
  }

  /** idft_recurse: every output bin in turn; the first fault ends the run. */
  method IdftRecurse(src: seq<IComplex>, tw: Twiddle) returns (dst: Result<seq<IComplex>>)
    ensures dst.Ok? <==> forall idx :: 0 <= idx < |src| ==> Recurse2(idx, src, tw).Ok?
    ensures dst.Ok? ==> |dst.value| == |src|
    ensures dst.Ok? ==> forall idx :: 0 <= idx < |src| ==> dst.value[idx] == Recurse2(idx, src, tw).value
    ensures dst.Err? ==> exists idx :: 0 <= idx < |src| && Recurse2(idx, src, tw) == Err(dst.fault) &&
                                       forall j :: 0 <= j < idx ==> Recurse2(j, src, tw).Ok?
  {
    var n := |src|;
    var out := new IComplex[n];
    var idx := 0;
    while idx < n
      invariant 0 <= idx <= n
      invariant forall j :: 0 <= j < idx ==> Recurse2(j, src, tw) == Ok(out[j])
    {
      var r := DoRecurse2(idx, src, tw);
      if r.Err? {
        return Err(r.fault);
      }
      out[idx] := r.value;
      idx := idx + 1;
    }
    return Ok(out[..]);
  }

  /** The length assertions stop the recursion exactly when the length is not a power of
      two of at least 2: every level must be even and at least 2. */
  lemma {:induction false} LengthFaultIffNotPow2(idx: nat, src: seq<IComplex>, tw: Twiddle)
    ensures Recurse2(idx, src, tw) == Err(LengthAssert) <==> !(IsPow2(|src|) && |src| >= 2)
    decreases |src|
  {
    var n := |src|;
    if n % 2 != 0 || n < 2 {
    } else if n == 2 {
      assert IsPow2(1);
    } else {
      LengthFaultIffNotPow2(idx, Evens(src), tw);
      LengthFaultIffNotPow2(idx, Odds(src), tw);
    }
  }

  /** Length 2, even idx: the constant is the raw one, so the result is exactly
      src[0] + src[1] whenever 2^FRAC * src[1] fits in int32. */
  lemma BaseCaseEven(idx: nat, a: IComplex, b: IComplex, tw: Twiddle)
    requires idx % 2 == 0
    ensures Recurse2(idx, [a, b], tw) ==
      if InRange32(ONE * b.re) && InRange32(ONE * b.im) then Ok(Add(a, b)) else Err(ProductUndefined)
  {
    MulByOne(b);
  }

  /** Length 2, odd idx: the constant is (-(1 << FRAC) + 1, 0), so the result is a - b plus a
      truncation bias d toward the sign of b with |d| = ceil(|b| / 2^FRAC) per component;
      it is the exact difference only where that component of b is zero. */
  lemma BaseCaseOdd(idx: nat, a: IComplex, b: IComplex, tw: Twiddle)
    requires idx % 2 == 1
    ensures Recurse2(idx, [a, b], tw).Ok? <==> InRange32(-255 * b.re) && InRange32(-255 * b.im)
    ensures Recurse2(idx, [a, b], tw).Ok? ==>
      var r := Recurse2(idx, [a, b], tw).value;
      var dr, di := r.re - (a.re - b.re), r.im - (a.im - b.im);
      && (b.re >= 0 ==> 0 <= dr && b.re <= ONE * dr && ONE * (dr - 1) < b.re)
      && (b.re <= 0 ==> dr <= 0 && ONE * dr <= b.re && b.re < ONE * (dr + 1))
      && (b.im >= 0 ==> 0 <= di && b.im <= ONE * di && ONE * (di - 1) < b.im)
      && (b.im <= 0 ==> di <= 0 && ONE * di <= b.im && b.im < ONE * (di + 1))
      && (r.re == a.re - b.re <==> b.re == 0)
      && (r.im == a.im - b.im <==> b.im == 0)
  {
    var w := BaseWeight(idx);
    assert w == IComplex(-255, 0);
    assert 0 * b.im == 0 && 0 * b.re == 0;
  }

  /** Sum of a sequence extended by one sample. */
  lemma SumSnoc(s: seq<IComplex>, x: IComplex)
    ensures Sum(s + [x]) == Add(Sum(s), x)
  {
    assert (s + [x])[..|s|] == s;
  }

  /** The sum of the samples is the sum over the even half plus the sum over the odd half. */
  lemma {:induction false} SumSplit(s: seq<IComplex>)
    requires |s| % 2 == 0
    ensures Sum(s) == Add(Sum(Evens(s)), Sum(Odds(s)))
  {
    if |s| >= 2 {
      var t := s[..|s| - 2];
      SumSplit(t);
      SplitSnoc(s);
      assert s == t + [s[|s| - 2]] + [s[|s| - 1]];
      SumSnoc(t, s[|s| - 2]);
      SumSnoc(t + [s[|s| - 2]], s[|s| - 1]);
      SumSnoc(Evens(t), s[|s| - 2]);
      SumSnoc(Odds(t), s[|s| - 1]);
    }
  }

  /** Bin 0: with W_n^0 exactly the raw one, every combine adds the odd half unchanged, so a
      completed run yields the component-wise sum of all samples. */
  lemma {:induction false} BinZeroIsSum(src: seq<IComplex>, tw: Twiddle)
    requires UnitAtZero(tw)
    ensures Recurse2(0, src, tw).Ok? ==> Recurse2(0, src, tw).value == Sum(src)
    decreases |src|
  {
    var n := |src|;
    if n % 2 != 0 || n < 2 {
    } else if n == 2 {
      MulByOne(src[1]);
      SumSnoc([], src[0]);
      SumSnoc([src[0]], src[1]);
      assert src == [] + [src[0]] + [src[1]];
    } else if Recurse2(0, src, tw).Ok? {
      BinZeroIsSum(Evens(src), tw);
      BinZeroIsSum(Odds(src), tw);
      MulByOne(Recurse2(0, Odds(src), tw).value);
      assert tw(n, 0 % n) == One();
      SumSplit(src);
    }
  }

  /** A remainder is determined by any decomposition a = k*n + r with 0 <= r < n. */
  lemma ModUnique(a: int, k: int, n: int, r: int)
    requires n >= 1 && 0 <= r < n && a == k * n + r
    ensures a % n == r
  {
    var q, s := a / n, a % n;
    assert (k - q) * n == s - r;
    if k - q >= 1 {
      assert false;
    } else if k - q <= -1 {
      assert false;
    }
  }

  /** Reducing modulo 2m and then modulo m is reducing modulo m. */
  lemma ModHalf(i: nat, m: nat)
    requires m >= 1
    ensures (i % (2 * m)) % m == i % m
  {
    var q, r := i / (2 * m), i % (2 * m);
    var q2, r2 := r / m, r % m;
    assert i == (2 * q + q2) * m + r2;
    ModUnique(i, 2 * q + q2, m, r2);
  }

  /** The output depends on the bin index only through idx mod N, although every level is
      passed the same unreduced idx: the radix-2 output is periodic with the length. */
  lemma {:induction false} DependsOnIdxModN(i1: nat, i2: nat, src: seq<IComplex>, tw: Twiddle)
    requires |src| >= 1 && i1 % |src| == i2 % |src|
    ensures Recurse2(i1, src, tw) == Recurse2(i2, src, tw)
    decreases |src|
  {
    var n := |src|;
    if n % 2 != 0 || n < 2 {
    } else if n == 2 {
      assert BaseWeight(i1) == BaseWeight(i2);
    } else {
      var m := n / 2;
      ModHalf(i1, m);
      ModHalf(i2, m);
      DependsOnIdxModN(i1, i2, Evens(src), tw);
      DependsOnIdxModN(i1, i2, Odds(src), tw);
    }
  }
}
