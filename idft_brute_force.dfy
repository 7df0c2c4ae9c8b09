/** The fixed-point O(N^2) reference evaluator of idft_brute_force.cc: a table W of the N
    twiddles, then for every output bin idx the accumulation
    dst[idx] = src[0] + sum over k = 1 .. N-1 of src[k] * W[(idx*k) mod N], in increasing k. */
module IdftBruteForce {
  import opened FixedComplex
  import opened Radix2
  import opened Twiddles
  import opened IdftRecurse

  /** The table W: entry 0 is the literal 1.0, entry k >= 1 the converted pow(W1, k). */
  function Table(n: nat, tw: Twiddle): (w: seq<IComplex>)
    requires n >= 2
    ensures |w| == n && w[0] == One()
    ensures forall k :: 1 <= k < n ==> w[k] == tw(n, k)
  {
    FromDoubleUnits();
    seq(n, k requires 0 <= k < n => if k == 0 then FromDouble(1.0, 0.0) else tw(n, k))
  }

  /** dst[idx] once the inner loop has added the terms 1 .. k-1, or the first fault. */
  function Accumulate(idx: nat, src: seq<IComplex>, w: seq<IComplex>, k: nat): (r: Result<IComplex>)
    requires 1 <= k <= |src| == |w|
    ensures r.Err? ==> r.fault == ProductUndefined
    decreases k
  {
    if k == 1 then Ok(src[0])
    else
      var acc :- Accumulate(idx, src, w, k - 1);
      var p :- Mul(src[k - 1], w[(idx * (k - 1)) % |src|]);
      Ok(Add(acc, p))
  }

  /** Output bin idx of the brute-force transform. */
  function BruteForceAt(idx: nat, src: seq<IComplex>, tw: Twiddle): (r: Result<IComplex>)
    requires |src| >= 2
    ensures r.Err? ==> r.fault == ProductUndefined
  {
    Accumulate(idx, src, Table(|src|, tw), |src|)
  }

  /** A fault in the accumulation is the fault of the whole bin. */
  lemma {:induction false} FaultPersists(idx: nat, src: seq<IComplex>, w: seq<IComplex>, k: nat, m: nat)
    requires 1 <= k <= m <= |src| == |w|
    requires Accumulate(idx, src, w, k).Err?
    ensures Accumulate(idx, src, w, m) == Accumulate(idx, src, w, k)
    decreases m
  {
    if m > k {
      FaultPersists(idx, src, w, k, m - 1);
    }
  }

  /** The table loop of idft_brute_force: W[0] from the literal 1.0, W[k] = tw(N, k) for
      k = 1 .. N-1. */
  method BuildTable(n: nat, tw: Twiddle) returns (w: array<IComplex>)
    requires n >= 2
    ensures fresh(w) && w[..] == Table(n, tw)
  {
    w := new IComplex[n];
    FromDoubleUnits();
    w[0] := FromDouble(1.0, 0.0);
    w[1] := tw(n, 1);
    var k := 2;
    while k < n
      invariant 2 <= k <= n
      invariant forall j :: 0 <= j < k ==> w[j] == Table(n, tw)[j]
    {
      w[k] := tw(n, k);
      k := k + 1;
    }
  }

  /** The inner loop of idft_brute_force for one bin: dst[idx] starts at src[0] and adds
      src[k] * W[(idx*k) mod N] for k = 1 .. N-1, stopping at the first fault. */
  method AccumulateBin(idx: nat, src: seq<IComplex>, w: array<IComplex>) returns (r: Result<IComplex>)
    requires 2 <= |src| == w.Length
    ensures r == Accumulate(idx, src, w[..], |src|)
  {
    var n := |src|;
    var acc := src[0];
    var k := 1;
    while k < n
      invariant 1 <= k <= n
      invariant Accumulate(idx, src, w[..], k) == Ok(acc)
    {
      var t := Mul(src[k], w[(idx * k) % n]);
      if t.Err? {
        FaultPersists(idx, src, w[..], k + 1, n);
        return Err(t.fault);
      }
      acc := Add(acc, t.value);
      k := k + 1;
    }
    return Ok(acc);
  }

  /** idft_brute_force. It writes W[1] unconditionally into a table of N entries, so N >= 2;
      idx*k is formed in int, so (N-1)^2 must fit in int32. */
  method IdftBruteForce(src: seq<IComplex>, tw: Twiddle) returns (dst: Result<seq<IComplex>>)
    requires |src| >= 2
    requires (|src| - 1) * (|src| - 1) <= INT32_MAX
    ensures dst.Ok? <==> forall idx :: 0 <= idx < |src| ==> BruteForceAt(idx, src, tw).Ok?
    ensures dst.Ok? ==> |dst.value| == |src|
    ensures dst.Ok? ==> forall idx :: 0 <= idx < |src| ==> dst.value[idx] == BruteForceAt(idx, src, tw).value
    ensures dst.Err? ==> exists idx :: 0 <= idx < |src| && BruteForceAt(idx, src, tw) == Err(dst.fault) &&
                                       forall j :: 0 <= j < idx ==> BruteForceAt(j, src, tw).Ok?
  {
    var n := |src|;
    var out := new IComplex[n];
    var w := BuildTable(n, tw);
    ghost var table := w[..];

    var idx := 0;
    while idx < n
      invariant 0 <= idx <= n
      invariant w[..] == table
      invariant forall j :: 0 <= j < idx ==> BruteForceAt(j, src, tw) == Ok(out[j])
    {
      var r := AccumulateBin(idx, src, w);
      assert BruteForceAt(idx, src, tw) == r;
      if r.Err? {
        assert forall j :: 0 <= j < idx ==> BruteForceAt(j, src, tw).Ok?;
        return Err(r.fault);
      }
      out[idx] := r.value;
      idx := idx + 1;
    }
    assert forall j :: 0 <= j < n ==> BruteForceAt(j, src, tw) == Ok(out[..][j]);
    return Ok(out[..]);
  }

  /** Bin 0 multiplies every sample by W[0], the raw one, so a completed accumulation is the
      sum of the samples taken so far. */
  lemma {:induction false} AccumulateBinZero(src: seq<IComplex>, w: seq<IComplex>, k: nat)
    requires 1 <= k <= |src| == |w| && w[0] == One()
    ensures Accumulate(0, src, w, k).Ok? ==> Accumulate(0, src, w, k).value == Sum(src[..k])
    decreases k
  {
    if k == 1 {
      SumSnoc([], src[0]);
      assert src[..1] == [] + [src[0]];
    } else if Accumulate(0, src, w, k).Ok? {
      AccumulateBinZero(src, w, k - 1);
      assert 0 * (k - 1) == 0;
      assert 0 % |src| == 0;
      MulByOne(src[k - 1]);
      SumSnoc(src[..k - 1], src[k - 1]);
      assert src[..k] == src[..k - 1] + [src[k - 1]];
    }
  }

  /** dst[0] is the component-wise sum of all samples. */
  lemma BinZeroIsSumBruteForce(src: seq<IComplex>, tw: Twiddle)
    requires |src| >= 2
    ensures BruteForceAt(0, src, tw).Ok? ==> BruteForceAt(0, src, tw).value == Sum(src)
  {
    AccumulateBinZero(src, Table(|src|, tw), |src|);
    assert src[..|src|] == src;
  }

  /** Where both evaluators complete bin 0, they agree on it exactly. */
  lemma BinZeroAgrees(src: seq<IComplex>, tw: Twiddle)
    requires |src| >= 2 && UnitAtZero(tw)
    ensures BruteForceAt(0, src, tw).Ok? && Recurse2(0, src, tw).Ok? ==>
            BruteForceAt(0, src, tw).value == Recurse2(0, src, tw).value
  {
    BinZeroIsSumBruteForce(src, tw);
    BinZeroIsSum(src, tw);
  }
}
