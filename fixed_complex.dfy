/** The fixed-point complex type icomplex<TYPE, FRAC> of icomplex.h, at the instantiation
    icomplex<int32_t, 8> that both fixed-point evaluators use. A value holds two raw
    integers; the number it stands for is raw / 2^FRAC per component. */
module FixedComplex {

  /** Fraction bits (USE_FRAC_BITS). */
  const FRAC: nat := 8
  /** 1 << FRAC: the raw value of 1.0. */
  const ONE: int := 256
  /** 8 * sizeof(int32_t). */
  const TYPE_BITS: nat := 32
  const INT32_MIN: int := -0x8000_0000
  const INT32_MAX: int := 0x7fff_ffff

  predicate InRange32(x: int)
  {
    INT32_MIN <= x <= INT32_MAX
  }

  /** An icomplex value: the raw real_ and imag_ members. */
  datatype IComplex = IComplex(re: int, im: int)

  /** Why a computation stops. Each is fatal in the source. */
  datatype Fault =
    | LengthAssert      // assert(N%2 == 0) or assert(N >= 2) of the radix-2 recursion
    | ProductUndefined  // an int32 partial product in operator* overflows: undefined behaviour
    | RangeAssert       // assert(log2(abs(tmp)) < 8*sizeof(TYPE)) in operator*

  datatype Result<T> = Ok(value: T) | Err(fault: Fault) {
    predicate IsFailure() { Err? }
    function PropagateFailure<U>(): Result<U> requires Err? { Err(fault) }
    function Extract(): T requires Ok? { value }
  }

  /** The default constructor's value. */
  function Zero(): IComplex { IComplex(0, 0) }

  /** The raw one, (1 << FRAC, 0). */
  function One(): IComplex { IComplex(ONE, 0) }

  /** The C++ conversion of a double to an integer type truncates toward zero.
      Doubles are modelled as exact reals. */
  function TruncReal(y: real): (r: int)
    ensures y >= 0.0 ==> r as real <= y < r as real + 1.0
    ensures y < 0.0 ==> r as real - 1.0 < y <= r as real
  {
    if y >= 0.0 then y.Floor else -((-y).Floor)
  }

  /** One component of the double constructor: x * (1<<FRAC) + 0.5, then truncated.
      Where x * 2^FRAC + 0.5 >= 0 this rounds half up; below that it lands between
      half a unit and one and a half units above the exact scaled value. */
  function ToRaw(x: real): (v: int)
    ensures x * 256.0 + 0.5 >= 0.0 ==> v as real - 0.5 <= x * 256.0 < v as real + 0.5
    ensures x * 256.0 + 0.5 < 0.0 ==> v as real - 1.5 < x * 256.0 <= v as real - 0.5
  {
    TruncReal(x * (ONE as real) + 0.5)
  }

  /** The constructor icomplex(double rv, double iv = 0.0). The conversion to int32_t is
      undefined outside its range, so the caller must stay inside it. */
  function FromDouble(rv: real, iv: real): (r: IComplex)
    requires InRange32(ToRaw(rv)) && InRange32(ToRaw(iv))
    ensures InRange32(r.re) && InRange32(r.im)
    ensures rv * 256.0 + 0.5 >= 0.0 ==> r.re as real - 0.5 <= rv * 256.0 < r.re as real + 0.5
    ensures rv * 256.0 + 0.5 < 0.0 ==> r.re as real - 1.5 < rv * 256.0 <= r.re as real - 0.5
    ensures iv * 256.0 + 0.5 >= 0.0 ==> r.im as real - 0.5 <= iv * 256.0 < r.im as real + 0.5
    ensures iv * 256.0 + 0.5 < 0.0 ==> r.im as real - 1.5 < iv * 256.0 <= r.im as real - 0.5
  {
    IComplex(ToRaw(rv), ToRaw(iv))
  }

  /** The three exact inputs the evaluators use: 1.0 is the raw one, 0.0 is zero, and
      -1.0 comes out one unit short of minus one, as -(1 << FRAC) + 1. */
  lemma FromDoubleUnits()
    ensures ToRaw(1.0) == ONE && ToRaw(0.0) == 0 && ToRaw(-1.0) == -ONE + 1
    ensures FromDouble(1.0, 0.0) == One() && FromDouble(0.0, 0.0) == Zero()
    ensures FromDouble(-1.0, 0.0) == IComplex(-ONE + 1, 0)
  {
    assert ToRaw(-1.0) == -255 by {
      assert -1.0 * 256.0 + 0.5 == -255.5;
    }
  }

  /** The free operator+: exact component-wise addition. */
  function Add(a: IComplex, b: IComplex): (r: IComplex)
    ensures r.re == a.re + b.re && r.im == a.im + b.im
  {
    IComplex(a.re + b.re, a.im + b.im)
  }

  /** `tmp /= 1<<FRAC` on int64_t: C++ division truncates toward zero. */
  function ScaleDown(n: int): (q: int)
    ensures n >= 0 ==> 0 <= q && q * ONE <= n < q * ONE + ONE
    ensures n < 0 ==> q <= 0 && q * ONE - ONE < n <= q * ONE
  {
    if n >= 0 then n / ONE else -((-n) / ONE)
  }

  /** The assertion log2(abs(tmp)) < 8*sizeof(TYPE): |tmp| < 2^32 (log2(0) is -inf). */
  predicate FitsType(t: int)
  {
    -0x1_0000_0000 < t < 0x1_0000_0000
  }

  /** The cast (TYPE)tmp to int32_t: reduction modulo 2^32 into the signed range. */
  function Narrow32(x: int): (r: int)
    ensures InRange32(r)
    ensures (x - r) % 0x1_0000_0000 == 0
    ensures InRange32(x) ==> r == x
  {
    (x - INT32_MIN) % 0x1_0000_0000 + INT32_MIN
  }

  /** All four int32 partial products of a * b are defined. */
  predicate ProductsDefined(a: IComplex, b: IComplex)
  {
    InRange32(a.re * b.re) && InRange32(a.im * b.im) &&
    InRange32(a.re * b.im) && InRange32(a.im * b.re)
  }

  /** The staged body of operator* over its four int32 partial products
      rr = ar*br, ii = ai*bi, ri = ar*bi, ir = ai*br, in the source's order: the real
      part's products, its truncating division and range assertion, then the imaginary
      part's, and the two casts back to int32. With FRAC = 8 the assertions and the casts
      never act once the products are defined. */
  function MulStaged(rr: int, ii: int, ri: int, ir: int): (r: Result<IComplex>)
    ensures r.Ok? <==> InRange32(rr) && InRange32(ii) && InRange32(ri) && InRange32(ir)
    ensures r.Err? ==> r.fault == ProductUndefined
    ensures r.Ok? ==> r.value == IComplex(ScaleDown(rr - ii), ScaleDown(ri + ir))
    ensures r.Ok? ==> -0x100_0000 <= r.value.re < 0x100_0000 && -0x100_0000 <= r.value.im < 0x100_0000
  {
    if !(InRange32(rr) && InRange32(ii)) then Err(ProductUndefined)
    else
      var rtmp := ScaleDown(rr - ii);
      assert -0x100_0000 <= rtmp < 0x100_0000;
      if !FitsType(rtmp) then Err(RangeAssert)
      else if !(InRange32(ri) && InRange32(ir)) then Err(ProductUndefined)
      else
        var itmp := ScaleDown(ri + ir);
        assert -0x100_0000 <= itmp < 0x100_0000;
        if !FitsType(itmp) then Err(RangeAssert)
        else Ok(IComplex(Narrow32(rtmp), Narrow32(itmp)))
  }

  /** The free operator*: the truncated scaled complex product, defined exactly when the
      four int32 partial products are. */
  function Mul(a: IComplex, b: IComplex): (r: Result<IComplex>)
    ensures r.Ok? <==> ProductsDefined(a, b)
    ensures r.Err? ==> r.fault == ProductUndefined
    ensures r.Ok? ==> r.value.re == ScaleDown(a.re * b.re - a.im * b.im)
    ensures r.Ok? ==> r.value.im == ScaleDown(a.re * b.im + a.im * b.re)
    ensures r.Ok? ==> -0x100_0000 <= r.value.re < 0x100_0000 && -0x100_0000 <= r.value.im < 0x100_0000
  {
    MulStaged(a.re * b.re, a.im * b.im, a.re * b.im, a.im * b.re)
  }

  /** Multiplication does not depend on the order of its operands. */
  lemma MulCommutes(a: IComplex, b: IComplex)
    ensures Mul(a, b) == Mul(b, a)
  {
    assert a.re * b.re == b.re * a.re && a.im * b.im == b.im * a.im;
    assert a.re * b.im == b.im * a.re && a.im * b.re == b.re * a.im;
  }

  /** The raw one is a unit on both sides; the product is defined exactly when 2^FRAC
      times each component of the other operand fits in int32. */
  lemma MulByOne(x: IComplex)
    ensures Mul(One(), x).Ok? <==> InRange32(ONE * x.re) && InRange32(ONE * x.im)
    ensures Mul(x, One()).Ok? <==> InRange32(ONE * x.re) && InRange32(ONE * x.im)
    ensures Mul(One(), x).Ok? ==> Mul(One(), x).value == x
    ensures Mul(x, One()).Ok? ==> Mul(x, One()).value == x
  {
    MulCommutes(One(), x);
    assert 0 * x.im == 0 && 0 * x.re == 0;
    if Mul(One(), x).Ok? {
      var p := Mul(One(), x).value;
      assert p.re == ScaleDown(ONE * x.re);
      assert p.im == ScaleDown(ONE * x.im);
    }
  }

  /** The sum of all samples, accumulated left to right. */
  function Sum(s: seq<IComplex>): IComplex
  {
    if s == [] then Zero() else Add(Sum(s[..|s| - 1]), s[|s| - 1])
  }

  /** An icomplex object held in a variable, which operator= and operator+= update in place. */
  class IComplexVar {
    var re: int
    var im: int

    /** icomplex(): both components zero. */
    constructor ()
      ensures Value() == Zero()
    {
      re, im := 0, 0;
    }

    /** icomplex(TYPE rv, TYPE iv): the raw integers are stored unchanged. */
    constructor FromRaw(rv: int, iv: int)
      requires InRange32(rv) && InRange32(iv)
      ensures Real() == rv && Imag() == iv
    {
      re, im := rv, iv;
    }

    /** The copy constructor. */
    constructor Copy(that: IComplexVar)
      ensures Value() == that.Value()
    {
      re, im := that.re, that.im;
    }

    /** real(): the raw real component. */
    function Real(): int
      reads this
    {
      re
    }

    /** imag(): the raw imaginary component. */
    function Imag(): int
      reads this
    {
      im
    }

    function Value(): IComplex
      reads this
    {
      IComplex(re, im)
    }

    /** operator=: takes the other value's two components. */
    method Assign(that: IComplex)
      modifies this
      ensures Value() == that
    {
      re := that.re;
      im := that.im;
    }

    /** operator+=: the receiver becomes the exact sum; only its two fields change. */
    method AddAssign(that: IComplex)
      modifies this
      ensures Value() == Add(old(Value()), that)
      ensures Real() == old(Real()) + that.re && Imag() == old(Imag()) + that.im
    {
      re := re + that.re;
      im := im + that.im;
    }
  }
}
