/** The twiddle constants of both fixed-point evaluators. The source computes W_n^k =
    exp(2*pi*i*k/n) with double exp and pow and converts it with the double constructor;
    here that computation is a given table. */
module Twiddles {
  import opened FixedComplex

  /** tw(n, k) is the fixed-point value the source obtains for W_n^k. */
  type Twiddle = (nat, nat) -> IComplex

  /** The hypothesis that W_n^0 converts to exactly the raw one (1 << FRAC, 0). */
  ghost predicate UnitAtZero(tw: Twiddle)
  {
    forall n: nat :: tw(n, 0) == One()
  }
}
