/** What the generator's output promises: recoverable and distinct node names, a tree with
    N/2 leaves and N/2-1 blends that uses every sample once, children emitted before the
    blend that reads them, a twiddle table for every blend, and the places where the
    emitted arithmetic departs from the fixed-point reference evaluator. */
module IdftGenProperties {
  import opened FixedComplex
  import opened Radix2
  import opened Decimal
  import opened Twiddles
  import opened IdftRecurse
  import opened IdftGen

  /** Two node names are equal exactly when size and first sample are. */
  lemma NodeNameInjective(n1: nat, f1: nat, n2: nat, f2: nat)
    ensures NodeName(n1, f1) == NodeName(n2, f2) <==> n1 == n2 && f1 == f2
  {
  }

  /** A blend's twiddle wire w_N<n>_s<first> is never a node wire, and two twiddle wires
      are equal exactly when they belong to the same node. */
  lemma WeightWireDistinct(n1: nat, f1: nat, n2: nat, f2: nat)
    ensures WeightName(n1, f1) != NodeName(n2, f2)
    ensures WeightName(n1, f1) == WeightName(n2, f2) <==> n1 == n2 && f1 == f2
  {
  }

  /** Two ready flags <name>_ready are equal exactly when they belong to the same node. */
  lemma ReadyFlagInjective(n1: nat, f1: nat, n2: nat, f2: nat)
    ensures ReadyFlag(NodeName(n1, f1)) == ReadyFlag(NodeName(n2, f2)) <==> n1 == n2 && f1 == f2
  {
    var x, y := NodeName(n1, f1), NodeName(n2, f2);
    if ReadyFlag(x) == ReadyFlag(y) {
      assert |x| == |y|;
      assert x == ReadyFlag(x)[..|x|] && y == ReadyFlag(y)[..|y|];
      NodeNameInjective(n1, f1, n2, f2);
    }
  }

  lemma {:induction false} Pow2Less(a: nat, b: nat)
    requires a < b
    ensures Pow2(a) < Pow2(b)
    decreases b
  {
    if a < b - 1 {
      Pow2Less(a, b - 1);
    }
  }

  /** For N = 2^k the tables are W<2^k>, W<2^(k-1)>, ..., W4: exactly k-1 of them, in
      descending size. */
  lemma {:induction false} TableSchedule(k: nat)
    requires k >= 1
    ensures |TableRecords(Pow2(k))| == k - 1
    ensures forall i :: 0 <= i < k - 1 ==> TableRecords(Pow2(k))[i].size == Pow2(k - i)
    decreases k
  {
    assert Pow2(1) == 2;
    if k >= 2 {
      var n := Pow2(k);
      Pow2Less(1, k);
      assert n / 2 == Pow2(k - 1);
      TableSchedule(k - 1);
      var rest := TableRecords(Pow2(k - 1));
      assert TableRecords(n) == [WTable(n, Entries(n))] + rest;
      forall i | 0 <= i < k - 1
        ensures TableRecords(n)[i].size == Pow2(k - i)
      {
        if i > 0 {
          assert TableRecords(n)[i] == rest[i - 1];
          assert k - 1 - (i - 1) == k - i;
        }
      }
    }
  }

  /** Every power-of-two size above 2 and up to N has its table among those declared. */
  lemma TableDeclared(n: nat, m: nat)
    requires IsPow2(n) && IsPow2(m) && 2 < m <= n
    ensures exists i :: 0 <= i < |TableRecords(n)| && TableRecords(n)[i].size == m
  {
    var k, j := Log2(n), Log2(m);
    IsPow2Exact(n);
    IsPow2Exact(m);
    if k < j {
      Pow2Less(k, j);
    }
    if j < 2 {
      assert false;
    }
    TableSchedule(k);
    assert TableRecords(n)[k - j].size == m;
  }

  /** Concatenation of what f yields for each record, in emission order. */
  function Collect<T>(recs: seq<Record>, f: Record -> seq<T>): seq<T>
  {
    if recs == [] then [] else Collect(recs[..|recs| - 1], f) + f(recs[|recs| - 1])
  }

  lemma {:induction false} CollectConcat<T>(a: seq<Record>, b: seq<Record>, f: Record -> seq<T>)
    ensures Collect(a + b, f) == Collect(a, f) + Collect(b, f)
    decreases |b|
  {
    if b == [] {
      assert a + b == a;
    } else {
      var c := b[..|b| - 1];
      assert (a + b)[..|a + b| - 1] == a + c;
      CollectConcat(a, c, f);
    }
  }

  lemma CollectOne<T>(r: Record, f: Record -> seq<T>)
    ensures Collect([r], f) == f(r)
  {
    assert [r][..0] == [];
  }

  function LeafOf(r: Record): seq<Record>
  {
    if r.Leaf? then [r] else []
  }

  function BlendOf(r: Record): seq<Record>
  {
    if r.Blend? then [r] else []
  }

  /** The two sample indices a leaf wires. */
  function SourcesOf(r: Record): seq<nat>
  {
    if r.Leaf? then [r.a, r.b] else []
  }

  /** The graph of a subtree of size n has n/2 leaves and n/2-1 blends, and its leaves
      together wire exactly the subtree's samples. */
  lemma {:induction false} NodeCounts(n: nat, src: seq<nat>)
    requires IsPow2(n) && n >= 2 && |src| == n
    ensures |Collect(GenRecords(n, src), LeafOf)| == n / 2
    ensures |Collect(GenRecords(n, src), BlendOf)| == n / 2 - 1
    ensures multiset(Collect<nat>(GenRecords(n, src), SourcesOf)) == multiset(src)
    decreases n
  {
    var recs := GenRecords(n, src);
    if n == 2 {
      CollectOne(recs[0], LeafOf);
      CollectOne(recs[0], BlendOf);
      CollectOne<nat>(recs[0], SourcesOf);
      assert src == [src[0], src[1]];
    } else {
      var recsE, recsO := GenRecords(n / 2, Evens(src)), GenRecords(n / 2, Odds(src));
      var blend := recs[|recs| - 1];
      assert recs == recsE + recsO + [blend];
      NodeCounts(n / 2, Evens(src));
      NodeCounts(n / 2, Odds(src));
      CollectConcat(recsE + recsO, [blend], LeafOf);
      CollectConcat(recsE, recsO, LeafOf);
      CollectOne(blend, LeafOf);
      CollectConcat(recsE + recsO, [blend], BlendOf);
      CollectConcat(recsE, recsO, BlendOf);
      CollectOne(blend, BlendOf);
      CollectConcat<nat>(recsE + recsO, [blend], SourcesOf);
      CollectConcat<nat>(recsE, recsO, SourcesOf);
      CollectOne<nat>(blend, SourcesOf);
      SplitPartitions(src);
    }
  }

  lemma {:induction false} IotaCounts(n: nat)
    ensures forall i: nat :: multiset(Iota(n))[i] == if i < n then 1 else 0
    decreases n
  {
    if n > 0 {
      IotaCounts(n - 1);
      assert Iota(n) == Iota(n - 1) + [n - 1];
      forall i: nat
        ensures multiset(Iota(n))[i] == if i < n then 1 else 0
      {
        assert multiset(Iota(n))[i] == multiset(Iota(n - 1))[i] + multiset([n - 1])[i];
        assert multiset([n - 1])[i] == if i == n - 1 then 1 else 0;
      }
    } else {
      assert Iota(n) == [];
    }
  }

  /** From the samples 0 .. N-1: N/2 leaves, N/2-1 blends, and every sample index below N
      wired by exactly one leaf, no other index by any. */
  lemma {:induction false} EverySampleInOneLeaf(n: nat)
    requires IsPow2(n) && n >= 2
    ensures |Collect(GenRecords(n, Iota(n)), LeafOf)| == n / 2
    ensures |Collect(GenRecords(n, Iota(n)), BlendOf)| == n / 2 - 1
    ensures forall i: nat :: multiset(Collect<nat>(GenRecords(n, Iota(n)), SourcesOf))[i] == if i < n then 1 else 0
  {
    NodeCounts(n, Iota(n));
    IotaCounts(n);
  }

  predicate Distinct(s: seq<nat>)
  {
    forall i, j :: 0 <= i < j < |s| ==> s[i] != s[j]
  }

  /** Both halves of distinct samples are distinct and have no sample in common. */
  lemma SplitDistinct(s: seq<nat>)
    requires Distinct(s) && |s| % 2 == 0
    ensures Distinct(Evens(s)) && Distinct(Odds(s))
    ensures forall x :: x in Evens(s) ==> x !in Odds(s)
  {
    forall x | x in Evens(s)
      ensures x !in Odds(s)
    {
      var a :| 0 <= a < |Evens(s)| && Evens(s)[a] == x;
      assert s[2 * a] == x;
    }
  }

  lemma SplitMembers(s: seq<nat>)
    ensures forall x :: x in Evens(s) ==> x in s
    ensures forall x :: x in Odds(s) ==> x in s
  {
    forall x | x in Evens(s)
      ensures x in s
    {
      var a :| 0 <= a < |Evens(s)| && Evens(s)[a] == x;
      assert s[2 * a] == x;
    }
    forall x | x in Odds(s)
      ensures x in s
    {
      var a :| 0 <= a < |Odds(s)| && Odds(s)[a] == x;
      assert s[2 * a + 1] == x;
    }
  }

  /** Every node of a subtree has a first sample among the subtree's, and every node but
      the root a smaller size than the subtree. */
  lemma {:induction false} NodesWithin(n: nat, src: seq<nat>)
    requires IsPow2(n) && n >= 2 && |src| == n
    ensures forall i :: 0 <= i < |GenRecords(n, src)| ==> GenRecords(n, src)[i].out.first in src
    ensures forall i :: 0 <= i < |GenRecords(n, src)| - 1 ==> GenRecords(n, src)[i].out.size < n
    decreases n
  {
    var recs := GenRecords(n, src);
    if n > 2 {
      var recsE, recsO := GenRecords(n / 2, Evens(src)), GenRecords(n / 2, Odds(src));
      assert recs == recsE + recsO + [BlendNode(n, src)];
      NodesWithin(n / 2, Evens(src));
      NodesWithin(n / 2, Odds(src));
      SplitMembers(src);
      forall i | 0 <= i < |recs| - 1
        ensures recs[i].out.first in src && recs[i].out.size < n
      {
        if i < |recsE| {
          assert recs[i] == recsE[i];
        } else {
          assert recs[i] == recsO[i - |recsE|];
        }
      }
    }
  }

  /** With distinct samples, as generate_module's 0 .. N-1 are, no two nodes are the same. */
  lemma {:induction false} NodesDistinct(n: nat, src: seq<nat>)
    requires IsPow2(n) && n >= 2 && |src| == n && Distinct(src)
    ensures forall i, j :: 0 <= i < j < |GenRecords(n, src)| ==> GenRecords(n, src)[i].out != GenRecords(n, src)[j].out
    decreases n
  {
    var recs := GenRecords(n, src);
    if n > 2 {
      var recsE, recsO := GenRecords(n / 2, Evens(src)), GenRecords(n / 2, Odds(src));
      assert recs == recsE + recsO + [BlendNode(n, src)];
      SplitDistinct(src);
      NodesDistinct(n / 2, Evens(src));
      NodesDistinct(n / 2, Odds(src));
      NodesWithin(n, src);
      NodesWithin(n / 2, Evens(src));
      NodesWithin(n / 2, Odds(src));
      forall i, j | 0 <= i < j < |recs|
        ensures recs[i].out != recs[j].out
      {
        if j == |recs| - 1 {
          assert recs[i].out.size < n;
        } else if j < |recsE| {
          assert recs[i] == recsE[i] && recs[j] == recsE[j];
        } else if i >= |recsE| {
          assert recs[i] == recsO[i - |recsE|] && recs[j] == recsO[j - |recsE|];
        } else {
          assert recs[i] == recsE[i] && recs[j] == recsO[j - |recsE|];
          assert recs[i].out.first in Evens(src);
          assert recs[j].out.first in Odds(src);
        }
      }
    }
  }

  /** All node wires of the generated module have distinct names. */
  lemma ModuleNodeNamesDistinct(n: nat)
    requires IsPow2(n) && n >= 2
    ensures forall i, j :: 0 <= i < j < |GenRecords(n, Iota(n))| ==>
      NodeName(GenRecords(n, Iota(n))[i].out.size, GenRecords(n, Iota(n))[i].out.first) !=
      NodeName(GenRecords(n, Iota(n))[j].out.size, GenRecords(n, Iota(n))[j].out.first)
  {
    var recs := GenRecords(n, Iota(n));
    assert Distinct(Iota(n));
    NodesDistinct(n, Iota(n));
    forall i, j | 0 <= i < j < |recs|
      ensures NodeName(recs[i].out.size, recs[i].out.first) != NodeName(recs[j].out.size, recs[j].out.first)
    {
      NodeNameInjective(recs[i].out.size, recs[i].out.first, recs[j].out.size, recs[j].out.first);
    }
  }

  /** A blend at position i reads its even child, declared earlier, and then its odd child,
      declared after the even one, and waits on the AND of their two ready flags. */
  predicate ChildrenBefore(recs: seq<Record>, i: int)
    requires AllNodes(recs) && 0 <= i < |recs| && recs[i].Blend?
  {
    && (exists je, jo :: 0 <= je < jo < i && recs[je].out == recs[i].even && recs[jo].out == recs[i].odd)
    && recs[i].inReady == [recs[i].even, recs[i].odd]
  }

  lemma ChildrenBeforePrefix(a: seq<Record>, b: seq<Record>, i: int)
    requires AllNodes(a) && AllNodes(a + b) && 0 <= i < |a| && a[i].Blend? && ChildrenBefore(a, i)
    ensures (a + b)[i] == a[i] && ChildrenBefore(a + b, i)
  {
    var je, jo :| 0 <= je < jo < i && a[je].out == a[i].even && a[jo].out == a[i].odd;
    assert (a + b)[je] == a[je] && (a + b)[jo] == a[jo] && (a + b)[i] == a[i];
  }

  lemma ChildrenBeforeShift(a: seq<Record>, b: seq<Record>, i: int)
    requires AllNodes(b) && AllNodes(a + b) && 0 <= i < |b| && b[i].Blend? && ChildrenBefore(b, i)
    ensures (a + b)[|a| + i] == b[i] && ChildrenBefore(a + b, |a| + i)
  {
    var je, jo :| 0 <= je < jo < i && b[je].out == b[i].even && b[jo].out == b[i].odd;
    assert (a + b)[|a| + je] == b[je] && (a + b)[|a| + jo] == b[jo] && (a + b)[|a| + i] == b[i];
  }

  /** Both parts of a graph are graphs. */
  lemma NodesSplit(a: seq<Record>, b: seq<Record>)
    requires AllNodes(a + b)
    ensures AllNodes(a) && AllNodes(b)
  {
    forall i | 0 <= i < |a|
      ensures a[i].Leaf? || a[i].Blend?
    {
      assert (a + b)[i] == a[i];
    }
    forall i | 0 <= i < |b|
      ensures b[i].Leaf? || b[i].Blend?
    {
      assert (a + b)[|a| + i] == b[i];
    }
  }

  /** The root blend reads the roots of the even and the odd subtree, in that order. */
  lemma RootWired(n: nat, src: seq<nat>)
    requires IsPow2(n) && n > 2 && |src| == n
    ensures GenRecords(n, src)[|GenRecords(n, src)| - 1].Blend?
    ensures ChildrenBefore(GenRecords(n, src), |GenRecords(n, src)| - 1)
  {
    var recs := GenRecords(n, src);
    var recsE, recsO := GenRecords(n / 2, Evens(src)), GenRecords(n / 2, Odds(src));
    var blend := recs[|recs| - 1];
    assert recs == recsE + recsO + [blend];
    var je, jo := |recsE| - 1, |recsE| + |recsO| - 1;
    assert recs[je] == recsE[|recsE| - 1] && recs[jo] == recsO[|recsO| - 1];
    assert Evens(src)[0] == src[0] && Odds(src)[0] == src[1];
  }

  /** Every blend's children are emitted before it, the even subtree before the odd one,
      and its in_ready is the AND of exactly their ready flags. */
  lemma {:induction false} WiredInOrder(n: nat, src: seq<nat>)
    requires IsPow2(n) && n >= 2 && |src| == n
    ensures forall i :: 0 <= i < |GenRecords(n, src)| && GenRecords(n, src)[i].Blend? ==>
      ChildrenBefore(GenRecords(n, src), i)
    decreases n
  {
    var recs := GenRecords(n, src);
    if n > 2 {
      var recsE, recsO := GenRecords(n / 2, Evens(src)), GenRecords(n / 2, Odds(src));
      var blend := recs[|recs| - 1];
      assert recs == (recsE + recsO) + [blend];
      assert recs == recsE + (recsO + [blend]);
      NodesSplit(recsE + recsO, [blend]);
      NodesSplit(recsE, recsO + [blend]);
      RootWired(n, src);
      WiredInOrder(n / 2, Evens(src));
      WiredInOrder(n / 2, Odds(src));
      forall i | 0 <= i < |recs| - 1 && recs[i].Blend?
        ensures ChildrenBefore(recs, i)
      {
        if i < |recsE| {
          ChildrenBeforePrefix(recsE, recsO + [blend], i);
        } else {
          ChildrenBeforeShift(recsE, recsO, i - |recsE|);
          ChildrenBeforePrefix(recsE + recsO, [blend], i);
        }
      }
    }
  }

  /** A node's table, if it is a blend: a power of two above 2 and at most n, and the
      blend's own size, the one in its name. */
  predicate TableFits(r: Record, n: nat)
    requires r.Leaf? || r.Blend?
  {
    r.Blend? ==> IsPow2(r.table) && 2 < r.table <= n && r.out.size == r.table
  }

  /** Every blend of a subtree of size n has a fitting table. */
  lemma {:induction false} BlendTables(n: nat, src: seq<nat>)
    requires IsPow2(n) && n >= 2 && |src| == n
    ensures forall i :: 0 <= i < |GenRecords(n, src)| ==> TableFits(GenRecords(n, src)[i], n)
    decreases n
  {
    var recs := GenRecords(n, src);
    if n > 2 {
      var recsE, recsO := GenRecords(n / 2, Evens(src)), GenRecords(n / 2, Odds(src));
      var blend := recs[|recs| - 1];
      assert recs == recsE + recsO + [blend];
      BlendTables(n / 2, Evens(src));
      BlendTables(n / 2, Odds(src));
      forall i | 0 <= i < |recs|
        ensures TableFits(recs[i], n)
      {
        if i < |recsE| {
          assert recs[i] == recsE[i] && TableFits(recsE[i], n / 2);
        } else if i < |recsE| + |recsO| {
          assert recs[i] == recsO[i - |recsE|] && TableFits(recsO[i - |recsE|], n / 2);
        } else {
          assert recs[i] == blend;
        }
      }
    }
  }

  /** Every blend of the generated module finds its table W<size> declared in the preamble. */
  lemma EveryBlendHasTable(n: nat)
    requires IsPow2(n) && n >= 2
    ensures forall i :: 0 <= i < |GenRecords(n, Iota(n))| && GenRecords(n, Iota(n))[i].Blend? ==>
      exists j :: 0 <= j < |TableRecords(n)| && TableRecords(n)[j].size == GenRecords(n, Iota(n))[i].table
  {
    var recs := GenRecords(n, Iota(n));
    BlendTables(n, Iota(n));
    forall i | 0 <= i < |recs| && recs[i].Blend?
      ensures exists j :: 0 <= j < |TableRecords(n)| && TableRecords(n)[j].size == recs[i].table
    {
      assert TableFits(recs[i], n);
      TableDeclared(n, recs[i].table);
    }
  }

  /** A subtree of size at least 4 contains a blend of size 4. */
  lemma {:induction false} HasBlendOfSizeFour(n: nat, src: seq<nat>)
    requires IsPow2(n) && n >= 4 && |src| == n
    ensures exists i :: 0 <= i < |GenRecords(n, src)| && GenRecords(n, src)[i].Blend? && GenRecords(n, src)[i].table == 4
    decreases n
  {
    var recs := GenRecords(n, src);
    if n == 4 {
      assert recs[|recs| - 1].Blend?;
    } else {
      assert n / 2 != 3;
      var recsE := GenRecords(n / 2, Evens(src));
      HasBlendOfSizeFour(n / 2, Evens(src));
      var i :| 0 <= i < |recsE| && recsE[i].Blend? && recsE[i].table == 4;
      assert recs[i] == recsE[i];
    }
  }

  /** The blend's lookup is in the table exactly when dft_idx is below the table size, and
      then it is the entry the reference evaluator uses, index dft_idx mod size. */
  lemma WeightLookupInRange(table: nat, dftIdx: nat)
    requires table >= 2
    ensures WeightLookup(table, dftIdx).Found? <==> dftIdx < table
    ensures WeightLookup(table, dftIdx).Found? ==>
      WeightLookup(table, dftIdx).value == Entries(table)[dftIdx % table].value
  {
    if dftIdx < table {
      ModUnique(dftIdx, 0, table, dftIdx);
    }
  }

  /** The root blend, of size N, is looked up in range for every value of the clog2(N)-bit
      dft_idx port. */
  lemma RootLookupInRange(n: nat)
    requires IsPow2(n) && n >= 2
    ensures forall dftIdx :: 0 <= dftIdx < Pow2(Log2(n)) ==> WeightLookup(n, dftIdx).Found?
  {
    IsPow2Exact(n);
  }

  /** From N = 8 on, the generated graph has a blend of size 4 that indexes W4 with the whole
      dft_idx, and dft_idx = 4 is a legal port value: that lookup falls past W4, where the
      reference evaluator reduces 4 mod 4 and uses entry 0. */
  lemma UnreducedLookupExceedsTable(n: nat)
    requires IsPow2(n) && n >= 8
    ensures exists i :: (0 <= i < |GenRecords(n, Iota(n))| && GenRecords(n, Iota(n))[i].Blend? &&
      GenRecords(n, Iota(n))[i].table == 4)
    ensures 4 < Pow2(Log2(n))
    ensures WeightLookup(4, 4) == Undefined && Entries(4)[4 % 4].value == ShiftedOne
  {
    HasBlendOfSizeFour(n, Iota(n));
    IsPow2Exact(n);
  }

  /** For even dft_idx the leaf computes what the reference length-2 case does, src[0] +
      src[1], wherever the reference product is defined. */
  lemma EvenLeafMatchesReference(a: IComplex, b: IComplex, idx: nat, tw: Twiddle)
    requires idx % 2 == 0 && InRange32(ONE * b.re) && InRange32(ONE * b.im)
    ensures Recurse2(idx, [a, b], tw) == Ok(LeafValue(a, b, idx))
  {
    BaseCaseEven(idx, a, b, tw);
  }

  /** For odd dft_idx the leaf's real part is the exact a - b and its imaginary part a + b;
      the reference multiplies by (-(1 << FRAC) + 1, 0). They agree exactly when src[1]
      is zero. */
  lemma OddLeafDiverges(a: IComplex, b: IComplex, idx: nat, tw: Twiddle)
    requires idx % 2 == 1 && Recurse2(idx, [a, b], tw).Ok?
    ensures LeafValue(a, b, idx) == IComplex(a.re - b.re, a.im + b.im)
    ensures LeafValue(a, b, idx) == Recurse2(idx, [a, b], tw).value <==> b == Zero()
  {
    BaseCaseOdd(idx, a, b, tw);
    var r := Recurse2(idx, [a, b], tw).value;
    var di := r.im - (a.im - b.im);
    if b.im > 0 && di == 2 * b.im {
      assert false;
    }
    if b.im < 0 && di == 2 * b.im {
      assert false;
    }
  }

  /** Shifting two products separately and truncating their combination: the difference
      lies within one unit either way, and the sum of two floored shifts lies zero to two
      units below the truncated sum. */
  lemma ShiftPairBounds(p: int, q: int)
    ensures -1 <= ShiftFrac(p) - ShiftFrac(q) - ScaleDown(p - q) <= 1
    ensures -2 <= ShiftFrac(p) + ShiftFrac(q) - ScaleDown(p + q) <= 0
  {
  }

  /** blend_math's output against the reference combine e + w * o, wherever the reference
      product is defined: the real part is within one unit, the imaginary part zero to two
      units below. */
  lemma BlendNearReference(a: IComplex, w: IComplex, b: IComplex)
    requires Mul(w, b).Ok?
    ensures -1 <= BlendValue(a, w, b).re - Add(a, Mul(w, b).value).re <= 1
    ensures -2 <= BlendValue(a, w, b).im - Add(a, Mul(w, b).value).im <= 0
  {
    ShiftPairBounds(w.re * b.re, w.im * b.im);
    ShiftPairBounds(w.re * b.im, w.im * b.re);
  }

  /** The imaginary bound is reached: with w = (1, 1) and o = (-1, -1) the reference
      product is zero, while blend_math shifts each -1 down to -1 and adds them. */
  lemma BlendDiverges()
    ensures Mul(IComplex(1, 1), IComplex(-1, -1)) == Ok(Zero())
    ensures BlendValue(Zero(), IComplex(1, 1), IComplex(-1, -1)) == IComplex(0, -2)
  {
    assert ScaleDown(-2) == 0;
    assert ShiftFrac(-1) == -1;
  }

  /** The corrected leaf is the exact two-point transform: src[a] plus src[b] times the
      exact constant (+(1 << FRAC) or -(1 << FRAC), 0), wherever that product is defined. */
  lemma IntendedLeafIsTwoPoint(a: IComplex, b: IComplex, dftIdx: nat)
    ensures var w := if dftIdx % 2 == 0 then One() else IComplex(-ONE, 0);
      Mul(w, b).Ok? ==> Add(a, Mul(w, b).value) == IntendedLeafValue(a, b, dftIdx)
  {
    MulByOne(b);
    assert 0 * b.im == 0 && 0 * b.re == 0;
  }

  /** The corrected leaf agrees with the emitted one for even dft_idx and in the real part
      for odd dft_idx; only the imaginary part for odd dft_idx differs, unless src[b] has a
      zero imaginary part. */
  lemma IntendedLeafAgainstEmitted(a: IComplex, b: IComplex, dftIdx: nat)
    ensures dftIdx % 2 == 0 ==> IntendedLeafValue(a, b, dftIdx) == LeafValue(a, b, dftIdx)
    ensures IntendedLeafValue(a, b, dftIdx).re == LeafValue(a, b, dftIdx).re
    ensures IntendedLeafValue(a, b, dftIdx).im == LeafValue(a, b, dftIdx).im <==> dftIdx % 2 == 0 || b.im == 0
  {
  }

  /** The corrected lookup is in range for every dft_idx, uses the reference's entry
      idx mod size, and agrees with the emitted lookup wherever that one is in range. */
  lemma IntendedLookupAgrees(table: nat, dftIdx: nat)
    requires table >= 2
    ensures IntendedWeightLookup(table, dftIdx).Found?
    ensures WeightLookup(table, dftIdx).Found? ==> WeightLookup(table, dftIdx) == IntendedWeightLookup(table, dftIdx)
    ensures IntendedWeightLookup(4, 4) == Found(ShiftedOne)
  {
  }
}
