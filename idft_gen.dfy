/** The structural part of the pipeline generator idft_gen.cc. The generator writes a
    Verilog module that computes one output bin of the N-point inverse DFT: twiddle tables,
    then a tree of size-2 leaves and blend stages named after their size and first sample.
    The emitted text is modelled as a sequence of records in emission order; the names are
    modelled exactly, the formatting around them is not. */
module IdftGen {
  import opened FixedComplex
  import opened Radix2
  import opened Decimal

  /** A constant written into a twiddle table: the literal 1 << FRAC, or the %f rendering of
      pow(W_size, k) scaled by 1 << FRAC, whose value is not part of this model. */
  datatype Constant = ShiftedOne | RootPower(size: nat, k: nat)

  /** One element assignment W<size>[index] = value of a table's initial block. */
  datatype Entry = Entry(index: nat, value: Constant)

  /** A node of the graph, identified by the size of its subtree and the index of that
      subtree's first sample. Its wires are printed as NodeName(size, first) and, for a
      blend's twiddle, WeightName(size, first); its ready flag is ReadyFlag of its name. */
  datatype NodeId = NodeId(size: nat, first: nat)

  /** One piece of emitted text. */
  datatype Record =
    | BlendMathModule                                         // the fixed blend_math module
    | ModuleHeader(name: string, idxWidth: nat, samples: nat)  // idft_comp_N<N> and its ports
    | ComplexType                                             // the complex_t typedef
    | WTable(size: nat, entries: seq<Entry>)                   // reg complex_t [size-1:0] W<size>
    | Leaf(out: NodeId, a: nat, b: nat)                        // size-2 node over src[a], src[b]
    | Blend(out: NodeId, table: nat, weight: NodeId, even: NodeId, odd: NodeId, inReady: seq<NodeId>)
    | OutputStage(root: NodeId)                               // the registers fed by the root

  /** An output stream (a FILE*): everything written to it, in order. */
  class Stream {
    var records: seq<Record>

    constructor ()
      ensures records == []
    {
      records := [];
    }

    /** One fprintf (or one group of them forming a declaration). */
    method Write(r: Record)
      modifies this
      ensures records == old(records) + [r]
    {
      records := records + [r];
    }
  }

  /** Every record of a graph is a node (a leaf or a blend), so each has an output name. */
  predicate AllNodes(recs: seq<Record>)
  {
    forall i :: 0 <= i < |recs| ==> recs[i].Leaf? || recs[i].Blend?
  }

  /** Two graphs followed by one more node form a graph ending in that node. */
  lemma NodesConcat(a: seq<Record>, b: seq<Record>, r: Record)
    requires AllNodes(a) && AllNodes(b) && (r.Leaf? || r.Blend?)
    ensures AllNodes(a + b + [r]) && (a + b + [r])[|a| + |b|] == r
  {
    forall i | 0 <= i < |a + b + [r]|
      ensures (a + b + [r])[i].Leaf? || (a + b + [r])[i].Blend?
    {
      if i < |a| {
        assert (a + b + [r])[i] == a[i];
      } else if i < |a| + |b| {
        assert (a + b + [r])[i] == b[i - |a|];
      }
    }
  }

  /** p_N<n>_s<first>: the wire of the node of size n whose first sample is src[first].
      Size and first sample read back out of it. */
  function NodeName(n: nat, first: nat): (s: string)
    ensures |s| > 3 && s[0] == 'p' && ParseNodeName(s) == (n, first)
  {
    NameParses("p_N", n, first);
    "p_N" + NatToString(n) + "_s" + NatToString(first)
  }

  /** w_N<n>_s<first>: the twiddle wire of a blend. Size and first sample read back out of
      it as out of a node name. */
  function WeightName(n: nat, first: nat): (s: string)
    ensures |s| > 3 && s[0] == 'w' && ParseNodeName(s) == (n, first)
  {
    NameParses("w_N", n, first);
    "w_N" + NatToString(n) + "_s" + NatToString(first)
  }

  /** After a three-letter prefix, <n>_s<first> reads back as (n, first). */
  lemma NameParses(prefix: string, n: nat, first: nat)
    requires |prefix| == 3
    ensures ParseNodeName(prefix + NatToString(n) + "_s" + NatToString(first)) == (n, first)
  {
    var dn, df := NatToString(n), NatToString(first);
    var s := prefix + dn + "_s" + df;
    assert s[3..] == dn + "_" + ("s" + df);
    FirstUnderscoreAfterDigits(dn, "s" + df);
    assert s[3..][..|dn|] == dn;
    assert s[3..][|dn| + 2..] == df;
    ParseNatToString(n);
    ParseNatToString(first);
  }

  /** <name>_ready: the ready flag of a node. */
  function ReadyFlag(name: string): string
  {
    name + "_ready"
  }

  /** The generated module is always idft_comp_N<N>: the fixed prefix, then N in decimal. */
  function ModuleName(n: nat): (s: string)
    ensures |s| > 11 && s[..11] == "idft_comp_N"
    ensures AllDigits(s[11..]) && ParseDecimal(s[11..]) == n
  {
    var s := "idft_comp_N" + NatToString(n);
    assert s[11..] == NatToString(n);
    ParseNatToString(n);
    s
  }

  /** Reads size and first sample back out of a node name; (0, 0) for anything else. */
  function ParseNodeName(s: string): (nat, nat)
  {
    if |s| < 3 then (0, 0)
    else
      var rest := s[3..];
      var k := FirstUnderscore(rest);
      var head := rest[..k];
      var tail := if k + 2 <= |rest| then rest[k + 2..] else [];
      if AllDigits(head) && AllDigits(tail) then (ParseDecimal(head), ParseDecimal(tail)) else (0, 0)
  }

  /** The entries of a table of size m: index k for k = 0 .. m-1, entry 0 the literal one. */
  function Entries(m: nat): (e: seq<Entry>)
    requires m >= 2
    ensures |e| == m && e[0] == Entry(0, ShiftedOne)
    ensures forall k :: 0 <= k < m ==> e[k].index == k
    ensures forall k :: 1 <= k < m ==> e[k].value == RootPower(m, k)
  {
    seq(m, k requires 0 <= k < m => Entry(k, if k == 0 then ShiftedOne else RootPower(m, k)))
  }

  /** The tables generate_W_tables declares after the typedef: one per size n, n/2, ...
      while the size is above 2. */
  function TableRecords(n: nat): (tables: seq<Record>)
    ensures forall i :: 0 <= i < |tables| ==>
      tables[i].WTable? && tables[i].size > 2 && tables[i].entries == Entries(tables[i].size)
    decreases n
  {
    if n > 2 then [WTable(n, Entries(n))] + TableRecords(n / 2) else []
  }

  /** The node records idft_math_recursive_gen emits for the samples src of a subtree of
      size n: the even subtree, the odd subtree, then the blend of the two; a leaf at size 2.
      The last record is the subtree's root, named after n and src[0]. */
  function GenRecords(n: nat, src: seq<nat>): (recs: seq<Record>)
    requires IsPow2(n) && n >= 2 && |src| == n
    ensures AllNodes(recs) && |recs| == n - 1
    ensures recs[|recs| - 1].out == NodeId(n, src[0])
    decreases n
  {
    if n == 2 then [Leaf(NodeId(2, src[0]), src[0], src[1])]
    else
      assert IsPow2(n / 2) && n / 2 >= 2;
      assert |Evens(src)| == n / 2 && |Odds(src)| == n / 2;
      var recsE := GenRecords(n / 2, Evens(src));
      var recsO := GenRecords(n / 2, Odds(src));
      NodesConcat(recsE, recsO, BlendNode(n, src));
      recsE + recsO + [BlendNode(n, src)]
  }

  /** The blend of a subtree of size n over src: it reads the roots of the even and the odd
      subtree, whose first samples are src[0] and src[1], and the table W<n>. */
  function BlendNode(n: nat, src: seq<nat>): (r: Record)
    requires |src| >= 2
    ensures r.Blend? && r.table == n && r.out == NodeId(n, src[0]) && r.weight == r.out
    ensures r.even == NodeId(n / 2, Evens(src)[0]) && r.odd == NodeId(n / 2, Odds(src)[0])
    ensures r.inReady == [r.even, r.odd]
  {
    var e := NodeId(n / 2, src[0]);
    var o := NodeId(n / 2, src[1]);
    Blend(NodeId(n, src[0]), n, NodeId(n, src[0]), e, o, [e, o])
  }

  /** The sample indices 0 .. n-1 that generate_module starts the recursion with. */
  function Iota(n: nat): (s: seq<nat>)
    ensures |s| == n && forall i :: 0 <= i < n ==> s[i] == i
  {
    seq(n, i requires 0 <= i < n => i)
  }

  /** What generate_module writes to fd before the graph: blend_math, the module header
      with a dft_idx port of clog2(N) bits and N samples, the typedef and the tables. */
  function Preamble(n: nat): (p: seq<Record>)
    requires n >= 2
    ensures |p| == 3 + |TableRecords(n)| && p[0] == BlendMathModule && p[2] == ComplexType
    ensures p[1].ModuleHeader? && p[1].name == ModuleName(n) && p[1].samples == n
    ensures Pow2(p[1].idxWidth) <= n < Pow2(p[1].idxWidth + 1)
    ensures forall i :: 0 <= i < |p| ==> !p[i].Leaf? && !p[i].Blend?
  {
    Log2Bounds(n);
    [BlendMathModule, ModuleHeader(ModuleName(n), Log2(n), n), ComplexType] + TableRecords(n)
  }

  /** The whole output when fd is stdout, as it is when the generator runs. */
  function ModuleRecords(n: nat): (m: seq<Record>)
    requires IsPow2(n) && n >= 2
    ensures |m| == |Preamble(n)| + n && m[..|Preamble(n)|] == Preamble(n)
    ensures AllNodes(m[|Preamble(n)|..|m| - 1])
    ensures m[|m| - 2].Leaf? || m[|m| - 2].Blend?
    ensures m[|m| - 1] == OutputStage(m[|m| - 2].out) && m[|m| - 1].root == NodeId(n, 0)
  {
    var pre, graph := Preamble(n), GenRecords(n, Iota(n));
    assert (pre + graph + [OutputStage(NodeId(n, 0))])[|pre|..|pre| + |graph|] == graph;
    assert (pre + graph + [OutputStage(NodeId(n, 0))])[|pre| + |graph| - 1] == graph[|graph| - 1];
    Preamble(n) + GenRecords(n, Iota(n)) + [OutputStage(NodeId(n, 0))]
  }

  /** clog2: the number of halvings that bring n0 down to 1, i.e. floor(log2 n0), and 0
      for n0 <= 1. */
  method Clog2(n0: nat) returns (result: nat)
    ensures result == Log2(n0)
    ensures n0 >= 1 ==> Pow2(result) <= n0 < Pow2(result + 1)
  {
    var n := n0;
    result := 0;
    while n > 1
      invariant result + Log2(n) == Log2(n0)
      decreases n
    {
      n := n / 2;
      result := result + 1;
    }
    if n0 >= 1 {
      Log2Bounds(n0);
    }
  }

  /** The initial block of one table W<m>: entry 0 the literal one, entry 1 the root W_m,
      then pow(W_m, idx) for idx = 2 .. m-1. */
  method TableEntries(m: nat) returns (entries: seq<Entry>)
    requires m >= 2
    ensures entries == Entries(m)
  {
    entries := [Entry(0, ShiftedOne), Entry(1, RootPower(m, 1))];
    assert entries == Entries(m)[..2];
    var idx := 2;
    while idx < m
      invariant 2 <= idx <= m
      invariant entries == Entries(m)[..idx]
    {
      entries := entries + [Entry(idx, RootPower(m, idx))];
      idx := idx + 1;
    }
  }

  /** generate_W_tables: the typedef, then a table per size while the size is above 2, each
      with its entries in increasing index order. */
  method GenerateWTables(fd: Stream, n: nat)
    requires n >= 2
    modifies fd
    ensures fd.records == old(fd.records) + [ComplexType] + TableRecords(n)
  {
    fd.Write(ComplexType);
    var useN := n;
    while useN > 2
      invariant fd.records + TableRecords(useN) == old(fd.records) + [ComplexType] + TableRecords(n)
      decreases useN
    {
      var entries := TableEntries(useN);
      fd.Write(WTable(useN, entries));
      useN := useN / 2;
    }
  }

  /** idft_math_recursive_gen: emits the subtree for src and returns its root, whose wire
      is printed as NodeName(root.size, root.first). */
  method IdftMathRecursiveGen(fd: Stream, n: nat, src: seq<nat>) returns (root: NodeId)
    requires IsPow2(n) && n >= 2 && |src| == n
    modifies fd
    ensures root == NodeId(n, src[0])
    ensures fd.records == old(fd.records) + GenRecords(n, src)
    decreases n
  {
    var out := NodeId(n, src[0]);
    if |src| == 2 {
      fd.Write(Leaf(out, src[0], src[1]));
      return out;
    }
    ghost var before := fd.records;
    var srcE, srcO := SplitEvenOdd(src);
    assert IsPow2(n / 2) && |srcE| == n / 2 && |srcO| == n / 2;
    var e := IdftMathRecursiveGen(fd, n / 2, srcE);
    var o := IdftMathRecursiveGen(fd, n / 2, srcO);
    var weight := NodeId(n, src[0]);
    var blend := Blend(out, n, weight, e, o, [e, o]);
    assert blend == BlendNode(n, src);
    fd.Write(blend);
    assert fd.records == before + (GenRecords(n / 2, srcE) + GenRecords(n / 2, srcO) + [blend]);
    return out;
  }

  /** The vector of sample indices generate_module fills before the recursion: 0 .. n-1. */
  method SampleIndices(n: nat) returns (src: seq<nat>)
    ensures |src| == n && forall i :: 0 <= i < n ==> src[i] == i
  {
    var a := new nat[n];
    var idx := 0;
    while idx < n
      invariant 0 <= idx <= n
      invariant forall i :: 0 <= i < idx ==> a[i] == i
    {
      a[idx] := idx;
      idx := idx + 1;
    }
    src := a[..];
  }

  /** The part of generate_module before the graph: blend_math, the module header with a
      clog2(N)-bit dft_idx port and N samples, then generate_W_tables. */
  method WritePreamble(fd: Stream, n: nat)
    requires n >= 2
    modifies fd
    ensures fd.records == old(fd.records) + Preamble(n)
  {
    var nlog2 := Clog2(n);
    fd.Write(BlendMathModule);
    fd.Write(ModuleHeader(ModuleName(n), nlog2, n));
    GenerateWTables(fd, n);
  }

  /** generate_module. The graph goes to stdout while everything else goes to fd; the two
      are the same stream when the generator runs. */
  method GenerateModule(fd: Stream, stdout: Stream, n: nat)
    requires IsPow2(n) && n >= 2
    modifies fd, stdout
    ensures fd == stdout ==> fd.records == old(fd.records) + ModuleRecords(n)
    ensures fd != stdout ==> fd.records == old(fd.records) + Preamble(n) + [OutputStage(NodeId(n, 0))]
    ensures fd != stdout ==> stdout.records == old(stdout.records) + GenRecords(n, Iota(n))
  {
    WritePreamble(fd, n);
    ghost var afterPreamble := fd.records;
    var src := SampleIndices(n);
    assert src == Iota(n);
    var res := IdftMathRecursiveGen(stdout, n, src);
    assert fd == stdout ==> fd.records == afterPreamble + GenRecords(n, Iota(n));
    fd.Write(OutputStage(res));
  }

  /** The value a leaf assigns for dft_idx: the real part adds or subtracts b by bit 0 of
      dft_idx, the imaginary part always adds. */
  function LeafValue(a: IComplex, b: IComplex, dftIdx: nat): (r: IComplex)
    ensures dftIdx % 2 == 0 ==> r == Add(a, b)
    ensures dftIdx % 2 == 1 ==> r.re == a.re - b.re
    ensures r.im == a.im + b.im
  {
    IComplex(a.re + (if dftIdx % 2 == 1 then -b.re else b.re), a.im + b.im)
  }

  /** A product shifted right by FRAC with >>>: floor division by 2^FRAC. */
  function ShiftFrac(p: int): (q: int)
    ensures q * ONE <= p < q * ONE + ONE
  {
    p / ONE
  }

  /** blend_math's output: each of the four partial products is shifted before the sum. */
  function BlendValue(a: IComplex, w: IComplex, b: IComplex): (r: IComplex)
    ensures (r.re - a.re) * ONE - ONE < w.re * b.re - w.im * b.im < (r.re - a.re) * ONE + ONE
    ensures (r.im - a.im) * ONE <= w.re * b.im + w.im * b.re < (r.im - a.im) * ONE + 2 * ONE
  {
    IComplex(a.re + ShiftFrac(w.re * b.re) - ShiftFrac(w.im * b.im),
             a.im + ShiftFrac(w.re * b.im) + ShiftFrac(w.im * b.re))
  }

  /** The value a read of W<table>[dftIdx] yields: an entry, or an undefined value when
      the index is past the table. */
  datatype Lookup = Found(value: Constant) | Undefined

  /** A blend's lookup W<table>[dft_idx], with dft_idx not reduced modulo the table size. */
  function WeightLookup(table: nat, dftIdx: nat): (r: Lookup)
    requires table >= 2
    ensures r.Found? <==> dftIdx < table
    ensures r.Found? ==> r.value == if dftIdx == 0 then ShiftedOne else RootPower(table, dftIdx)
  {
    if dftIdx < table then Found(Entries(table)[dftIdx].value) else Undefined
  }

  /** The leaf as its own emitted comment describes it, src[a] + W2[dft_idx] * src[b] with
      W2 = +1 or -1: both components add or subtract by bit 0 of dft_idx. */
  function IntendedLeafValue(a: IComplex, b: IComplex, dftIdx: nat): (r: IComplex)
    ensures dftIdx % 2 == 0 ==> r == Add(a, b)
    ensures dftIdx % 2 == 1 ==> Add(r, b) == a
    ensures r.re == LeafValue(a, b, dftIdx).re
  {
    if dftIdx % 2 == 1 then IComplex(a.re - b.re, a.im - b.im) else Add(a, b)
  }

  /** The lookup with dft_idx reduced modulo the table size, as the reference's idx % N. */
  function IntendedWeightLookup(table: nat, dftIdx: nat): (r: Lookup)
    requires table >= 2
    ensures r.Found? && r == WeightLookup(table, dftIdx % table)
  {
    Found(Entries(table)[dftIdx % table].value)
  }
}
