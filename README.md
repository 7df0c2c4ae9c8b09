# Fixed-point inverse DFT: reference evaluators and pipeline generator

This project is a Dafny model of the integer core of a small inverse-DFT toolkit, with
proofs about it. The toolkit has three parts:

- `icomplex<TYPE, FRAC>` (`icomplex.h`): the fixed-point complex type. It is modelled at the
  instantiation `icomplex<int32_t, 8>` that both evaluators use. A value holds two raw
  integers that stand for raw / 2^8. The model covers:
  - construction from raw integers, from `double` and by copy;
  - the accessors, `operator=` and `operator+=` (on an object that holds two fields);
  - the free `operator+` and `operator*`.

  `operator*` returns a `Result`, with two ways to fail:
  - int32 partial-product overflow, which is undefined behaviour in C++;
  - the range assertion.

  The narrowing cast back to int32 is modelled as a wrap modulo 2^32, which is proved
  never to act.

  Its `/=` is C++ truncation toward zero, not Dafny's Euclidean division.
- The two fixed-point reference evaluators:
  - `do_recurse2`/`idft_recurse` (`idft_recurse.cc`): the radix-2 Danielson-Lanczos
    recursion. It splits into even and odd halves, has a ±1 base case at length 2, and
    combines with `e + W^(idx mod N) * o`. The same `idx` is passed to every level.
  - `idft_brute_force` (`idft_brute_force.cc`): the O(N^2) accumulation over a table
    `W` of N twiddles.

  The twiddle values come from `double` `exp`/`pow`. Here they are an abstract function
  `tw(n, k)` (`Twiddles.Twiddle`). Only the hypothesis `tw(n, 0) = (1 << 8, 0)` is used,
  and only where a lemma says so.
- The structural part of the pipeline generator (`idft_gen.cc`):
  - `clog2`;
  - the twiddle-table size schedule;
  - the recursive graph builder;
  - `generate_module`.

  The emitted Verilog is modelled as a sequence of records, in emission order, appended
  to a `Stream` object. A record names a node by the pair its wire names are printed from:
  the subtree size and the first sample (`IdftGen.NodeId`). The printed text
  `p_N<size>_s<first>` is modelled exactly, through a decimal rendering of naturals. It is
  proved to read back, so two nodes have the same wire name exactly when they have the
  same pair. The arithmetic of the emitted leaves and of
  `blend_math` is modelled as written and compared with the reference evaluator.

Remarks on the code, where it differs from its descriptions:

- `clog2` computes floor(log2 N), not ceil(log2 N). The two agree on the powers of two the
  generator accepts. The model follows the code.
- The twiddle tables are `reg` arrays inside the top-level module. They are emitted after
  the module header and the `complex_t` typedef, not as separate submodules.
- `generate_module` writes the node graph to `stdout` but everything else to its `fd`
  argument (`idft_gen.cc:193`). The generator only ever passes `stdout`, so the output is
  one stream. `IdftGen.GenerateModule` takes both streams and states both cases.
- With `FRAC = 8` and int32 partial products, `|rtmp| < 2^24` and `-2^24 <= itmp < 2^24`
  (itmp reaches -2^24 for (65536, 65536) times (-32768, -32768)). The range assertion of
  `operator*` therefore never fires, and the casts never wrap. Both facts
  are proved inside `FixedComplex.MulStaged`.
- The `double` constructor adds 0.5 before truncating toward zero. So `-1.0` becomes
  `-(1 << 8) + 1 = -255`, and the odd length-2 case of the recursion is not an exact
  subtraction.

## Model

| member | source | states |
|---|---|---|
| FixedComplex.IComplexVar.constructor | icomplex.h:36-38 | default construction gives (0, 0) |
| FixedComplex.IComplexVar.Copy | icomplex.h:40-42 | the copy holds the other object's two components |
| FixedComplex.IComplexVar.FromRaw | icomplex.h:44-46 | raw int32 components are stored unchanged; `Real()`/`Imag()` (icomplex.h:74-75) return exactly them |
| FixedComplex.TruncReal | icomplex.h:48-50 | conversion of a double to an integer truncates toward zero: `r <= y < r+1` for `y >= 0`, `r-1 < y <= r` below |
| FixedComplex.ToRaw | icomplex.h:48-50 | `x*2^8 + 0.5` truncated: round half up where that sum is non-negative; below, between half a unit and one and a half units above the scaled value |
| FixedComplex.FromDouble | icomplex.h:48-50 | both components land in int32 and are the scaled inputs rounded half up where `x·256 + 0.5 >= 0`, and rounded toward zero from half a unit higher below that |
| FixedComplex.FromDoubleUnits | icomplex.h:48-50 | exact inputs: 1.0 → 256, 0.0 → 0, -1.0 → -255 |
| FixedComplex.IComplexVar.Assign | icomplex.h:57-62 | after `operator=` the object holds the other value |
| FixedComplex.IComplexVar.AddAssign | icomplex.h:64-69 | `+=` makes the object the exact component-wise sum of its old value and the operand; only its two fields change |
| FixedComplex.Add | icomplex.h:88-91 | `operator+` is exact component-wise addition |
| FixedComplex.ScaleDown | icomplex.h:99 | `tmp /= 1<<FRAC` truncates toward zero, for both signs |
| FixedComplex.Narrow32 | icomplex.h:108 | the `(TYPE)` cast lands in int32, agrees with the argument modulo 2^32 and is the identity on int32 values |
| FixedComplex.MulStaged | icomplex.h:96-108 | the staged body over the four partial products: defined iff all four fit in int32, otherwise `ProductUndefined`; the result is `(trunc((rr-ii)/256), trunc((ri+ir)/256))` and lies in [-2^24, 2^24), so the assertions and casts never act |
| FixedComplex.Mul | icomplex.h:94-109 | `operator*` is defined iff the four int32 partial products are; real = trunc((ar·br − ai·bi)/2^8), imag = trunc((ar·bi + ai·br)/2^8) |
| FixedComplex.MulCommutes | icomplex.h:94-109 | the product does not depend on operand order, including where it fails |
| FixedComplex.MulByOne | icomplex.h:94-109 | multiplying by the raw one (256, 0) on either side returns the other operand; defined iff 256 times each component fits in int32 |
| Radix2.SplitEvenOdd | idft_recurse.cc:48-54 | the split loop fills `src_e[j] = src[2j]` and `src_o[j] = src[2j+1]`, each of length N/2 |
| Radix2.SplitIndices | idft_recurse.cc:51-54 | every sample is found in the even half at i/2 or in the odd half at i/2, according to its parity |
| Radix2.SplitPartitions | idft_recurse.cc:48-54 | the two halves together are a permutation of the samples |
| IdftRecurse.BaseWeight | idft_recurse.cc:44 | the length-2 constant is (256, 0) for even idx and (-255, 0) for odd idx |
| IdftRecurse.Recurse2 | idft_recurse.cc:36-62 | do_recurse2 as a function: it succeeds only on a power-of-two length ≥ 2, and the range assertion never stops it |
| IdftRecurse.DoRecurse2 | idft_recurse.cc:36-62 | the imperative recursion returns exactly `Recurse2(idx, src)`: length faults, base case, split, and combine `e + tw(N, idx mod N)·o` with the same idx for both halves |
| IdftRecurse.IdftRecurse | idft_recurse.cc:64-76 | succeeds iff every bin succeeds; then the output has the input's length and `dst[idx] = do_recurse2(idx, src)`; otherwise it reports the fault of the first failing bin |
| IdftRecurse.LengthFaultIffNotPow2 | idft_recurse.cc:40-41 | the length assertions stop the computation iff the length is not a power of two ≥ 2 |
| IdftRecurse.BaseCaseEven | idft_recurse.cc:43-46 | even idx, length 2: exactly `src[0] + src[1]`, or `ProductUndefined` when 256·src[1] overflows |
| IdftRecurse.BaseCaseOdd | idft_recurse.cc:43-46 | odd idx, length 2: defined iff -255·src[1] fits; the result is `src[0] − src[1]` plus a truncation bias toward the sign of src[1] with magnitude ceil(abs(src[1])/256) per component; it is exact iff that component is 0 |
| IdftRecurse.SumSplit | idft_recurse.cc:48-54 | the sum of the samples is the sum of the even half plus the sum of the odd half |
| IdftRecurse.BinZeroIsSum | idft_recurse.cc:56-60 | with `tw(n, 0) = (256, 0)`, a completed bin 0 is the component-wise sum of all samples |
| IdftRecurse.DependsOnIdxModN | idft_recurse.cc:56-59 | although every level gets the unreduced idx, the output depends on idx only modulo N |
| IdftBruteForce.Table | idft_brute_force.cc:45-51 | the table has exactly N entries, `W[0] = (256, 0)` from the literal 1.0, and `W[k] = tw(N, k)` for k ≥ 1 |
| IdftBruteForce.Accumulate | idft_brute_force.cc:53-58 | the inner accumulation can only stop on an undefined partial product |
| IdftBruteForce.BruteForceAt | idft_brute_force.cc:53-58 | a brute-force bin can only stop on an undefined partial product |
| IdftBruteForce.FaultPersists | idft_brute_force.cc:55-57 | a fault in the inner accumulation is the fault of the whole bin |
| IdftBruteForce.BuildTable | idft_brute_force.cc:44-51 | the table loop fills a fresh array with exactly `Table(N, tw)` |
| IdftBruteForce.AccumulateBin | idft_brute_force.cc:53-58 | the inner loop for one bin yields the accumulation over k = 1 .. N-1, or the fault of the first failing product |
| IdftBruteForce.IdftBruteForce | idft_brute_force.cc:36-61 | the nested loops succeed iff every bin's accumulation `src[0] + Σ_{k=1}^{N-1} src[k]·W[(idx·k) mod N]` (in increasing k) succeeds; then the output has length N with those values; otherwise it reports the first failing bin's fault |
| IdftBruteForce.AccumulateBinZero | idft_brute_force.cc:53-58 | for bin 0 every term uses W[0], so the partial accumulation is the sum of the samples taken so far |
| IdftBruteForce.BinZeroIsSumBruteForce | idft_brute_force.cc:47-58 | a completed `dst[0]` is the component-wise sum of all samples |
| IdftBruteForce.BinZeroAgrees | idft_brute_force.cc:53-58 | where both evaluators complete bin 0 they agree on it exactly |
| Decimal.NatToString | idft_gen.cc:69 | `%zu` renders at least one character, all decimal digits |
| Decimal.ParseNatToString | idft_gen.cc:69 | reading a rendered numeral gives back the number |
| Decimal.FirstUnderscoreAfterDigits | idft_gen.cc:69 | in `<digits>_...` the first underscore is the one after the digits |
| IdftGen.Stream.Write | idft_gen.cc:34 | writing appends one record to the stream and changes nothing else |
| IdftGen.Entries | idft_gen.cc:43-59 | a table of size m assigns entries 0 .. m-1 in order; entry 0 is `1 << FRAC`, entry k is pow(W_m, k) |
| IdftGen.TableRecords | idft_gen.cc:38-62 | every emitted table has size above 2 and carries all its entries |
| IdftGen.GenRecords | idft_gen.cc:66-118 | the subtree of size n emits n-1 nodes, each a leaf or a blend, the last one the node (n, src[0]) |
| IdftGen.Iota | idft_gen.cc:189-192 | the initial sample vector holds 0 .. N-1 |
| IdftGen.Clog2 | idft_gen.cc:120-128 | the loop returns floor(log2 n): `2^r <= n < 2^(r+1)` for n ≥ 1 (so k for n = 2^k) and 0 for n ≤ 1 |
| IdftGen.TableEntries | idft_gen.cc:45-59 | the initial block of W<m> assigns exactly the m entries of `Entries(m)`, in index order |
| IdftGen.GenerateWTables | idft_gen.cc:30-64 | the typedef, then the tables in the halving schedule, are appended to the stream |
| IdftGen.IdftMathRecursiveGen | idft_gen.cc:66-118 | returns the node (n, src[0]), printed `p_N<n>_s<src[0]>`, in both the leaf and the blend case and appends exactly `GenRecords(n, src)`: even subtree, odd subtree, then the blend |
| IdftGen.SampleIndices | idft_gen.cc:189-192 | the fill loop yields N indices with `src[i] = i` |
| IdftGen.WritePreamble | idft_gen.cc:132-187 | blend_math, the module header with a clog2(N)-bit dft_idx port and N samples, the typedef and the tables are appended to fd |
| IdftGen.GenerateModule | idft_gen.cc:130-206 | with fd = stdout the stream receives blend_math, the header with a clog2(N)-bit dft_idx and N samples, the tables, the graph from 0 .. N-1 and the output stage fed by the node (N, 0); with two streams the graph goes to stdout and the rest to fd |
| IdftGen.ShiftFrac | idft_gen.cc:164-165 | `>>> FRAC` is floor division by 256 |
| IdftGen.NodeName | idft_gen.cc:69 | the node wire `p_N<n>_s<first>` reads back as (n, first) |
| IdftGen.WeightName | idft_gen.cc:104 | the twiddle wire `w_N<n>_s<first>` starts with `w` and reads back as (n, first) |
| IdftGen.ModuleName | idft_gen.cc:172 | the module name is `idft_comp_N` followed by a numeral that reads back as N |
| IdftGen.BlendNode | idft_gen.cc:101-116 | the blend of a subtree (n, src[0]) uses table W<n> and a twiddle wire of its own node; it reads the roots of the even half and the odd half (first samples src[0] and src[1]) and waits on their two ready flags |
| IdftGen.Preamble | idft_gen.cc:132-187 | blend_math, then the header named `idft_comp_N<N>` with N samples and a floor(log2 N)-bit dft_idx (`2^w <= N < 2^(w+1)`), then the typedef and one record per table; no node appears before the graph |
| IdftGen.ModuleRecords | idft_gen.cc:130-206 | the preamble, then N−1 graph nodes, then the output stage; that stage reads the last node emitted, the root (N, 0) |
| IdftGen.LeafValue | idft_gen.cc:82-85 | as written: for even dft_idx the leaf is `a + b`; for odd dft_idx its real part is `a.re − b.re`, but its imaginary part is `a.im + b.im` in both cases |
| IdftGen.BlendValue | idft_gen.cc:164-165 | blend_math's real part is `a.re` plus the exact `(w·b).re / 256` within one unit either way; its imaginary part is `a.im` plus `(w·b).im / 256`, rounded down by less than two units |
| IdftGen.WeightLookup | idft_gen.cc:108 | as written: `W<size>[dft_idx]` yields an entry iff dft_idx < size, and then entry dft_idx (the literal one at 0, the root power otherwise) |
| IdftGen.IntendedLeafValue | idft_gen.cc:71-72 | corrected leaf: `a + b` for even dft_idx, the difference `a − b` for odd dft_idx (adding b gives back a); same real part as the emitted leaf |
| IdftGen.IntendedWeightLookup | idft_gen.cc:108 | corrected lookup: always yields an entry, the emitted lookup at dft_idx mod size |
| IdftGenProperties.WeightWireDistinct | idft_gen.cc:104 | a twiddle wire never has a node wire's name; two twiddle wires are equal iff they belong to the same node |
| IdftGenProperties.ReadyFlagInjective | idft_gen.cc:86 | two ready flags `<name>_ready` are equal iff they belong to the same node |
| IdftGenProperties.NodeNameInjective | idft_gen.cc:69 | two node names are equal iff their sizes and first samples are |
| IdftGenProperties.TableSchedule | idft_gen.cc:38-62 | for N = 2^k exactly k−1 tables are emitted, the i-th of size 2^(k−i), i.e. descending |
| IdftGenProperties.TableDeclared | idft_gen.cc:38-62 | every power-of-two size in (2, N] has a table |
| IdftGenProperties.NodeCounts | idft_gen.cc:70-102 | a subtree of size n has n/2 leaves and n/2−1 blends, and its leaves wire a permutation of its samples |
| IdftGenProperties.EverySampleInOneLeaf | idft_gen.cc:189-193 | from 0 .. N-1: N/2 leaves, N/2−1 blends, and every index below N is wired by exactly one leaf, no other index by any |
| IdftGenProperties.SplitDistinct | idft_gen.cc:96-99 | the halves of distinct samples are distinct and share no sample |
| IdftGenProperties.NodesWithin | idft_gen.cc:93-102 | every node of a subtree has its first sample among the subtree's samples; all but the root have a smaller size |
| IdftGenProperties.NodesDistinct | idft_gen.cc:69 | with distinct samples no two nodes of a subtree have the same size and first sample |
| IdftGenProperties.ModuleNodeNamesDistinct | idft_gen.cc:189-193 | from 0 .. N-1, no two node wires of the module get the same printed name |
| IdftGenProperties.RootWired | idft_gen.cc:101-109 | the blend reads the even subtree's root, then the odd subtree's, and waits on the AND of their ready flags |
| IdftGenProperties.WiredInOrder | idft_gen.cc:101-109 | for every blend both children are emitted before it, the even one first, and `in_ready` is the AND of exactly their ready flags |
| IdftGenProperties.BlendTables | idft_gen.cc:104-108 | each blend's table is a power of two in (2, N] and is the blend's own size |
| IdftGenProperties.EveryBlendHasTable | idft_gen.cc:108 | every blend's `W<size>` is declared among the tables |
| IdftGenProperties.HasBlendOfSizeFour | idft_gen.cc:93-102 | a subtree of size ≥ 4 contains a blend of size 4 |
| IdftGenProperties.WeightLookupInRange | idft_gen.cc:108 | `W<size>[dft_idx]` is in range iff dft_idx < size, and then it is the entry the reference uses, dft_idx mod size |
| IdftGenProperties.RootLookupInRange | idft_gen.cc:182 | at the root every value of the clog2(N)-bit dft_idx is in range of W<N> |
| IdftGenProperties.UnreducedLookupExceedsTable | idft_gen.cc:108 | from N = 8 on, a size-4 blend reads `W4[4]` for the legal dft_idx = 4, past the table, where the reference takes entry 4 mod 4 = 0 |
| IdftGenProperties.EvenLeafMatchesReference | idft_gen.cc:82-85 | for even dft_idx the leaf equals the reference length-2 case `src[0] + src[1]` |
| IdftGenProperties.OddLeafDiverges | idft_gen.cc:82-85 | for odd dft_idx the leaf is `(a.re − b.re, a.im + b.im)` and equals the reference iff src[1] is zero |
| IdftGenProperties.ShiftPairBounds | idft_gen.cc:164-165 | shifting two products separately vs truncating their combination: within ±1 for a difference, 0 to 2 below for a sum |
| IdftGenProperties.BlendNearReference | idft_gen.cc:164-165 | blend_math's real part is within 1 unit of the reference combine `e + w·o`, its imaginary part 0 to 2 units below |
| IdftGenProperties.BlendDiverges | idft_gen.cc:164-165 | w = (1, 1), o = (−1, −1): the reference product is 0, blend_math's imaginary part is −2 |
| IdftGenProperties.IntendedLeafIsTwoPoint | idft_gen.cc:71-72 | the corrected leaf is `src[a] + (±256, 0)·src[b]`, the two-point transform its emitted comment names |
| IdftGenProperties.IntendedLeafAgainstEmitted | idft_gen.cc:82-85 | the corrected and the emitted leaf differ only in the imaginary part for odd dft_idx with a nonzero imaginary part of src[b] |
| IdftGenProperties.IntendedLookupAgrees | idft_gen.cc:108 | the reduced lookup is always in range, agrees with the emitted one wherever that is in range, and reads W4[0] for dft_idx = 4 |

## Findings

| source | as written | input that shows it | evidently intended | confidence | as-written member | corrected member |
|---|---|---|---|---|---|---|
| idft_gen.cc:84 | the leaf's imaginary part is always `a.cimag + b.cimag`, whatever `dft_idx[0]` | odd dft_idx, src[b] = (0, 256): leaf imag 256, the reference gives −255 | subtract for odd dft_idx, as the real part does and as the emitted comment `src[a] + W2[idx] * src[b]` says | not executed | IdftGenProperties.OddLeafDiverges | IdftGenProperties.IntendedLeafIsTwoPoint |
| idft_gen.cc:108 | `W<size>[dft_idx]` indexes with the full dft_idx in every blend | N = 8, dft_idx = 4: a size-4 blend reads W4[4], past its 4 entries | index with dft_idx mod size (its low bits), as the reference's `idx % N` | not executed | IdftGenProperties.UnreducedLookupExceedsTable | IdftGenProperties.IntendedLookupAgrees |

The corrected members are `IdftGen.IntendedLeafValue` and `IdftGen.IntendedWeightLookup`.
The as-written `IdftGen.LeafValue` and `IdftGen.WeightLookup` stay the model of what the
generator emits.

## Left out

- FixedComplex.Add: does not model the int32 overflow of the sums, which is undefined behaviour in the source. Components are unbounded integers.
- FixedComplex.IComplexVar.AddAssign: same as `Add`; the int32 overflow of `+=` is not modelled.
- The `std::complex<double>` constructor (icomplex.h:52-54) and `d_real`/`d_imag` (icomplex.h:79-80) are floating point and are not part of this model. The `double` constructor is modelled on exact reals, and only its exact inputs 1.0, 0.0 and −1.0 are used.
- Twiddle values: `exp`/`pow` in idft_recurse.cc:56-57 and idft_brute_force.cc:44-50, and the `%f` constants in idft_gen.cc:47-58, are floating point. They are an abstract `Twiddle` function, or a symbolic `RootPower(size, k)` in the emitted tables.
- dft_brute_force.cc, dft_brute_force_w.cc, dft_recurse.cc (double-precision evaluators), dft_fftw3.cc (FFTW3 wrapper) and test_zynq/sim (bus simulation, file reading) are not part of this model.
- Every `main`: command-line parsing (including `--N`) and file I/O.
- The emitted text byte for byte: the comments, the fixed `blend_math` module text and the formatting around names. Names and structure are modelled as records. The 512-byte `snprintf` buffers are not modelled; generated names are far shorter.
- Wire names other than node names (`w_N<n>_s<first>`, `<name>_ready`, `a_`/`b_` leaf inputs) are recorded through the node they belong to. Injectivity is proved for the twiddle-wire and ready-flag texts, but not for the `a_`/`b_` leaf inputs.
- The clocked behaviour of the emitted Verilog: reset, the `_ready` registers, the one-cycle latency of blend_math's product registers and of the output stage. Only the combinational values `o_real`/`o_imag` and the leaf assignments are modelled.
- IdftGen.BlendValue: WIDTH-bit wrap-around of the hardware sums is not modelled. The 48-bit product registers are unsigned, so `>>>` there is a logical shift; it agrees with the floor shift modelled in the WIDTH bits that are kept.
- IdftGen.GenRecords, IdftGen.IdftMathRecursiveGen, IdftGen.GenerateModule: the model keeps to N a power of two ≥ 2, the sizes the generator is meant for, and says nothing about the output for other N. The source behaves as follows outside that set:
  - N whose binary form starts with `10` (5, 9, 10, 11, 20, ...): the halving chain reaches 2, so the recursion stops at size-2 leaves. It emits a truncated graph that leaves samples unread; for N = 5, the leaves [0, 2] and [1, 3] drop sample 4.
  - N whose binary form starts with `11` (3, 6, 7, 12, ...): the chain reaches 1, then 0, and the recursion reads `src[0]` of an empty vector, which is undefined behaviour.
  - N < 2: blend_math and the module header (with a `[SIZE_MAX:0]` port range for N = 0) are written, then `assert(N >= 2)` in generate_W_tables stops the program.
- IdftGen.GenerateWTables, IdftGen.WritePreamble, IdftGen.Preamble: `requires n >= 2` stands for the source's `assert(N >= 2)` (idft_gen.cc:32). The failing assertion is not modelled, nor is the output written before it.
- IdftBruteForce.IdftBruteForce: requires N ≥ 2, because `W[1]` is written unconditionally. It also requires (N−1)^2 to fit in `int`, because `idx*k` overflows otherwise.
- The recursion depth log2 N of `do_recurse2` is not stated as a lemma. Termination is proved by the halving length.
