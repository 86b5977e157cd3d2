# Minilang: hash table, bytecode, shared-reference CBOR and strided arrays

This project models five parts of the Minilang runtime and proves what they promise. Each module names the
source file it follows.

**Integer hash table** (`Probing`, `InthashLayout`, `InthashSort`, `InthashStore`, `Inthash`). An open-addressing
table with double hashing whose probe paths are kept in descending key order. `Inthash.Table` is the record with its
`Keys`, `Values`, `Size` and `Space`; its methods are proved against a finite map, through displacement, in-place
sorting and growth. The layout is canonical: it depends on the set of keys alone.

**Bytecode** (`Vlq`, `Bytecode*`, `Frame*`). The serialiser walks linked instruction chunks from Entry to Halt, labels
jump targets, turns labels into linear offsets, codes lines as deltas, tables the declarations and writes
variable-length integers; the decoder builds flat code. `BytecodeDecoder` has the round trip and the simulation: for any
meaning of the instructions (`Semantics`), original and copy follow each other step by step. `FrameMachine` and
`FrameRunner` model the dispatch loop with TRY, CATCH, RETRY, the instructions that leave the frame to call, iterate or
assign, and the counter of the scheduler, and show that cutting a run into slices cannot be noticed; `FrameTraces` and
`FrameSlices` say what it adds to the traces of errors and how long a slice is. `BytecodeDispatch` connects opcodes and
operands with the instructions of this machine.

**Expressions** (`Expression*`). `Expressions` gives expressions a syntax and an evaluator of their own, `ExpressionCode`
the code that the compiler emits for them. `ExpressionCorrect` shows that running the code computes what the evaluator
says, errors and handlers included; `ExpressionProgram` says when a whole function ends, and with what; `ExpressionBytes`
that this survives writing the code as bytes and reading it back.

**CBOR with shared references** (`Cbor*`). `CborGraph` is a finite graph of lists and maps, cycles and sharing
included, with the two passes of the writer and names for objects the reader knows already; `CborReach` compares the
passes with paths of references.
`CborDecoder` has the reader as a machine with a stack of open collections and a stack of pending tags, and the recursive
meaning of an item that it computes. `CborTrace`, `CborRoundTrip` and `CborExact` show when a graph comes back isomorphic.
`CborWriter` and `CborReader` are the two objects of the source with their mutable fields; the reader runs over the
records and free lists of `CborPools`. Items are taken at the level of heads (RFC 8949, section 3.1, and tags, section
3.4); 28 and 29 are the registered tags for value sharing.

**Arrays and linear algebra** (`Sums`, `Determinant`, `Parity`, `LuTheory`, `Elimination`, `Lu`, `Linear*`, `Permutations`,
`Array*`). LU decomposition with partial pivoting over row pointers, proved against elimination as a function of the
matrix, and the determinant, solution and inverse built on it, over exact reals; in-place reordering
and random permutations; view constructors and sub-arrays over (size, stride, indices) dimensions; broadcasting updates;
the array format of RFC 8746 with its raw writes of contiguous parts. `ArrayNumbering` says which entries and axes the
integers of an index name, `ArrayNumbers` which numbers the bytes of an element denote.

`Options`, `Arithmetic`, `Finite` and `Exchange` hold helpers. `dafny verify dfyconfig.toml` checks everything.

Seven places where the code does not meet the clean statement are stated exactly:

* `det` answers zero when elimination meets a column without an entry of DBL_EPSILON (`Elimination.Stops`);
  `LinearAlgebra.DetRightExactly` says exactly when its answer is the determinant, `LinearAlgebra.TinyDeterminant` shows a
  matrix for which it is not.
* The nine-byte arm of the variable-length code shifts by 54 where the place value is 56; `Vlq.RoundTrip` says exactly
  which values survive, `Vlq.LostValue` names one that does not.
* Jumps to Halt are not labelled and NULL declarations code as 0; `BytecodeDecoder.TargetKeptExactly` and
  `BytecodeDecoder.DeclKeptExactly` say exactly when the operand keeps its meaning.
* A map whose key is a container that is still being read cannot be rebuilt, because the key is stored while it is only a
  placeholder; `CborExact.RoundTripExactly` says that this is the only obstacle.
* Jump labels have 16 bits; `BytecodeLabels.LabelledExactly` says how many targets can be told apart,
  `BytecodeLabels.LabelsWrap` what the next ones get.
* A `must` part that fails after its body has succeeded is run a second time, because its own handler is still in force;
  `ExpressionCorrect.FinallyCorrect` holds for this meaning (`Expressions.MustDone`).
* `permute` accepts up to 64 axes, but shifts a 32-bit one; `ArrayChain.PermuteSucceedsExactly` says exactly when it works,
  `ArrayChain.WidePermutation` names an array of 32 axes for which it does not.

## Model

| member | source | states |
|---|---|---|
| Inthash.Table.constructor | src/inthash.c:4-6 | a new table stands for the empty map |
| Inthash.Table.Search | src/inthash.c:9-22 | in every valid table the answer is the map's value for the key, or NULL if the map has none |
| Inthash.Table.Search2 | src/inthash.c:24-37 | value and presence are those of the map for every non-zero key; key 0, which marks empty slots, is reported present in any table that has slots |
| Inthash.Table.Locate | src/inthash.c:12-21 | the 32-bit probe loop ends; it finds the slot of the key, and stopping at a smaller key proves that the key is nowhere in the table |
| Inthash.Table.LocateInline | src/inthash.h:36-45 | the same for the 64-bit index arithmetic of the inline variants |
| Inthash.Table.SearchInline | src/inthash.h:33-46 | agrees with the map, hence with `inthash_search` |
| Inthash.Table.Search2Inline | src/inthash.h:67-80 | agrees with the map, hence with `inthash_search2` |
| Inthash.Table.ContainsInline | src/inthash.h:48-61 | true exactly for the keys of the map; for key 0 exactly if the table has slots |
| Inthash.Table.Seek | src/inthash.c:85-96 | the search of insert ends with the key's own slot, or with the first slot of its probe path that holds a smaller key, all earlier ones holding larger keys |
| Inthash.Table.Insert | src/inthash.c:72-136 | for every non-zero key, in place or across growth, whenever the size need not double beyond 2^31: returns the previous value and the table then stands for the map with the key updated; the invariant is kept |
| Inthash.Table.InsertFirst | src/inthash.c:75-84 | the first insertion allocates a valid table of eight slots that holds one pair |
| Inthash.Table.Overwrite | src/inthash.c:89-93 | a key that is present gets its new value, every other pair stays |
| Inthash.Table.InsertNew | src/inthash.c:97-134 | a new key is added with or without growth, nothing is lost, the load bound is kept; the size must be below 2^31 only if the table has to grow |
| Inthash.Table.Grow | src/inthash.c:112-134 | doubling the size keeps all pairs, adds the new one and restores every invariant |
| Inthash.SortAndRehash | src/inthash.c:112-131 | the new arrays hold exactly the old pairs and the new one, with every key at the first slot of its probe path that no larger key holds |
| Inthash.CountIsSizeMinusSpace | src/inthash.c:79-134 | the number of keys is Size - Space and more than a quarter of the slots is free, in every valid table |
| Inthash.RoomToInsert | src/inthash.c:117-133 | the insertion is possible if and only if the key is present or there are fewer than MAX_COUNT = 3 * 2^29 - 1 keys, whatever the history of the table |
| Inthash.LayoutDependsOnKeys | src/inthash.c:72-136 | two tables with the same keys have the same Size, the same Space and the same Keys array, whatever their histories |
| Inthash.AppliedKeys | src/inthash.c:72-136 | the keys after a sequence of insertions are the keys inserted |
| Inthash.Build | src/inthash.c:72-136 | a run of insertions of at most MAX_COUNT different non-zero keys from an empty table refines the same run on a map |
| Inthash.BuildTwice | src/inthash.c:72-136 | any two runs that insert the same set of keys, in any order and with repeats, end with the same layout |
| InthashLayout.LayoutIsCanonical | src/inthash.c:85-134 | Size, Space and the whole key array are determined by the set of keys |
| InthashLayout.SameSlots | src/inthash.c:102-111 | at equal size each slot holds the same key, by descent over the keys |
| InthashLayout.SizeDetermined | src/inthash.c:97-133 | the number of keys leaves only one power of two for the size |
| InthashLayout.Displace | src/inthash.c:98-111 | putting a key in place of a smaller one keeps every other key settled, and the displaced key fits from this slot on |
| InthashLayout.AbsentWhenSmaller | src/inthash.c:14-21 | larger keys on the probe path followed by a smaller one mean that the key is absent |
| InthashSort.Partition | src/inthash.c:40-65 | keys and values move together; larger keys end left of the pivot and the others right of it |
| InthashSort.Sort | src/inthash.c:40-68 | the range becomes descending and is a rearrangement of the same key and value pairs, nothing outside it moves |
| InthashSort.MovedContents | src/inthash.c:116 | a rearrangement of the pairs stands for the same map |
| InthashStore.Place | src/inthash.c:98-110 | one displacement: the map loses the displaced pair and gains the placed one, the slot invariant is kept |
| InthashStore.SkipLarger | src/inthash.c:104 | the inner loop ends at a slot of the displaced key's own path that holds a smaller key |
| InthashStore.DisplaceFrom | src/inthash.c:98-111 | the displacement chain ends and adds exactly one pair |
| InthashStore.NextEmpty | src/inthash.c:113 | the linear scan ends at an empty slot |
| InthashStore.FirstFree | src/inthash.c:124-126 | rehashing in descending order: the first free slot has only larger keys before it |
| InthashStore.Rehash | src/inthash.c:119-129 | the rehashed arrays satisfy the slot invariant and stand for the same map |
| Probing.StepsAgree | src/inthash.c:16-18 | one step of the 32-bit and of the 64-bit arithmetic is the same step of the probe path, also where the sum wraps |
| Probing.WalkIsLinear | src/inthash.c:18 | the probe path as start plus a multiple of the stride, minus a multiple of the size |
| Probing.ProbeInjective | src/inthash.c:16-18 | an odd step modulo a power of two meets no slot twice within one round |
| Probing.ProbeReaches | src/inthash.c:16-18 | an odd step modulo a power of two reaches every slot |
| Lu.FindPivot | src/ml_array.c:8161-8169 | the row found holds the largest absolute value of the column from the diagonal down |
| Lu.ReduceRow | src/ml_array.c:8181-8184 | the row becomes the row minus the multiplier times the pivot row, with the multiplier stored in the pivot column |
| Lu.ReduceBelow | src/ml_array.c:8180-8185 | one elimination step on every row below the pivot, the rows above untouched |
| Lu.ExchangeRows | src/ml_array.c:8171-8179 | two rows, two entries of P and the exchange count change together |
| Lu.BringPivot | src/ml_array.c:8161-8179 | the exchange is that of the elimination specification, or nothing changes because no entry of the column reaches DBL_EPSILON |
| Lu.ResetPermutation | src/ml_array.c:8159 | P is the identity and the exchange count is zero |
| Lu.Round | src/ml_array.c:8160-8186 | one round of the outer loop is one round of the elimination specification, and finds a pivot exactly where that does |
| Lu.Rounds | src/ml_array.c:8160-8187 | all rounds run the specification to its end |
| Lu.LuDecomp | src/ml_array.c:8158-8188 | fails if and only if elimination of the input stops (`Elimination.Stops`); on success P is a permutation, row i of L U is row P[i] of the input, pivots are at least DBL_EPSILON, multipliers at most one, and the exchange count has the parity of P; on failure the same holds up to the column without a pivot |
| Elimination.StepUnique | src/ml_array.c:8180-8185 | the relation between a matrix and its reduced form leaves only one result |
| Elimination.RunUnfolds | src/ml_array.c:8160-8186 | elimination goes on from the matrix after exchange and reduction exactly where there is a pivot |
| Elimination.RunStage | src/ml_array.c:8160-8188 | from any stage to the end of elimination factorisation, bounds, determinant and parity are kept, and it ends early only at a column without a pivot |
| Elimination.DecomposedStage | src/ml_array.c:8158-8188 | hence for the elimination of any square matrix |
| LuTheory.StepFactors | src/ml_array.c:8180-8185 | an elimination step keeps the factorisation of the rows met so far |
| LuTheory.SwapFactors | src/ml_array.c:8171-8179 | so does a row exchange together with the exchange in P |
| LuTheory.StepBounded | src/ml_array.c:8170-8181 | pivots stay at least DBL_EPSILON and multipliers at most one through a step |
| LuTheory.SwapBounded | src/ml_array.c:8171-8177 | and through an exchange |
| LuTheory.FactorsMultiply | src/ml_array.c:8229-8265 | the packed factors, unpacked, satisfy P A = L U entry by entry |
| LuTheory.StepCarries | src/ml_array.c:8180-8185 | an elimination step keeps the determinant of the input recoverable from the working matrix |
| LuTheory.SwapCarries | src/ml_array.c:8171-8178 | an exchange changes the sign, and the count records it |
| LuTheory.FinishedDet | src/ml_array.c:8521-8527 | the determinant of the input is the signed product of the pivots |
| LuTheory.StoppedDet | src/ml_array.c:8170 | where elimination stops, the determinant is the signed product of the pivots so far times the determinant of the rest |
| LuTheory.ZeroPivotColumn | src/ml_array.c:8170 | a pivot column that is exactly zero makes the determinant zero |
| Parity.SwapFlipsParity | src/ml_array.c:8171-8178 | exchanging any two entries of a sequence without repeats flips the parity of its inversions |
| Parity.ParityInitially | src/ml_array.c:8159 | the identity has no inversion |
| Parity.ParitySwaps | src/ml_array.c:8171-8178 | (P[N] - N) % 2 stays the parity of the permutation P[0..N) |
| Determinant.SwapNegates | src/ml_array.c:8458-8500 | exchanging two rows negates the cofactor expansion |
| Determinant.EqualRowsVanish | src/ml_array.c:8458-8500 | the cofactor expansion of a matrix with two equal rows is zero |
| Determinant.AddRowKeepsDet | src/ml_array.c:8183 | adding a multiple of one row to another keeps the cofactor expansion |
| Determinant.TriangularDet | src/ml_array.c:8521-8522 | below eliminated columns the cofactor expansion is the product of the diagonal times the determinant of the rest |
| LinearAlgebra.LuFactors | src/ml_array.c:8226-8266 | `lu`: a shape error exactly for other than square matrices, degenerate exactly where elimination stops; on success P A = L U with L unit lower triangular, U upper triangular, P a permutation matrix, usable pivots and bounded multipliers |
| LinearAlgebra.FactorSquare | src/ml_array.c:8237-8266 | the same for a square matrix |
| LinearAlgebra.DetReal | src/ml_array.c:8502-8527 | `det`: a shape error exactly for other than square matrices; zero where elimination stops, otherwise the product of the pivots with the sign of the exchanges |
| LinearAlgebra.DetSquare | src/ml_array.c:8510-8527 | for a square matrix the answer is the cofactor expansion if and only if elimination does not stop or the determinant is zero |
| LinearAlgebra.DetRightExactly | src/ml_array.c:8510-8527 | the answer of `det` is the determinant if and only if elimination does not stop or the determinant is zero |
| LinearAlgebra.SignedProduct | src/ml_array.c:8521-8527 | the product of the pivots, with its sign turned for an odd exchange count |
| LinearAlgebra.ProductOfPivots | src/ml_array.c:8521-8522 | the loop gives the product of the whole diagonal |
| LinearAlgebra.ZeroIsRightWhen | src/ml_array.c:8520 | where elimination stops, the determinant is zero if and only if that of the part not yet eliminated is, in particular when the column without a pivot is exactly zero |
| LinearAlgebra.TinyDeterminant | src/ml_array.c:8170 | a one by one matrix with a non-zero entry below DBL_EPSILON: elimination stops and `det` answers zero although the determinant is the entry |
| LinearAlgebra.Determinant2 | src/ml_array.c:8458-8500 | with its scratch array of columns it computes the cofactor expansion of the remaining rows and columns |
| LinearAlgebra.DeterminantsAgree | src/ml_array.c:8502-8527 | the two determinants of the source agree if and only if elimination does not stop or the determinant is zero |
| LinearSystems.SubstitutionsSolve | src/ml_array.c:8408-8419 | forward then back substitution over the packed factors solves the original system |
| LinearSystems.Substitute | src/ml_array.c:8408-8419 | both loops compute what forward and back substitution ask for |
| LinearSystems.Decompose | src/ml_array.c:8394-8404 | the copy and its decomposition are usable if and only if elimination of the matrix does not stop |
| LinearSystems.Solve | src/ml_array.c:8382-8421 | `\` with a vector: each error exactly when it applies, degenerate exactly where elimination stops; on success A X = B |
| LinearSystems.SolveSquare | src/ml_array.c:8394-8421 | for a square matrix: A X = B, or elimination of A stops and there is an error |
| LinearSystems.InvertColumn | src/ml_array.c:8328-8339 | column J becomes the solution for the J-th unit vector and no other column changes |
| LinearSystems.Inverse | src/ml_array.c:8305-8342 | `\` alone: a shape error exactly for other than square matrices, degenerate exactly where elimination stops; on success A X = I |
| LinearSystems.InverseSquare | src/ml_array.c:8313-8342 | for a square matrix: A X = I, or elimination of A stops and there is an error |
| Permutations.Reorder | src/ml_array.c:7807-7823 | for every permutation Order: ends, each value goes to the place its order entry names, every order entry is -1 |
| Permutations.FollowCycle | src/ml_array.c:7811-7821 | one pass consumes exactly the cycle of I and leaves complete cycles only |
| Permutations.RandomPermutation | src/ml_array.c:7733-7745 | for every sequence of accepted draws the array holds the permutation of 1..Limit built by those draws |
| Permutations.BuiltPermutes | src/ml_array.c:7734-7744 | what the draws build is a permutation of 1..n |
| Permutations.BuiltInjective | src/ml_array.c:7734-7744 | different draws build different permutations |
| Permutations.EveryPermutationBuilt | src/ml_array.c:7734-7744 | every permutation of 1..n is built by some draws, so draws and permutations correspond one to one |
| Permutations.RandomCycle | src/ml_array.c:7763-7776 | for every sequence of accepted draws the array holds one cycle through all of 1..Limit |
| Permutations.Insert | src/ml_array.c:7770-7775 | a new number spliced in behind any stop keeps the single cycle |
| Permutations.CycleBuiltIsCycle | src/ml_array.c:7768-7775 | what the draws build is a permutation and a single cycle |
| Permutations.CycleBuiltInjective | src/ml_array.c:7768-7775 | different draws build different cycles |
| Permutations.EveryCycleBuilt | src/ml_array.c:7768-7775 | every single cycle through 1..n, n at least two, is built by some draws, so draws and cycles correspond one to one |
| Vlq.FoldBijective | src/ml_bytecode.c:1917-1921 | the sign folding and its inverse undo each other over all 64-bit values |
| Vlq.Borders | src/ml_bytecode.c:1917-1978 | the codes at the borders of the arms, byte by byte |
| Vlq.CodeLength | src/ml_bytecode.c:1922-1978 | how many bytes the code of a number takes, and that a first byte above 248 is 246 more than that |
| Vlq.RoundTrip | src/ml_bytecode.c:2242-2288 | in front of any bytes the decoder consumes exactly the code, and returns the value if and only if it is below 2^56 folded or bits 54, 55, 62 and 63 of the folded value are zero |
| Vlq.RoundTripSmall | src/ml_bytecode.c:1914-1988 | every value of [-2^55, 2^55) comes back |
| Vlq.NineByteArm | src/ml_bytecode.c:2278-2281 | what the nine-byte arm decodes to, bit by bit |
| Vlq.LostValue | src/ml_bytecode.c:1976-1977 | a value that does not come back |
| Vlq.PrefixFree | src/ml_bytecode.c:1914-1988 | no code of any 64-bit value is a proper prefix of another; two surviving values with one code are equal |
| Vlq.EncodePreservesOrder | src/ml_bytecode.c:1922-1974 | the codes of the arms up to eight bytes are ordered as the folded values |
| Vlq.EncodeOrderExactly | src/ml_bytecode.c:1922-1978 | the order of any two codes is that of their ranks: the folded value below 2^56, and behind all of these the lower 62 bits |
| Vlq.OrderKeptExactly | src/ml_bytecode.c:1975-1978 | two codes are ordered as their folded values if and only if the smaller is below 2^56 or the order is not lost with bits 62 and 63 |
| BytecodeFormat.OpsBack | src/ml_bytecode.c:2378-2454 | for each of the sixteen operand layouts the reader gives back the operands, the constants and the rest of the bytes |
| BytecodeStream.HeaderBack | src/ml_bytecode.c:2329-2343 | the header is read back in front of any bytes |
| BytecodeStream.RecordsBack | src/ml_bytecode.c:2347-2355 | so is the table of declarations |
| BytecodeStream.InstsBack | src/ml_bytecode.c:2368-2455 | the instruction stream with its line deltas modulo 2^32 is read back into the linear layout |
| BytecodeStream.ClosureBack | src/ml_bytecode.c:2322-2456 | a whole serialised closure is read back |
| BytecodeWalk.WalkDistinct | src/ml_bytecode.c:2043-2106 | the walk from Entry to Halt through LINKs meets no address twice |
| BytecodeWalk.OffInjective | src/ml_bytecode.c:2043-2049 | different instructions have different linear offsets |
| BytecodeWalk.LayoutImage | src/ml_bytecode.c:2368-2455 | the decoded code holds at each offset the instruction with that offset, its line and its operands, and an instruction nowhere else |
| BytecodeRun.StepSimulated | src/ml_bytecode.c:594-597 | one step of the linked code, LINK included, and the matching step of the flat code keep the frames related |
| BytecodeRun.FlatFollows | src/ml_bytecode.c:2036-2216 | after any number of steps of the original the flat code is in the corresponding state |
| BytecodeRun.LinksEnd | src/ml_bytecode.c:594-597 | from any place on the walk a finite number of LINKs leads to the next instruction |
| BytecodeRun.LinkedFollows | src/ml_bytecode.c:2036-2216 | every number of steps of the flat code is matched by the original |
| BytecodeLabels.MarkTargets | src/ml_bytecode.c:1353-1389 | gives every target without a label the next number in 16 bits, in the order of the operands, without any limit on their number |
| BytecodeLabels.FindLabels | src/ml_bytecode.c:1391-1402 | the walk numbers the targets of all instructions in order; each has its own non-zero label if and only if there are fewer than 65536 distinct targets |
| BytecodeLabels.MarkAllOk | src/ml_bytecode.c:1350-1389 | labels stay distinct and non-zero as long as there are fewer than 65536 distinct targets |
| BytecodeLabels.LabelledExactly | src/ml_bytecode.c:1350-1402 | every target ends with a non-zero label of its own if and only if there are fewer than 65536 distinct targets |
| BytecodeLabels.LabelsWrap | src/ml_bytecode.c:1357 | the 65536th target is given the number zero, which means no label, and the one after it the label of the first |
| BytecodeLabels.LabelsRunOut | src/ml_bytecode.c:1357 | however labels are given, 65536 targets with a non-zero 16-bit label cannot all differ |
| BytecodeDecls.FindDecl | src/ml_bytecode.c:2001-2014 | the declaration and its outer scopes are each written once, and the index returned names its record |
| BytecodeDecls.ViewIsContent | src/ml_bytecode.c:2001-2014 | following the Next indices of the table from an index gives the declaration that index was issued for |
| BytecodeDecls.EmitNum | src/ml_bytecode.c:1914-1988 | appends the code of the number |
| BytecodeDecls.EmitString | src/ml_bytecode.c:1990-1994 | appends length and characters |
| BytecodeDecls.EmitRecord | src/ml_bytecode.c:2007-2011 | appends one declaration |
| BytecodeEncoder.Survey | src/ml_bytecode.c:2036-2106 | the first pass gives every label its linear offset, the size, the offset of Return and a complete table of declarations |
| BytecodeSerialise.EmitOps | src/ml_bytecode.c:2126-2215 | writes the operands with offsets and indices in place of pointers, and collects the constants |
| BytecodeSerialise.EmitInst | src/ml_bytecode.c:2120-2215 | writes a line delta only where the line changes, then opcode and operands |
| BytecodeSerialise.EmitCode | src/ml_bytecode.c:2112-2216 | the second pass writes the instructions of the walk without its LINKs |
| BytecodeSerialise.LabelsFindOffsets | src/ml_bytecode.c:2131 | the offset found through a label is that of the target itself |
| BytecodeSerialise.SameCode | src/ml_bytecode.c:2131 | so going through labels writes the same as writing offsets of targets |
| BytecodeSerialise.EmitHeader | src/ml_bytecode.c:2025-2035 | writes the header |
| BytecodeSerialise.Serialise | src/ml_bytecode.c:2023-2216 | the bytes and constants are those of the flat form of the closure |
| BytecodeDecoder.DecodeInsts | src/ml_bytecode.c:2368-2455 | on all bytes, malformed ones too, the loop gives the result of the reader specification |
| BytecodeDecoder.DecodeHeader | src/ml_bytecode.c:2329-2343 | the same for the header |
| BytecodeDecoder.DecodeRecords | src/ml_bytecode.c:2347-2355 | the same for the declarations |
| BytecodeDecoder.DecodeClosure | src/ml_bytecode.c:2322-2456 | the same for the whole; what the bytes mean is said by `BytecodeExamples`, and what the opcodes mean by `BytecodeDispatch.DecodedLands` |
| BytecodeExamples.JumpBytes | src/ml_bytecode.c:2381-2400 | a target is written before the counts of an instruction, a declaration after them |
| BytecodeExamples.CountBytes | src/ml_bytecode.c:2379-2440 | two counts come in order, before a declaration |
| BytecodeExamples.ConstantBytes | src/ml_bytecode.c:2404-2418 | a constant is taken from the list beside the bytes, its count from the bytes |
| BytecodeExamples.CallExample | src/ml_opcodes.c:81 | the bytes 8, 4, 96 are a call with two arguments and a return |
| BytecodeExamples.HeaderBytes | src/ml_bytecode.c:2025-2035 | the bytes of a header with small fields, version 5 first |
| BytecodeExamples.RecordBytes | src/ml_bytecode.c:2007-2011 | the bytes of a declaration: name, next, line, index, flags |
| BytecodeExamples.LineBytes | src/ml_bytecode.c:2120-2125 | an instruction on another line is announced by 21 and the distance, one on the same line is not |
| BytecodeExamples.ClosureBytes | src/ml_bytecode.c:2023-2123 | behind the header: declarations, scope, size, offset of RETURN, distance of the first line, instructions |
| BytecodeDispatch.FitsExactly | src/ml_opcodes.c:76-147 | of all opcodes and operands, the dispatch finds the operands it reads if and only if the layout is that of the opcode |
| BytecodeDispatch.StepLands | src/ml_bytecode.c:594-1135 | in every state an instruction of the byte code goes on behind the cells its operands take, at one of its targets, or at the handler; it changes the handler only to one of its targets |
| BytecodeDispatch.LeavesBehind | src/ml_bytecode.c:898-971 | an instruction that leaves the frame for good or suspends it reads the cells of its operands and no more |
| BytecodeDispatch.DecodedFilled | src/ml_bytecode.c:2368-2455 | decoded code, whatever the bytes were, holds only instructions that fit their opcodes, one directly behind the other |
| BytecodeDispatch.DecodedLands | src/ml_bytecode.c:2322-2456 | every instruction of a decoded closure dispatches with exactly its operands, and each step of it leads to the instruction behind it, a target or the handler |
| BytecodeDecoder.WriteAndRead | src/ml_bytecode.c:2023-2456 | writing any closure that fits the format and reading it back succeeds, with the same header and, at the image of each instruction, the same opcode, counts, constants, line and mapped targets |
| BytecodeDecoder.WrittenFaithfully | src/ml_bytecode.c:2131-2216 | if every target is visited by the walk, each coded target is the offset of the original one and each index names its declaration |
| BytecodeDecoder.CopyFollows | src/ml_bytecode.c:2023-2456 | for every meaning of the instructions and every number of steps the copy, started anew, is where the original is |
| BytecodeDecoder.OriginalFollows | src/ml_bytecode.c:2023-2456 | and the original gets wherever the copy gets |
| BytecodeDecoder.TargetKeptExactly | src/ml_bytecode.c:2131 | a target on the walk keeps its place if and only if it is not Halt, or there are no instructions |
| BytecodeDecoder.JumpToHaltLost | src/ml_bytecode.c:1395 | a jump to Halt that is coded as a jump to the start |
| BytecodeDecoder.DeclKeptExactly | src/ml_bytecode.c:2183 | a declaration operand keeps its meaning if and only if it is not NULL, or no declaration was written |
| FrameMachine.StepKeeps | src/ml_bytecode.c:256-278 | for every instruction, those that leave the frame included, an error is in Result at a check of the counter only if the next instruction is the current handler |
| FrameMachine.LeaveKeeps | src/ml_bytecode.c:837-975 | the instructions that leave the frame to call, iterate, assign, resolve or append leave a state that can be entered again with any result, an error included |
| FrameCells.StepOnward | src/ml_bytecode.c:594-1135 | in every state each instruction goes on behind the cells the compiler allocates for it, at an address it names, or at the handler; it changes the handler only to an address it names |
| FrameRunner.Frame.FrameRun | src/ml_bytecode.c:569-592 | one slice on the frame's fields computes the slice specification over the steps of the machine, which `ExpressionCorrect.Correct` relates to what expressions mean; saved fields are the state to go on from, the line saved is that of the next instruction or of the one that called out, and the trace entries added are the specified ones |
| FrameSlices.DispatchCounts | src/ml_bytecode.c:233-254 | a slice that uses up its counter has dispatched exactly as many instructions as the counter said, LINKs not counted |
| FrameSlices.CheckedCounts | src/ml_bytecode.c:243-254 | from the entry of a frame it is one less, and a counter of 0 stands for 2^64 |
| FrameSlices.RaisedAtLine | src/ml_bytecode.c:703-706 | the trace of an error that an instruction raises begins with the line of that instruction |
| FrameSlices.CaughtForCallers | src/ml_bytecode.c:708-711 | where an error is caught its trace goes on with the frames that wait, innermost first, while there is room |
| FrameRunner.TracesGrow | src/ml_bytecode.c:275 | trace entries already there stay through any slice |
| FrameRunner.DispatchIsRun | src/ml_bytecode.c:256-272 | a slice is a run of the machine without scheduler, and what it leaves can be resumed |
| FrameRunner.CheckedIsRun | src/ml_bytecode.c:243-254 | the same from a check of the counter, including the wrap of a counter of zero |
| FrameRunner.SlicesAreInvisible | src/ml_bytecode.c:1195-1201 | for every sequence of counters and whatever the called functions, iterators and assignments answer, the sliced run is where some unsliced run is, which has made progress in every slice with a counter other than one |
| FrameRunner.SameResult | src/ml_bytecode.c:1195-1201 | a program that finishes unsliced finishes with the same result under every schedule with enough useful slices |
| FrameTraces.TracesWoven | src/ml_bytecode.c:583-586 | under every schedule the trace of each error that has not reached its limit of 16 is the trace without a scheduler with lines of handlers in between |
| FrameTraces.EndTracesWoven | src/ml_bytecode.c:583-586 | so are the traces at the end of a program that finishes |
| FrameTraces.DispatchAdds | src/ml_bytecode.c:256-278 | a slice adds to the traces what its steps add |
| FrameRunner.CounterOfOne | src/ml_bytecode.c:590-591 | a schedule of counters of one never advances |
| FrameRunner.SwapShowsExactly | src/ml_bytecode.c:583-586 | a swap at a check of the counter changes where the frame goes on if and only if an error is in Result and the next instruction is not the handler |
| FrameRunner.OnlyCatchXShows | src/ml_bytecode.c:594-1135 | where errors are dealt with at once, an instruction leads to such a check if and only if it is a CATCHX with an error whose handler is not the next instruction |
| FrameRunner.CatchXShowsPreemption | src/ml_bytecode.c:719-730 | a program with CATCHX whose result depends on the schedule |
| ExpressionLayout.SizeIs | src/ml_compiler.c:167-182 | the code emitted for an expression takes the same number of cells wherever it stands |
| ExpressionCorrect.Correct | src/ml_compiler.c:293-3465 | for every expression of the modelled syntax, in every state: a run from the first instruction of its code reaches its exit with the evaluator's value, and stack and handler as they were; or the handler with the evaluator's error and the stack at least as high; or, while the evaluator needs more than `fuel` rounds of loops, it is still running after as many steps |
| ExpressionCorrect.LeafCorrect | src/ml_compiler.c:293-313 | nil, constants and locals |
| ExpressionCorrect.PushCorrect | src/ml_compiler.c:293-313 | code that pushes its value leaves the stack one higher, with the value on top |
| ExpressionCorrect.NegationCorrect | src/ml_compiler.c:553-569 | `not` |
| ExpressionCorrect.ConjunctionCorrect | src/ml_compiler.c:480-505 | `and`, and `if` without `else`: the right side runs only if the left is not nil |
| ExpressionCorrect.DisjunctionCorrect | src/ml_compiler.c:453-478 | `or`: the right side runs only if the left is nil |
| ExpressionCorrect.AlternativeCorrect | src/ml_compiler.c:323-434 | `if` with `else`, hence chains of cases |
| ExpressionCorrect.SequenceCorrect | src/ml_compiler.c:1604-1613 | expressions one after the other |
| ExpressionCorrect.BindingCorrect | src/ml_compiler.c:927-994 | `with`: the locals are on the stack in the body and gone after it |
| ExpressionCorrect.SelectionCorrect | src/ml_compiler.c:579-617 | `switch`: the case with the number, the last one for every other number, an error for what is no integer |
| ExpressionCorrect.ApplicationCorrect | src/ml_compiler.c:2061-2101 | calls of values, constants and methods ask for the function with its arguments in order |
| ExpressionCorrect.GuardedCorrect | src/ml_compiler.c:2326-2353 | a guard that is nil drops what was pushed for the call and makes it nil |
| ExpressionCorrect.LoopCorrect | src/ml_compiler.c:1015-1102 | `for` over values, or keys and values, of whatever iterator |
| ExpressionCorrect.RoundsCorrect | src/ml_compiler.c:1015-1033 | one round after the other, until the iterator is nil |
| ExpressionCorrect.AssignmentCorrect | src/ml_compiler.c:1783-1841 | assignment to a local or to a computed target, with `old` for the target |
| ExpressionCorrect.ResolutionCorrect | src/ml_compiler.c:2872-2889 | `value::name` |
| ExpressionCorrect.TextCorrect | src/ml_compiler.c:3070-3141 | a string literal: its pieces and values go into one buffer in order |
| ExpressionCorrect.RescueCorrect | src/ml_compiler.c:1604-1688 | `on`: an error of the body runs the handler with the error as a local and the stack cut to what it was; after either the outer handler is in force again |
| ExpressionCorrect.FinallyCorrect | src/ml_compiler.c:1542-1583 | `must`: it runs after the body, and on the way out with an error; if it fails after a body that succeeded, it is run once more |
| ExpressionProgram.ProgramRuns | src/ml_compiler.c:216-227 | a frame whose code is an expression and a RETURN ends with its value or its error, or runs as long as its loops do |
| ExpressionProgram.ProgramExactly | src/ml_compiler.c:216-227 | it ends with a value or an error if and only if the evaluator answers it with some number of rounds, and never reaches undefined behaviour |
| ExpressionProgram.NilAndCode | src/ml_compiler.c:480-505 | the code of `nil and 7` |
| ExpressionProgram.NilAndSeven | src/ml_bytecode.c:634-636 | a frame with this code ends with nil and with nothing else |
| ExpressionProgram.RescueExample | src/ml_compiler.c:1671-1688 | the code of a block with a handler, address by address |
| ExpressionBytes.WidthIsCells | src/ml_compiler.c:167-182 | the compiler reserves for each instruction the cells that the decoder counts for its operands |
| ExpressionBytes.BytesCompute | src/ml_bytecode.c:2023-2456 | the instructions of a compiled expression, written as bytes and constants and read back: that succeeds, and a frame that runs the decoded code ends exactly with what the evaluator answers |
| CborDecoder.ReaderIsDecoder | src/ml_cbor.c:332-419 | on every definite-length item the two-stack machine ends with the outcome of the recursive decoder, and with empty stacks |
| CborDecoder.ItemComputed | src/ml_cbor.c:287-419 | the same for an item inside any stacks and before any further heads: tag data in pre-order, handlers innermost first |
| CborDecoder.NamespaceRestores | src/ml_cbor.c:243-259 | an item under tag 296 is read as if nothing had been shared before it, and the outer table is back, entry for entry, when it is complete; 296 is stated literally |
| CborDecoder.NameRead | src/ml_cbor.c:234-238 | at any place in a stream: tag 29 with a known name has the effect of the value with that name, with an unknown one reading ends in that error; objects and table stay as they are |
| CborDecoder.IndexRead | src/ml_cbor.c:223-233 | tag 29 with an index gives the value that is there; with the index of no entry, or with anything but an index or a name, reading ends in an error |
| CborDecoder.OtherTagSkipped | src/ml_cbor.c:379-388 | a tag without a function is as good as not there, at any place in a stream |
| CborItem.PutLooksUp | src/ml_cbor.c:320-321 | putting a pair into a map changes what its key leads to and nothing else |
| CborItem.PutKeepsKeys | src/ml_cbor.c:320-321 | keys stay in the order in which they came |
| CborGraph.Find | src/ml_cbor.c:796-807 | the search ends on every finite graph, cyclic or not, and keeps what it has found, within the graph |
| CborReach.FindSound | src/ml_cbor.c:796-807 | what the search adds is connected to its start by a path of references |
| CborReach.FindClosed | src/ml_cbor.c:796-807 | everything referred to by what it adds is found as well |
| CborReach.FindTally | src/ml_cbor.c:796-803 | an object becomes reused exactly when a second reference to it is counted, at any point of the search |
| CborReach.NamesFindLess | src/ml_cbor.c:839-846 | what is shared among the objects that are written in full is found as shared by the search, which looks into named objects as well |
| CborReach.SearchIsExact | src/ml_cbor.c:796-807 | on every graph the search finds exactly the objects on paths from the root, and marks as reused exactly those with two references or more from reached objects and the root |
| CborGraph.PassesAgree | src/ml_cbor.c:827-838 | the writing pass reaches the same objects in the same order as the search, and each object reached twice has a tag-28 index exactly once it has been written |
| CborReach.WriteOrder | src/ml_cbor.c:814-858 | from any state of the search the writer emits the bodies of the containers met for the first time, in the order of the search |
| CborReach.HeadsBodies | src/ml_cbor.c:814-858 | the bodies in the heads of a tree are those of its nodes |
| CborReach.WrittenOnce | src/ml_cbor.c:867-886 | for every graph, keys ready or not, and every choice of objects with a name, the heads hold one array or map head for each reached object that is written in full, no object twice |
| CborTrace.Enter | src/ml_cbor.c:835-837 | a container met for the first time: writer and reader agree on its index, the heap and the table stay in step |
| CborTrace.PutItem | src/ml_cbor.c:315-316 | adding an element keeps reader and graph in step |
| CborTrace.PutPair | src/ml_cbor.c:320-321 | so does adding a pair, whose key is new |
| CborTrace.Leave | src/ml_cbor.c:215-221 | completing a container resolves the placeholders that were handed out for it |
| CborTrace.Again | src/ml_cbor.c:223-232 | a tag-29 index that is written is already allocated, and gives the container or its placeholder |
| CborTrace.Meet | src/ml_cbor.c:839-846 | an object that has a name: writer and reader agree on its index, and every reference to it reads as the value with the name |
| CborRoundTrip.ItemBack | src/ml_cbor.c:814-858 | at any point inside a graph, decoding what the writer emits for a value continues the correspondence |
| CborRoundTrip.NameBack | src/ml_cbor.c:839-846 | a value written as its name comes back as the value with the name |
| CborRoundTrip.NamedBack | src/ml_cbor.c:834-846 | so does an object with a name, under its index if it is shared |
| CborExact.RoundTrip | src/ml_cbor.c:867-886 | for every finite graph and every choice of names that the reader knows, with keys that are complete when used: reading back gives the graph with the same sharing, in which each named object is the value with its name |
| CborExact.RoundTripExactly | src/ml_cbor.c:867-886 | a graph, named objects included, comes back isomorphic if and only if no map has as key a container that is still being read at that point |
| CborExact.GraphBack | src/ml_cbor.c:814-858 | the same for any set of objects that are given an index, as long as it covers those met twice |
| CborExact.SharedList | src/ml_cbor.c:867-886 | the heads of a list that holds another one twice: tag 28 and the list, then tag 29 and 0 |
| CborExact.LeafKeysReady | src/ml_cbor.c:967-1000 | in particular whenever keys are atoms |
| CborExact.OwnKeyLost | src/ml_cbor.c:321 | a map that is its own key does not satisfy the condition |
| CborWriter.Writer.RefFn | src/ml_cbor.c:796-803 | first visit: reached; second visit: also reused; tells whether to go on |
| CborWriter.Writer.FindRefs | src/ml_cbor.c:805-807 | with the recursion of lists and maps it computes the search |
| CborWriter.Writer.Share | src/ml_cbor.c:835-837 | takes the next index and writes tag 28 |
| CborWriter.Writer.Write | src/ml_cbor.c:814-858 | writes the heads of exactly the tree that the graph writer specifies; every container in full once, later by index; a named value by its name |
| CborWriter.Writer.EmitName | src/ml_cbor.c:839-846 | tag 29 and the name |
| CborWriter.Writer.WriteList | src/ml_cbor.c:962-965 | a list with its elements |
| CborWriter.Writer.WriteMap | src/ml_cbor.c:967-1000 | a map with its keys and values, with and without reused keys |
| CborWriter.Writer.WriteKey | src/ml_cbor.c:970-992 | a key in either mode |
| CborWriter.Writer.WriteString | src/ml_cbor.c:971-989 | short keys plain; a long key shared on first use and referred to later, from the same counter as containers |
| CborReader.Reader.MarkAsReused | src/ml_cbor.c:215-221 | fills the slot and resolves its placeholder wherever it was stored |
| CborReader.Reader.UsePreviousValue | src/ml_cbor.c:223-241 | index, global name or error; an empty slot gets a placeholder |
| CborReader.Reader.Handle | src/ml_cbor.c:287-303 | one pending tag handled |
| CborReader.Reader.HandleTags | src/ml_cbor.c:293-309 | the loop over the records of pending tags handles them innermost first, stopping at an error, and ends at the last record, where the list is recycled |
| CborReader.Reader.ValueHandler | src/ml_cbor.c:287-330 | a value goes through its tags into its collection; a completed collection is a value in turn; records and free lists stay valid |
| CborReader.Reader.DeliverValue | src/ml_cbor.c:309-329 | with its tags recycled the value becomes the result, an element, a key or a pair |
| CborReader.Reader.CountDown | src/ml_cbor.c:316-327 | the collection waits for more, or is popped |
| CborReader.Reader.CollectionPop | src/ml_cbor.c:273-283 | the recursion between pop and handler ends with the stack of records |
| CborReader.Reader.OpenCollection | src/ml_cbor.c:359-378 | a container of definite length is opened, or handled at once if empty |
| CborReader.Reader.Event | src/ml_cbor.c:337-416 | one head of the stream |
| CborReader.Reader.Read | src/ml_cbor.c:332-419 | any stream of heads, well formed or not, through the records and free lists of the reader, which stay valid in every run |
| CborReader.Encode | src/ml_cbor.c:867-886 | the search and the writing pass together give the heads of the encoded graph |
| CborReader.DecodeValue | src/ml_cbor.c:332-419 | a fresh reader on any stream of heads gives the value and the objects of the machine |
| CborReader.EncodeAndDecode | src/ml_cbor.c:867-886 | running the writer, with names for some objects, then the reader: isomorphic graph if and only if the keys are ready |
| CborPools.Pools.PushTag | src/ml_cbor.c:379-388 | a tag record from the free list or a new one becomes the innermost pending tag; all lists stay acyclic and disjoint |
| CborPools.Pools.RecycleTags | src/ml_cbor.c:304-308 | the whole list of handled tags goes to the free list; no list shares a record |
| CborPools.Pools.PushCollection | src/ml_cbor.c:261-269 | a collection record takes over the pending tags and becomes the top of the stack |
| CborPools.Pools.PopCollection | src/ml_cbor.c:273-282 | the top is recycled, its saved tags are pending again and its container is returned, whatever was pending before |
| CborPools.Pools.SetTop | src/ml_cbor.c:315-328 | changing key and count of the top leaves everything else |
| CborPools.Pools.Top | src/ml_cbor.c:310-328 | key, container and count of the top record are those of the stack |
| CborPools.StacksEnd | src/ml_cbor.c:291-310 | a NULL pointer means an empty stack, and the chain of tag records is the list of pending tags |
| ArrayViews.RearrangedAddress | src/ml_array.c:733 | an index of a permuted view has the address of the permuted index |
| ArrayViews.UnpermutedDenotes | src/ml_array.c:733 | every index of a permuted view denotes an index of the source |
| ArrayViews.DenotesUnique | src/ml_array.c:733 | and only one |
| ArrayViews.ReversedAddress | src/ml_array.c:815-824 | an index of a reversed view has the address of the mirrored index, strided or indexed |
| ArrayViews.ReversedTwice | src/ml_array.c:815-824 | reversing twice gives the view back |
| ArrayShapes.RowMajorOffset | src/ml_array.h:62-65 | row-major strides turn an index into its flattened number times the element size |
| ArrayShapes.FlattenedBound | src/ml_array.c:685-687 | the flattened number is below the product of the sizes |
| ArrayShapes.RootAddress | src/ml_array.h:62-65 | every index of an array's own dimensions is inside its buffer |
| ArrayShapes.SplitAddress | src/ml_array.c:884-896 | an index of a split view has the address of the index with the pieces flattened |
| ArrayShapes.JoinAfterSplit | src/ml_array.c:916-930 | join undoes split |
| ArrayShapes.SplitAfterJoin | src/ml_array.c:916-930 | splitting a joined axis into its old sizes gives the view back if and only if the joined axes were row-major to each other |
| ArrayShapes.DiagAddress | src/ml_array.c:1663-1678 | an index of the diagonal has the address of the index with its last entry repeated |
| ArrayIndexing.SelectAddress | src/ml_array.c:1531-1562 | for every list of items an index of the sub-array has the address of the index it denotes |
| ArrayChain.TransposedTwice | src/ml_array.c:690-698 | transposing twice gives the view back |
| ArrayChain.SwappedTwice | src/ml_array.c:796-798 | swapping two axes twice gives the view back |
| ArrayChain.DenotedRearranged | src/ml_array.c:690-800 | transpose, permute and swap rearrange the axes by their permutation, and an index denotes the one whose entries stand at the places the permutation names |
| ArrayChain.ApplyAddress | src/ml_array.c:690-1680 | each view operation: every index of the result has the address of the index of the argument that it denotes |
| ArrayChain.ChainAddress | src/ml_array.c:690-1680 | every finite chain of view operations: every index has the address of the index of the first view that it denotes through the chain |
| ArrayChain.ViewsStayInside | src/ml_array.c:690-1680 | for every chain on an array an index denotes an index inside the array's sizes, and addresses the cell with its flattened number, inside the buffer |
| ArrayChain.PermuteSucceedsExactly | src/ml_array.c:717-737 | `permute` succeeds if and only if the list is an arrangement of the axes and there are at most 30; from 31 to 64 axes it is undefined, because the 32-bit shift overflows |
| ArrayChain.WidePermutation | src/ml_array.c:724 | 32 axes of size one: even the identity is undefined |
| ArrayConstructors.TransposeArray | src/ml_array.c:690-698 | the loop builds the transpose |
| ArrayConstructors.PermuteArray | src/ml_array.c:717-770 | errors, undefined degrees and the permuted view are those of the specification |
| ArrayConstructors.PickAxes | src/ml_array.c:724-735 | up to 30 axes the bit set accepts exactly the arrangements of the axes, and picks their dimensions |
| ArrayConstructors.SwapArray | src/ml_array.c:787-800 | builds the swapped view, errors exactly on axes out of range |
| ArrayConstructors.ReverseArray | src/ml_array.c:808-825 | builds the reversed view |
| ArrayConstructors.SplitArray | src/ml_array.c:869-897 | builds the split view, errors exactly on bad axes, sizes, products and indexed dimensions |
| ArrayConstructors.JoinArray | src/ml_array.c:900-932 | builds the joined view, errors exactly on bad axes, runs and indexed dimensions |
| ArrayConstructors.JoinedSize | src/ml_array.c:922-927 | the loop multiplies the sizes of the run, or meets an indexed dimension |
| ArrayConstructors.JoinedAfterSplit | src/ml_array.c:869-932 | for all arguments of a `split` that succeeds, `join` of the new axes gives the view back |
| ArrayConstructors.PickEntries | src/ml_array.c:1050-1104 | an index list: rejected exactly if empty or out of range, otherwise relative to its first entry |
| ArrayConstructors.IndexTuple | src/ml_array.c:1193-1208 | an integer tuple moves the base like its integers one by one |
| ArrayConstructors.IndexArray | src/ml_array.c:1531-1575 | the loop over all index items builds the selected view, `nil` or an error; which entries they are is said by `ArrayNumbering` |
| ArrayNumbering.AtCounts | src/ml_array.c:1041-1046 | along an axis of size n an integer selects a cell if and only if it is one of 1..n or -1..-n, each the cell it names; every other integer gives nil |
| ArrayNumbering.AtAddress | src/ml_array.c:1041-1049 | the integer i leads to entry i - 1, at any axis and any index of the others |
| ArrayNumbering.AtFromEnd | src/ml_array.c:1041-1049 | the integer -i selects what i selects in the array reversed along the axis |
| ArrayNumbering.RestKeeps | src/ml_array.c:1531-1562 | `..` keeps the axes that the items behind it leave |
| ArrayNumbering.KeepsFront | src/ml_array.c:1531-1562 | `*` keeps an axis as it is |
| ArrayNumbering.TupleIsAts | src/ml_array.c:1193-1208 | a tuple is its integers one after the other |
| ArrayNumbering.TupleCounts | src/ml_array.c:1193-1208 | it selects something if and only if each of its integers counts along its axis |
| ArrayNumbering.PickCounts | src/ml_array.c:1050-1104 | a list selects something if and only if it has entries and all of them count |
| ArrayNumbering.PickAddress | src/ml_array.c:1050-1104 | entry j of the selection is what the j-th integer of the list selects by itself |
| ArrayNumbering.BetweenCounts | src/ml_array.c:1162-1191 | an interval selects something if and only if both bounds count and the second is not before the first by more than one entry |
| ArrayNumbering.BetweenAddress | src/ml_array.c:1162-1191 | and entry j of it is j entries behind the first bound |
| ArrayNumbering.ReverseAxis | src/ml_array.c:808-825 | axis i is the i-th, axis -i is n + 1 - i, anything else an error |
| ArrayNumbering.SwapAxes | src/ml_array.c:787-800 | the same for both axes of a swap |
| ArrayNumbering.SplitAxis | src/ml_array.c:869-897 | and of a split |
| ArrayNumbering.JoinAxis | src/ml_array.c:900-932 | and of a join |
| ArrayNumbering.PermuteAxes | src/ml_array.c:717-770 | `permute` succeeds if and only if each axis is named once, and entry k of the list names the axis that becomes axis k |
| ArrayUpdate.UpdateRow | src/ml_array.c:2101-2108 | the innermost loop performs the writes of one row in order |
| ArrayUpdate.UpdateArray | src/ml_array.c:2101-2141 | the recursion over both dimension lists, in its four combinations, performs exactly the specified writes |
| ArrayUpdate.UpdatePrefix | src/ml_array.c:2143-2158 | the broadcasting recursion too |
| ArrayBroadcast.IndicesDistinct | src/ml_array.c:2101-2158 | the enumeration of indices has no repeats |
| ArrayBroadcast.IndicesComplete | src/ml_array.c:2101-2158 | and misses none |
| ArrayBroadcast.PrefixIsList | src/ml_array.c:2143-2158 | the writes are those of that enumeration: each target index once, with its source index |
| ArrayBroadcast.UpdateMeaning | src/ml_array.c:2143-2158 | with injective target addressing and disjoint source each target cell becomes op(target, source) and nothing else changes |
| ArrayBroadcast.UpdateArrayFn | src/ml_array.c:2160-2180 | incompatible exactly if the source does not fit the end of the target's shape, then nothing is written; undefined exactly if a source of degree zero meets a target of higher degree with a cell; otherwise the broadcast update |
| ArrayBroadcast.PastTheDimensions | src/ml_array.c:2143-2158 | with all axes in the prefix the recursion reads past the last dimension if and only if no axis is empty |
| ArrayBroadcast.UpdateScalar | src/ml_array.c:2276-2290 | a scalar through a prefix of degree minus one updates every cell of the target and no other |
| ArrayCbor.FlatIsElements | src/ml_array.c:8764-8775 | for contiguous dimensions the raw bytes are the row-major elements |
| ArrayCbor.FlatPart | src/ml_array.c:8761-8775 | the loop finds a contiguous suffix with its size in bytes, and the size of the whole |
| ArrayCbor.WritePieces | src/ml_array.c:8691-8708 | raw writes below and recursion above give the naive enumeration of elements |
| ArrayCbor.WriteArray | src/ml_array.c:8729-8796 | the bytes written are the row-major elements, exactly as many as announced, under the tag of the format, with the shape unless the degree is one |
| ArrayCbor.ReadArray | src/ml_array.c:8798-8830 | a typed or multi-dimensional item becomes a row-major array, or an error exactly if sizes and bytes do not fit |
| ArrayCbor.ElementAt | src/ml_array.c:8691-8708 | the element of an index stands in the output at its flattened position |
| ArrayCbor.TagsMatch | src/ml_array.c:8730-8741 | every format is recognised by its tag, as in section 2 of RFC 8746 |
| ArrayCbor.WriteAndRead | src/ml_array.c:8729-8830 | whatever view of whatever array is written, reading back gives the same shape and the same elements, in row-major order |
| ArrayNumbers.TagLayout | src/ml_array.c:8730-8741 | the bits of each tag say whether the format is a float, signed, little-endian, and how long an element is (section 2.1 of RFC 8746); this length is the one that is written and read |
| ArrayNumbers.BytesDenote | src/ml_array.c:8730-8741 | the bytes of an element denote, by the bits of the tag, a number in the literal range of the format |
| ArrayNumbers.EveryNumber | src/ml_array.c:8730-8741 | every number of that range has bytes of this length |
| ArrayNumbers.NumberInjective | src/ml_array.c:8730-8741 | and only one sequence of them |
| ArrayNumbers.WriteAndReadNumbers | src/ml_array.c:8729-8830 | writing and reading back gives at each index the number that was there, by the tag that was written |

## Left out

Hash table:

- Inthash.Table.Insert: requires a non-zero key, because key 0 marks empty slots, and that a table of 2^31 slots need not grow, because the 32-bit size cannot double then (`Inthash.RoomToInsert`).
- Inthash.Build: at most MAX_COUNT different keys, for the same reason.
- Memory allocation failure; `Values` are words, and NULL is the word 0.

Linear algebra and permutations:

- Rounding: entries are exact reals, DBL_EPSILON is the exact number 2^-52. The complex variants repeat the same loops.
- `ml_array_copy` in front of the decompositions is a copy of a matrix value; its treatment of permuted or sparse views is not modelled.
- LinearAlgebra.Determinant2: reads the matrix as rows of values, without the indexed dimensions and without the dynamic dispatch of the arithmetic.
- LinearAlgebra.DetReal: requires at least one row, because the source reads `A[0][0]` of an empty matrix.
- Permutations.RandomPermutation: takes the accepted draws as input; `random()` and its rejection loop are not modelled, nor are the quality of the numbers or sizes below one, for which the source returns an error.
- Permutations.RandomCycle: as for random permutations.
- `ml_values_order` and its indexed forms.

Bytecode:

- Vlq.EncodePreservesOrder: does not cover the nine-byte arm, for which `Vlq.EncodeOrderExactly` gives the order.
- BytecodeDecoder.WriteAndRead: requires what the format can hold: fewer than 65536 distinct jump targets (labels have 16 bits, see `BytecodeLabels.LabelledExactly`), offsets and table indices below 2^31, operands in their C types, known names of configuration functions.
- BytecodeDecoder.CopyFollows: requires that every jump target is on the walk from Entry to Halt and not Halt itself, that LOCALI has a declaration and that Return is a visited instruction.
- `EndLine`, the code hash, JIT data and breakpoints; the disabled bytecode checker; serialisation of frames.
- The table of parameter names is a list, the string buffers are byte sequences, constants are identities that travel beside the bytes.
- The hash tables for labels and declarations inside the serialiser are finite maps, as `Inthash` justifies.
- Reading a closure whose operands point outside the code: the decoder stores the offsets without checking, and so does the model.

Frame runner:

- SUSPEND, RESUME and tail calls (`BytecodeDispatch` counts their operands only), the debugger and the timer-driven variant of the scheduler. The method cache of CALL_METHOD and the dereferencing in FOR and ASSIGN belong to the service that is asked for.
- Instructions other than control flow, stack and error handling are arbitrary deterministic primitives; dereferencing of results is part of them. That no instruction but CATCHX and a call puts an error in Result without raising it, and that constants and values pushed are no errors, is read off the source and built into their types.
- FrameRunner.SlicesAreInvisible: excludes CATCHX, which goes on with an error in Result, so that a new slice enters the handler instead (`FrameRunner.CatchXShowsPreemption`). Error traces are kept apart from the state, and no modelled instruction reads them. A frame entered again with an error adds the line of its handler; `FrameTraces.TracesWoven` leaves open what a trace holds once it is full.
- Other threads and other frames that share the heap.

Expressions:

- ExpressionCorrect.Correct: the code stands in one piece. The compiler allocates chunks of 128 cells and connects them with LINKs; that code with and without its LINKs runs alike is `BytecodeDecoder.CopyFollows`.
- ExpressionProgram.ProgramExactly: a call in the place of the result is emitted as CALL and RETURN, where the compiler emits a tail call.
- ExpressionBytes.BytesCompute: takes the list of instructions whose dispatch gives the compiled code; the machine finds the decoded instructions at their offsets.
- Declarations in blocks (`var`, `let`, `ref`, `def`), functions and their upvalues, `loop`, `exit`, `next`, `return`, `each`, `susp`, `debug`, lists, maps, tuples, partial application, macros, inline calls, unpacking.
- Compile-time evaluation: identifiers that are not local and names that resolve at compile time are constants of the syntax. What the compiler rejects is outside `Expressions.Scoped`.

CBOR:

- Bytes of heads, indefinite-length items, breaks, malformed input, bytes left over after the value, big and decimal numbers, addresses, regular expressions, tuples and objects. A value of another kind needs a name that the reader knows; what to do with one without a name is the caller's choice in the source. Tags other than 28, 29 and 296 are dropped, as the source does with tags it has no function for.
- CborTrace.PutPair: compares map keys that are containers by identity and strings by content; keys of a map in a graph are distinct.
- `ml_uninitialized_set` is modelled by what it does to lists and maps: each place that holds the placeholder receives the value. Its slots and its chains of placeholders are not modelled.
- The streaming decoder over several messages.
- CborPools.Pools: records are tables from addresses; allocation gives a new address.

Arrays:

- ArrayConstructors.PermuteArray: says nothing about the result from 31 to 64 axes, where the shift of the source is undefined; integers in the list only.
- ArrayConstructors.IndexArray: ranges with a step, boolean masks, permutations and lists of tuples as indices are not modelled.
- ArrayConstructors.JoinArray: indices of a joined view are not related to those of its source where the joined axes are not row-major to each other, as the source does not check for it.
- `expand`, iteration, concatenation, comparison, `ml_array_copy_data` and `array_flatten_to`.
- ArrayBroadcast.UpdateArrayFn: one element type; says nothing about the result when two target indices share a cell or source and target overlap; a source of degree zero under a target of positive degree with a cell is reported as undefined, because the source then reads past the dimensions of the target; `array::nil` operands are returned unchanged by the source and not modelled.
- ArrayCbor.WriteArray: element formats of fixed width; arrays of arbitrary values (tag 41), complex formats and `array::nil` are not modelled.
- ArrayCbor.ReadArray: sizes in the shape are natural numbers.
- Sizes and strides of 2^31 and more.
