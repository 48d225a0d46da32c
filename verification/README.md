# Verified model of the signature verification accelerator

The repository is a hardware verifier for batches of Ed25519 signatures, with the host software that
feeds it. This project models it from the field multiplier up to the host call, and proves that each
layer does what the next one relies on.

| layer | modules |
|---|---|
| field arithmetic modulo 2^255 - 19 | `Bits`, `Field`, `FeAux`, `FeMul`, `FeMulWide`, `FieldMultiplier` |
| the field and the curve as mathematics | `Primes`, `FieldPrime`, `PrimeField`, `Associativity`, `CompleteLaw`, `CurveGroup` |
| points of the curve | `Curve`, `PowChain`, `Decompress`, `DecodeComplete`, `PointCore`, `BaseTable` |
| scalars | `ScalarWnaf`, `ScalarReduce` |
| SHA-512 | `Sha512`, `Sha512Hash`, `Sha512Vector`, `Sha512Stream` |
| verification | `Group`, `Verdict`, `SmallOrderList`, `VerifyEngine` |
| batches | `BatchSpec`, `BatchInvariant`, `BatchRuns`, `BatchTimeouts`, `BatchCore` |
| registers and system | `AxiRegs`, `System` |
| host | `Payload`, `Daemon`, `StaleSettings`, `EndToEnd`, `TransactionFormat`, `Parser`, `TransactionBytes` |

A clocked module is a class whose fields are its registers, with a method for a clock edge or for the
run from start to done. The arithmetic of a register is written with its width, by `%` a power of two,
wherever the proof has not shown that nothing overflows. The classes are proved against functions, and
the theorems are about those functions: the compression function of FIPS 180-4, the reduced product, the
signed-digit recoding, the verdict of section 5.1.7 of RFC 8032, the transition of the batch core.
`dafny verify dfyconfig.toml` verifies the project.

## The curve

Nothing is assumed about the curve. `FieldPrime.FieldIsPrime` proves the field prime prime, and
`FieldPrime.DIsNoSquare` that d is not a square; so the addition and doubling sequences never reach z = 0
(`CompleteLaw.AddComplete`), decoding finds a point whenever there is one (`DecodeComplete.DecodesIff`),
and the small-order list has exactly the points of order 1, 2, 4 and 8 that are not written as negative
zeros (`SmallOrderList.ListIsSmallOrder`). `Associativity.Associates` proves the addition law associative,
and `CurveGroup.CurveIsGroup` makes the points a commutative group. The lemmas about the engine are stated
over any reading of points in a group (`Verdict.Interprets`); `CurveGroup.CurveInterprets` shows that the
group of the curve is one, and `VerifyEngine.Engine.Verify` states the verdict in that group.

## Where the code is not what it looks like

* The deployed wide multiplier can lose 2^51 from a product (`FeMulWide.InexactExample`). Its exact
  condition is `FeMulWide.ProductExactIff`, or `FeMulWide.ExactUnlessSpills` in terms of the sum before
  the carry passes. The point core is modelled over either multiplier of the repository, which have the
  same ports. With the narrow one every theorem about points and verdicts holds in every run; with the
  wide one, in every run in which no product of that run met that condition (`PointCore.Core.Exact`, which
  `VerifyEngine.Engine.Verify` sets anew). Registers left off the curve by an earlier run do not matter.
* Decompression accepts x = 0 with the sign bit set and reduces a non-canonical y, where section 5.1.3 of
  RFC 8032 has both fail (`Decompress.NegativeZeroAccepted`, `Decompress.NonCanonicalAccepted`). The exact
  difference is `Decompress.AgreesWithRfcIff`. The small-order list of
  the strict mode does not have the negative zeros either (`Verdict.ListMissesNegativeZeros`); it misses
  no other point of small order (`SmallOrderList.ListIsSmallOrder`).
* 256 recoding steps are not enough for every 256-bit scalar (`ScalarWnaf.AllOnesNotExhausted`). No scalar
  the engine recodes can fail: they are below the group order, and every scalar up to 2^255 is exhausted
  (`ScalarWnaf.RecodesScalars`).
* After a deadline has passed, the core may still be busy. The next request then writes its payload, its
  setting writes are dropped until the old batch ends, and its command is taken: the answer has the
  expected batch id, but is for settings of the earlier request. `StaleSettings.StaleAnswer` says so for
  every such run, and `StaleSettings.StaleAnswerHappens` gives the runs from reset. From a core that is
  not busy the answer is for the request (`Daemon.Accelerator.VerifyBatch`).
* The Rust parser compares the signature count as a byte, so it disagrees with the Python one on some
  inputs with more than 255 signatures (`Parser.AgreeIff`, `Parser.DisagreementExample`).

## Model

| member | source | states |
|---|---|---|
| `FeAux.AddExactIff` | fpga/rtl/fe25519_aux_core.v:27-31 | the adder returns the reduced sum if and only if the operands add up to less than 2p |
| `FeAux.SubExactIff` | fpga/rtl/fe25519_aux_core.v:33-34 | the subtractor returns the reduced difference if and only if it lies in [-p, p) |
| `FeAux.NegExactIff` | fpga/rtl/fe25519_aux_core.v:36-60 | negation is right if and only if the operand is at most p; above p the register wraps |
| `FeAux.LoadReduces` | fpga/rtl/fe25519_aux_core.v:38-40 | every 256-bit encoding loads as its low 255 bits modulo p, canonical or not |
| `FeAux.ReducedOperands` | fpga/rtl/ed25519_point_core.v:158-178 | on reduced operands add, subtract and negate are the field operations and stay reduced |
| `FeAux.UnitIsFieldArithmetic` | fpga/rtl/fe25519_aux_core.v:42-74 | for every operation code, reduced operands give the field result, reduced |
| `FeMul.AddProduct` | fpga/rtl/fe25519_mul_core.v:103-118 | one more lane product cannot overflow a 40-bit accumulator, and keeps the partial sum of the schoolbook product |
| `FeMul.SumIsProduct` | fpga/rtl/fe25519_mul_core.v:108-112 | the sum over all limb pairs is the product of the two values, for digit strings of any length |
| `FeMul.FoldsSuffice` | fpga/rtl/fe25519_mul_core.v:121-139 | for every 510-bit product two folds by 19 leave less than 2p, within the register widths, so one subtraction reduces |
| `FeMul.MulCore.LaneGroup` | fpga/rtl/fe25519_mul_core.v:192-218 | a cycle of up to four lanes (one in the last group of a row) advances the partial product by exactly those columns |
| `FeMul.MulCore.Accumulate` | fpga/rtl/fe25519_mul_core.v:192-218 | 289 limb products in groups of four lanes leave the whole product in the accumulators |
| `FeMul.MulCore.Normalise` | fpga/rtl/fe25519_mul_core.v:220-228 | carrying limb by limb leaves the product in the 510-bit register, with no bit dropped at the last limb |
| `FeMul.MulCore.FoldAndReduce` | fpga/rtl/fe25519_mul_core.v:230-251 | two folds and one conditional subtraction leave the product register modulo p |
| `FeMul.MulCore.Multiply` | fpga/rtl/fe25519_mul_core.v:168-251 | for all 255-bit operands the result is a b mod p, fully reduced |
| `FeMulWide.DiagonalsMultiply` | fpga/rtl/fe25519_mul_wide_core.v:96-107 | the nine diagonals, weighted by 51-bit steps, sum to the product of the operands |
| `FeMulWide.FoldValue` | fpga/rtl/fe25519_mul_wide_core.v:110-113 | folding diagonals 5 to 8 with 19 changes the value by a multiple of p |
| `FeMulWide.DiagonalsFit` | fpga/rtl/fe25519_mul_wide_core.v:102-113 | no diagonal outgrows its 108-bit register, and the fold stays far inside 120 bits |
| `FeMulWide.CarryFits` | fpga/rtl/fe25519_mul_wide_core.v:222-236 | every cycle of the carry passes stays within the 120-bit registers |
| `FeMulWide.SecondPass` | fpga/rtl/fe25519_mul_wide_core.v:222-236 | after two passes limb 0 can only exceed 51 bits when the whole value wrapped round p, and then limbs 2 to 4 are 0 |
| `FeMulWide.ProductExactIff` | fpga/rtl/fe25519_mul_wide_core.v:115-255 | the wide multiplier returns a b mod p if and only if limb 0 after the second wrap is below 2^51; otherwise it returns exactly 2^51 less, and that residue lies in [2^51, 2^58) with at most 18 in its low 51 bits |
| `FeMulWide.PassWraps` | fpga/rtl/fe25519_mul_wide_core.v:222-236 | a carry pass replaces the value n of the limbs by n mod 2^255 + 19 (n div 2^255) |
| `FeMulWide.ExactUnlessSpills` | fpga/rtl/fe25519_mul_wide_core.v:109-125 | the same condition before the carry passes: with v the folded sum wrapped once, a product is wrong if and only if v is at least 2^255 and its low 51 bits at least 2^51 - 19 |
| `FeMulWide.InexactExample` | fpga/rtl/fe25519_mul_wide_core.v:115-121 | (p - 1)(p - 2^51) is 2^51 modulo p, and the wide multiplier returns 0 |
| `FeMulWide.MulWideCore.MultiplyDiagonals` | fpga/rtl/fe25519_mul_wide_core.v:190-209 | the two-stage pipeline with its flush cycle stores each of the nine diagonals in its own coefficient |
| `FeMulWide.MulWideCore.Multiply` | fpga/rtl/fe25519_mul_wide_core.v:165-255 | from start to done the datapath computes the packed and once-reduced value that ProductExactIff is about |
| `FieldMultiplier.Multiplier.Multiply` | fpga/rtl/ed25519_point_core.v:180-189 | the multiplier behind the point core: reduced in any case, and right if and only if it is the narrow one or limb 0 keeps to 51 bits; a wrong result is 2^51 too small |
| `Curve.AddOnCurve` | fpga/rtl/ed25519_point_core.v:421-535 | for reduced points with XY = ZT and -X^2 + Y^2 = Z^2 + d T^2 the addition sequence returns such a point |
| `Curve.AddCompletes` | fpga/rtl/ed25519_point_core.v:491-509 | the closing step for addition, (X1Y2 + X2Y1)(Y1Y2 - X1X2) = (Z1Z2 + dT1T2)(Z1T2 + Z2T1) with its companions, from the curve equations alone |
| `Curve.DoubleOnCurve` | fpga/rtl/ed25519_point_core.v:537-632 | the doubling sequence stays on the curve, reduced |
| `Curve.NegateOnCurve` | fpga/rtl/ed25519_verify_engine.v:190-199 | negating x and t gives a reduced point on the curve |
| `Curve.AddSelfIsDouble` | fpga/rtl/ed25519_point_core.v:421-632 | every coordinate of ADD(P, P) is -4 times that of DOUBLE(P): both sequences give the same projective point |
| `Curve.AddIsAffineLaw` | fpga/rtl/ed25519_point_core.v:421-535 | the sum satisfies the affine Edwards law x3 (1 + d x1x2y1y2) = x1y2 + x2y1 and its y companion, cleared of denominators |
| `Curve.AddNegateIsIdentity` | fpga/rtl/ed25519_verify_engine.v:255-266 | P plus its negative has x = 0, t = 0 and y = z |
| `Field.CurveConstantIsStandard` | fpga/rtl/ed25519_constants.vh:6 | 121666 d = -121665 modulo p (section 5.1 of RFC 8032) |
| `FieldPrime.FieldIsPrime` | fpga/rtl/ed25519_constants.vh:4 | 2^255 - 19 is prime: an element of order q with q a prime factor of p - 1 leaves no proper divisor, and q is proved prime in the same way, four times over, down to 991 |
| `FieldPrime.DIsNoSquare` | fpga/rtl/ed25519_constants.vh:6 | d has no square root modulo p |
| `CompleteLaw.AddComplete` | fpga/rtl/ed25519_point_core.v:421-535 | addition is complete: for all points on the curve with nonzero z, equal, opposite or not, the sum has nonzero z |
| `CompleteLaw.DoubleComplete` | fpga/rtl/ed25519_point_core.v:537-632 | so is doubling |
| `Associativity.Associates` | fpga/rtl/ed25519_point_core.v:421-535 | for any three affine points of the curve the two orders of adding them give the same ratios e : g and h : f |
| `CurveGroup.SumsRespect` | fpga/rtl/ed25519_point_core.v:421-535 | a sum is the same point whatever projective coordinates its operands have |
| `CurveGroup.SumsAssociate` | fpga/rtl/ed25519_point_core.v:421-535 | adding with the addition sequence is associative, as points |
| `CurveGroup.CurveIsGroup` | fpga/rtl/ed25519_point_core.v:421-535 | the points of the curve with z = 1 form a commutative group under the addition sequence |
| `PowChain.PowerAdd` | fpga/rtl/ed25519_point_core.v:774-976 | joining two powers of the input multiplies them into the power of the summed exponent, modulo p |
| `PowChain.PowerIsPower` | fpga/rtl/ed25519_point_core.v:772-1071 | the chain of reduced products is the power modulo p |
| `PowChain.Square` | fpga/rtl/ed25519_point_core.v:830-976 | a squaring in a ladder phase takes the invariant of that phase one squaring further |
| `PowChain.Join` | fpga/rtl/ed25519_point_core.v:998-1065 | x^(2^m - 1) squared n times, multiplied by x^(2^n - 1), is x^(2^(m+n) - 1): the exponent arithmetic of the product that closes a ladder phase |
| `PowChain.LastStep` | fpga/rtl/ed25519_point_core.v:960-976 | the last product leaves the exponent 2^252 - 3 |
| `PointCore.Core.Multiply` | fpga/rtl/ed25519_point_core.v:180-189 | a round trip to the multiplier gives the field product as long as every product so far is one the multiplier gets right |
| `PointCore.Core.DispatchInit` | fpga/rtl/ed25519_point_core.v:772-828 | each opening phase sends the two operands whose product the phase invariant needs next |
| `PointCore.Core.DispatchLadder` | fpga/rtl/ed25519_point_core.v:830-976 | each ladder phase squares while its count is positive and then sends the pair that joins the phases |
| `PointCore.Core.StoreAndMoveOn` | fpga/rtl/ed25519_point_core.v:980-1071 | storing the product selects the register, count and phase under which the invariant holds again, or leaves the final power |
| `PointCore.Core.Pow` | fpga/rtl/ed25519_point_core.v:772-1071 | the FSM ends from every input, with x^(2^252 - 3) mod p in pow_value |
| `PointCore.Core.Add` | fpga/rtl/ed25519_point_core.v:421-535 | the step sequence with its shared registers outputs the sum, in both the affine and the general case |
| `PointCore.Core.Double` | fpga/rtl/ed25519_point_core.v:537-632 | the step sequence outputs the double |
| `PointCore.Core.Decode` | fpga/rtl/ed25519_point_core.v:634-770 | flag tells whether the encoding decodes, and the outputs are its point, or zero |
| `PointCore.Core.Run` | fpga/rtl/ed25519_point_core.v:384-418 | from start to done each operation gives its result; an unknown operation and a failed decompression give no flag and zero outputs |
| `Decompress.DecodedPoint` | fpga/rtl/ed25519_point_core.v:634-770 | a decoded point has z = 1, y reduced, t = xy, (d y^2 + 1) x^2 = y^2 - 1, low bit of x the sign bit unless x = 0, and is on the curve (section 5.1.3 of RFC 8032) |
| `Decompress.DirectBranch` | fpga/rtl/ed25519_point_core.v:724-740 | when v r^2 = u the candidate itself is a root |
| `Decompress.NegatedBranch` | fpga/rtl/ed25519_point_core.v:724-745 | when v r^2 = -u the candidate times sqrt(-1) is a root |
| `Decompress.SignSelects` | fpga/rtl/ed25519_point_core.v:747-770 | both sign bits decode or neither does, and they decode to negatives of each other |
| `Decompress.NegativeZeroAccepted` | fpga/rtl/ed25519_point_core.v:747-770 | y = 1 with the sign bit set decodes to the identity, where section 5.1.3 of RFC 8032 has it fail |
| `Decompress.NonCanonicalAccepted` | fpga/rtl/ed25519_point_core.v:634-770 | y = p + 1 decodes to the identity, where section 5.1.3 of RFC 8032 has it fail |
| `Decompress.AgreesWithRfcIff` | fpga/rtl/ed25519_point_core.v:634-770 | decoding agrees with the decoder of section 5.1.3 of RFC 8032 if and only if the encoding is not a negative zero (sign bit 1, y^2 = 1) and y is not one of the 19 values from p on, with y - p having a root |
| `Decompress.RfcDecodesSame` | fpga/rtl/ed25519_point_core.v:634-770 | whatever section 5.1.3 of RFC 8032 decodes, the code decodes to the same point |
| `DecodeComplete.RootFound` | fpga/rtl/ed25519_point_core.v:696-745 | whenever v x^2 = u has a solution the candidate or its product with sqrt(-1) is one |
| `DecodeComplete.DecodesIff` | fpga/rtl/ed25519_point_core.v:634-770 | an encoding decodes if and only if some x solves (d y^2 + 1) x^2 = y^2 - 1 for its y |
| `ScalarWnaf.RecodingKeepsValue` | fpga/rtl/scalar_wnaf4_recode.v:42-107 | for every scalar and every number of steps n, the digits' weighted sum plus 2^n times the residual is the scalar |
| `ScalarWnaf.DigitsInRange` | fpga/rtl/scalar_wnaf4_recode.v:47-85 | every digit is 0 or one of +-1, +-3, +-5, +-7 |
| `ScalarWnaf.DigitsSparse` | fpga/rtl/scalar_wnaf4_recode.v:87-99 | at most one of any four neighbouring digits is nonzero |
| `ScalarWnaf.RecodesScalars` | fpga/rtl/scalar_wnaf4_recode.v:42-107 | 256 steps exhaust every scalar up to 2^255: the digits alone sum to it |
| `ScalarWnaf.RecodesIffExhausted` | fpga/rtl/scalar_wnaf4_recode.v:42-107 | for any 256-bit scalar the digits sum to scalar - 2^256 residual, so they stand for it if and only if the final working register is 0 |
| `ScalarWnaf.AllOnesNotExhausted` | fpga/rtl/scalar_wnaf4_recode.v:101-103 | 256 steps leave a residual of 1 for 2^256 - 1, whose digits sum to -1 |
| `ScalarWnaf.Recoder.Clock` | fpga/rtl/scalar_wnaf4_recode.v:32-107 | one clock edge emits the signed digit of the 257-bit working register, without overflow, and halves what is left |
| `ScalarWnaf.Recoder.Recode` | fpga/rtl/scalar_wnaf4_recode.v:36-107 | a run of 256 edges hands over exactly the digits of the recoding |
| `ScalarReduce.RemainderStep` | fpga/rtl/scalar_reduce_mod_l.v:51-57 | doubling, adding a bit and subtracting L on no borrow takes prefix mod L to the next prefix mod L |
| `ScalarReduce.ShiftStep` | fpga/rtl/scalar_reduce_mod_l.v:51-60 | each shift moves exactly the top bit of the register into the consumed prefix |
| `ScalarReduce.AllShifted` | fpga/rtl/scalar_reduce_mod_l.v:62-65 | after 512 shifts the consumed prefix is the whole number |
| `ScalarReduce.Reducer.Clock` | fpga/rtl/scalar_reduce_mod_l.v:50-69 | every edge keeps remainder = consumed prefix mod L; the last edge outputs the whole number mod L |
| `ScalarReduce.Reducer.Reduce` | fpga/rtl/scalar_reduce_mod_l.v:37-69 | the output is the digest, its bytes read little-endian, modulo L |
| `ScalarReduce.OrderIsStandard` | fpga/rtl/ed25519_constants.vh:5 | L = 2^252 + 27742317777372353535851937790883648493 (section 5.1 of RFC 8032) |
| `Sha512.RingTaps` | fpga/rtl/sha512_compress_core.v:216-224 | from round 16 on the four ring taps are W(t-2), W(t-7), W(t-15) and W(t-16) |
| `Sha512.RingReplaced` | fpga/rtl/sha512_compress_core.v:225-226 | overwriting the oldest slot keeps the ring equal to the last 16 schedule words |
| `Sha512.CompressCore.Clock` | fpga/rtl/sha512_compress_core.v:215-263 | one edge is one round; the edge of round 79 adds the incoming chaining value |
| `Sha512.CompressCore.Run` | fpga/rtl/sha512_compress_core.v:199-263 | 80 rounds and the feed-forward compute the compression function of FIPS 180-4 section 6.4.2, whose functions and table the four rows of Sha512Vector pin down |
| `Sha512Hash.PadFillsBlocks` | fpga/rtl/sha512_stream_engine.v:79-87 | padded input is whole blocks, with the fewest zero bytes that make it so (FIPS 180-4 section 5.1.2) |
| `Sha512Hash.PackedBytes` | fpga/rtl/sha512_stream_engine.v:355-359 | the digest register read from the top is the digest byte string |
| `Sha512Hash.HashBlocksJoin` | fpga/rtl/sha512_stream_engine.v:353-369 | whole blocks are hashed in order, each from the chaining value of those before it |
| `Sha512Vector.PrimesInOrder` | fpga/rtl/sha512_compress_core.v:91-177 | the table of primes starts with 2 and goes from each prime to the next |
| `Sha512Vector.ConstantsAreCubeRoots` | fpga/rtl/sha512_compress_core.v:91-177 | each of the 80 constants is the first 64 bits of the fraction of the cube root of its prime (FIPS 180-4 section 4.2.3) |
| `Sha512Vector.InitialValueIsSquareRoots` | fpga/rtl/sha512_stream_engine.v:32-41 | the initial value is the same for the square roots of the first eight primes (FIPS 180-4 section 5.3.5) |
| `Sha512Vector.RoundsOfAbc` | fpga/rtl/sha512_compress_core.v:40-89 | the working variables of the message abc after each of the 80 rounds, as numbers |
| `Sha512Vector.HashOfAbc` | fpga/rtl/sha512_stream_engine.v:79-87 | the digest of abc, padding and byte order included, is the published one |
| `Sha512Stream.PaddedTotal` | fpga/rtl/sha512_stream_engine.v:79-87 | the total computed from the length is the length of the padded input R, A, M |
| `Sha512Stream.EndingIsPadding` | fpga/rtl/sha512_stream_engine.v:306-351 | the engine's longer run of zeros and 8-byte length are the zeros and 16-byte length of the standard |
| `Sha512Stream.TopBytesAreBigEndian` | fpga/rtl/sha512_stream_engine.v:329-351 | shifting the length register out from the top sends it big-endian |
| `Sha512Stream.BlocksAhead` | fpga/rtl/sha512_stream_engine.v:353-369 | a full buffer is the last block if and only if one block remains, and only then nothing is left to send |
| `Sha512Stream.StreamEngine.StepRequest` | fpga/rtl/sha512_stream_engine.v:212-222 | a message word is requested at the address of the next byte, and waiting always makes progress |
| `Sha512Stream.StreamEngine.StepCompress` | fpga/rtl/sha512_stream_engine.v:353-369 | a full buffer is hashed as the next 128 bytes of the padded input, and the run ends on the last |
| `Sha512Stream.StreamEngine.Clock` | fpga/rtl/sha512_stream_engine.v:114-376 | every edge keeps: bytes sent and bytes to come make up the padded input, and the chaining value is that of the whole blocks sent; every edge sends a byte or makes progress |
| `Sha512Stream.StreamEngine.Run` | fpga/rtl/sha512_stream_engine.v:79-369 | for every prefix pair and length the engine ends; it reports an error if and only if the message is longer than its memory, and otherwise outputs SHA-512 of R, A, M |
| `Group.JointDouble` | fpga/rtl/ed25519_verify_engine.v:761-811 | doubling s B - k A gives 2s B - 2k A, in any commutative group |
| `Group.JointAddA` | fpga/rtl/ed25519_verify_engine.v:822-839 | adding the negated multiple -d A raises the coefficient of A by d |
| `Group.OddMultiples` | fpga/rtl/ed25519_verify_engine.v:666-748 | the doubling and three additions give 2A, 3A, 5A and 7A |
| `Group.Cofactor` | fpga/rtl/ed25519_verify_engine.v:906-930 | three doublings multiply by 8 |
| `Verdict.SelectedA` | fpga/rtl/ed25519_verify_engine.v:781-804 | the point selected for a nonzero digit d of k stands for -d A |
| `Verdict.SelectedB` | fpga/rtl/ed25519_verify_engine.v:776-779 | the table point selected for a nonzero digit d of s stands for d B |
| `Verdict.IdentityTest` | fpga/rtl/ed25519_verify_engine.v:255-266 | the identity test holds exactly of points that stand for the zero of the group |
| `Verdict.IdentityTestIff` | fpga/rtl/ed25519_verify_engine.v:255-266 | the identity test passes a point if and only if t = 0 and it is the identity, whatever its projective coordinates |
| `Verdict.NegativeCancels` | fpga/rtl/ed25519_verify_engine.v:255-266 | a point plus its negative passes the test |
| `Verdict.ListMissesNegativeZeros` | fpga/rtl/ed25519_verify_engine.v:220-253 | of the encodings of y = 1 and y = -1, which all decode, the list has exactly those that are no negative zeros |
| `SmallOrderList.EightfoldIsIdentity` | fpga/rtl/ed25519_verify_engine.v:906-930 | three doublings of a point pass the identity test if and only if x = 0, y = 0 or x^2 + y^2 = 0 |
| `SmallOrderList.ListIsSmallOrder` | fpga/rtl/ed25519_verify_engine.v:220-253 | an encoding that decodes is on the list of strict mode, or is a negative zero, if and only if three doublings of its point pass the identity test |
| `SmallOrderList.EightfoldIsTimes` | fpga/rtl/ed25519_verify_engine.v:906-930 | three doublings pass the test if and only if 8 times the point is zero in the group |
| `Verdict.SoundSelected` | fpga/rtl/ed25519_verify_engine.v:775-804 | whatever the joint loop selects for a nonzero digit is reduced and on the curve |
| `Verdict.DigestRegister` | fpga/rtl/ed25519_verify_engine.v:620-636 | the reducer reads the bytes of the digest register in the order the hash produced them |
| `BaseTable.BasePointIsStandard` | fpga/rtl/ed25519_basepoint_table.v:14-16 | entry 1 has y = 4/5 and even x: the base point of section 5.1 of RFC 8032 |
| `BaseTable.TableIsSound` | fpga/rtl/ed25519_basepoint_table.v:14-40 | the entries that are selected are reduced and on the curve, by computation on the constants |
| `BaseTable.SumIsEntry` | fpga/rtl/ed25519_basepoint_table.v:14-40 | an entry that satisfies the affine law for two others is, projectively, their sum as the point core computes it |
| `BaseTable.TableIsMultiples` | fpga/rtl/ed25519_basepoint_table.v:14-40 | so entry j stands for j times the base point, for every j that is selected |
| `CompleteLaw.ReadingSuffices` | fpga/rtl/ed25519_verify_engine.v:255-266 | a reading of points in which equal points have equal values and addition is the sum of a commutative group has everything the engine theorems ask for: doubles, negatives, the identity test and the table |
| `CurveGroup.CurveInterprets` | fpga/rtl/ed25519_verify_engine.v:255-266 | the group of the curve is such a reading, with the standard base point |
| `CurveGroup.StrictIsStronger` | fpga/rtl/ed25519_verify_engine.v:879-931 | what strict mode accepts, every mode accepts |
| `VerifyEngine.Engine.DecodePoints` | fpga/rtl/ed25519_verify_engine.v:578-614 | the engine goes on exactly when both A and R decode, with their points |
| `VerifyEngine.Engine.HashAndReduce` | fpga/rtl/ed25519_verify_engine.v:616-636 | the challenge is SHA-512(R, A, M) modulo L, or an error for a message that is too long |
| `VerifyEngine.Engine.RecodeBoth` | fpga/rtl/ed25519_verify_engine.v:638-664 | both digit memories hold digits whose weighted sums are s and k |
| `VerifyEngine.Engine.Precompute` | fpga/rtl/ed25519_verify_engine.v:666-748 | the three stored points stand for 3A, 5A and 7A; in any case they are on the curve |
| `VerifyEngine.Engine.JointStep` | fpga/rtl/ed25519_verify_engine.v:761-877 | one bit position takes s B - k A to (2s + ds) B - (2k + dk) A, whichever digits are zero or negative |
| `VerifyEngine.Engine.JointLoop` | fpga/rtl/ed25519_verify_engine.v:750-877 | after 256 positions the accumulator stands for s B - k A; in any case it never leaves the curve |
| `VerifyEngine.Engine.Finalize` | fpga/rtl/ed25519_verify_engine.v:879-931 | strict mode accepts when the sum minus R is zero, the other mode when 8 times it is |
| `VerifyEngine.Engine.CheckEquation` | fpga/rtl/ed25519_verify_engine.v:638-931 | the verdict is whether s B - k A - R vanishes under the mode |
| `VerifyEngine.Engine.Verify` | fpga/rtl/ed25519_verify_engine.v:543-937 | a run accepts if and only if S < L, A and R decode, strict mode sees no listed small-order encoding in A or R, the message fits, and s B - k A - R (or 8 times it) is zero in the group of the curve; always with the narrow multiplier, and in every run without a lost bit with the wide one; with either, S >= L, a listed encoding or a message that is too long is never accepted, and point registers on the curve stay there |
| `BatchInvariant.LaunchStarts` | fpga/kv260_sigv/src/sigv_kv260_core.v:317-352 | an accepted launch establishes the invariant of a running batch with the next batch id |
| `BatchInvariant.LoaderKeeps` | fpga/kv260_sigv/src/sigv_kv260_core.v:403-433 | the loader fills the shadow record word by word with the job it is loading, and never runs while the record is valid |
| `BatchInvariant.SlotKeeps` | fpga/kv260_sigv/src/sigv_kv260_core.v:395-400 | a busy slot keeps its record until its engine reports, and what is reported is the verdict on exactly that record |
| `BatchInvariant.EventsPartition` | fpga/kv260_sigv/src/sigv_kv260_core.v:454-479 | results of one or two engines in a cycle move their indices to the finished ones, without overlap or loss, and are counted |
| `BatchInvariant.EventsMask` | fpga/kv260_sigv/src/sigv_kv260_core.v:454-470 | after recording, finished jobs have their verdict in the mask and every other bit is 0 |
| `BatchInvariant.HandOver` | fpga/kv260_sigv/src/sigv_kv260_core.v:508-541 | a record moving from the shadow register to an engine, and the next index entering the loader, keep the split of the indices |
| `BatchInvariant.DispatchKeeps` | fpga/kv260_sigv/src/sigv_kv260_core.v:506-542 | handing on, to engine 0 first, keeps the whole invariant |
| `BatchInvariant.RunKeeps` | fpga/kv260_sigv/src/sigv_kv260_core.v:381-551 | every cycle of a running batch keeps: indices 0 to next_load_job_index - 1 are split into finished, engine 0, engine 1 and loading-or-shadow; contents, mask and counters are right; or the batch ends, all verdicts recorded and accepted + dropped = requested, or with the timeout code |
| `BatchRuns.IdleLaunch` | fpga/kv260_sigv/src/sigv_kv260_core.v:436-440 | a start on an idle core begins a batch with the next id |
| `BatchRuns.ResetLaunch` | fpga/kv260_sigv/src/sigv_kv260_core.v:385-387 | reset and start together begin a batch from any state, even a running one, with counters at zero |
| `BatchRuns.RejectedLaunch` | fpga/kv260_sigv/src/sigv_kv260_core.v:317-352 | a launch with a bad length or job count is done at once: its error, its id in the snapshot, nothing accepted |
| `BatchRuns.ResetOnlyIdles` | fpga/kv260_sigv/src/sigv_kv260_core.v:388-390 | a reset without a start leaves nothing in flight, from any state |
| `BatchRuns.RejectedIdles` | fpga/kv260_sigv/src/sigv_kv260_core.v:317-352 | so does a rejected launch |
| `BatchRuns.SaneStays` | fpga/kv260_sigv/src/sigv_kv260_core.v:368-551 | every cycle, with any command, keeps: nothing is in flight, or an accepted batch runs with its invariant |
| `BatchRuns.SteadyStays` | fpga/kv260_sigv/src/sigv_kv260_core.v:368-551 | busy means running and a missing second engine stays idle, even while the job memory is being rewritten |
| `BatchRuns.PotentialFalls` | fpga/kv260_sigv/src/sigv_kv260_core.v:402-542 | whatever the engines do, every cycle that does not end the batch uses up its bound |
| `BatchRuns.LaunchedBatchEnds` | fpga/kv260_sigv/src/sigv_kv260_core.v:381-551 | with a nonzero timeout and no reset every accepted launch is done within 1 + accepted (73 + timeout) cycles, with the right id and either all verdicts or the timeout error |
| `BatchTimeouts.TimeoutIff` | fpga/kv260_sigv/src/sigv_kv260_core.v:483-503 | a batch ends with the timeout error if and only if a slot has been busy, from its start pulse on, for exactly the configured number of cycles without its engine reporting |
| `BatchTimeouts.EndsWithoutError` | fpga/kv260_sigv/src/sigv_kv260_core.v:381-551 | if every engine reports in less than the timeout after its start pulse, a launched batch ends without error and with all verdicts |
| `BatchCore.LaunchFacts` | fpga/kv260_sigv/src/sigv_kv260_core.v:317-352 | the checks in order, each with its error: a message too long, a job count out of range, more accepted jobs than the job memory holds; a launch that passes all is busy with the requested jobs, or the dispatch limit if that is smaller |
| `BatchCore.Core.LaunchBatch` | fpga/kv260_sigv/src/sigv_kv260_core.v:317-352 | which check a launch fails, with its error code and snapshot; what an accepted one starts with; accepted + dropped is the requested count |
| `BatchCore.Core.FinalizeBatch` | fpga/kv260_sigv/src/sigv_kv260_core.v:285-315 | done, not busy, no slot or load active, the snapshot has the final counts, and mask, id and counters are unchanged |
| `BatchCore.Core.Clock` | fpga/kv260_sigv/src/sigv_kv260_core.v:368-551 | one clock edge is the transition that the invariant and the bounds are proved of |
| `AxiRegs.FullStrobe` | fpga/kv260_sigv/src/sigv_axi_regs.v:138-151 | all strobes replace the word, none keep it |
| `AxiRegs.StrobedLane` | fpga/kv260_sigv/src/sigv_axi_regs.v:138-151 | byte lane i of a strobed write comes from the written word if strobe i is set, from the register if not |
| `AxiRegs.StoreFacts` | fpga/kv260_sigv/src/sigv_axi_regs.v:331-395 | a command write gives exactly its pulses, and a setting changes only in a write to it while not busy |
| `AxiRegs.ClockedFacts` | fpga/kv260_sigv/src/sigv_axi_regs.v:271-411 | pulses come only from a committing command write and stand together with its response; a setting changes only in a committing write to it while not busy |
| `AxiRegs.Registers.Clock` | fpga/kv260_sigv/src/sigv_axi_regs.v:271-411 | one clock edge of the register block is the transition the system theorems are about |
| `System.SettingsLocked` | fpga/kv260_sigv/src/sigv_axi_regs.v:312-400 | while a launch pulse or busy is up no bus traffic changes any setting |
| `System.SettingsHeld` | fpga/kv260_sigv/src/sigv_axi_regs.v:125-129 | so from the launch pulse until busy falls, over any number of cycles, length, count, mode, limit and timeout are the launched ones |
| `System.CommandIsFresh` | fpga/kv260_sigv/src/sigv_axi_regs.v:312-343 | the cycle after a reset-then-start command hides done and error until the core has cleared them |
| `System.FreshStep` | fpga/kv260_sigv/src/sigv_axi_regs.v:131-134 | every cycle without another command keeps this |
| `System.StatusIsFresh` | fpga/kv260_sigv/src/sigv_axi_regs.v:302-343 | after a reset-then-start command, any later STATUS that shows done or error belongs to batch id old + 1 (mod 2^32), and the snapshot id read from the bus already is that id |
| `System.SystemKeeps` | fpga/kv260_sigv/src/sigv_kv260_core.v:368-551 | core and registers together keep the invariant of the batch under settings that cannot change |
| `System.SaneStep` | fpga/kv260_sigv/src/sigv_axi_regs.v:312-400 | the same for core and registers together: what runs does so under the settings in the registers, whatever the bus does |
| `System.SplitInEveryReachableState` | fpga/kv260_sigv/src/sigv_kv260_core.v:442-541 | from reset, under any ticks: whenever a batch runs, the indices below next_load_job_index are split into finished, engine 0, engine 1 and loading-or-shadow, with the verdicts of the finished ones in the mask; a valid shadow record excludes a busy loader, and the accepted jobs are those the settings ask for |
| `System.AcceptedAndDropped` | fpga/kv260_sigv/src/sigv_kv260_core.v:317-352 | from an accepted launch to any later state of its batch, whatever the bus does short of a reset: the jobs dropped since the launch and the accepted ones are the requested ones, and the completed ones since then are finished |
| `System.LaunchRunsToDone` | fpga/kv260_sigv/src/sigv_kv260_core.v:317-352 | a launch pulse is done within the bound whatever else happens on the bus, short of another reset, and ends as its settings say |
| `Payload.WriteBytesAsWords` | tools/kv260_sigv_daemon/src/accelerator.rs:634-684 | on success each word has its four payload bytes little-endian, the tail padded and the rest of the region zero; otherwise nothing is written, with the error of the first check that fails |
| `Payload.MessageBack` | tools/kv260_sigv_daemon/src/accelerator.rs:634-684 | the bytes the hash engine picks from the written words are the message |
| `Payload.PackedAt` | tools/kv260_sigv_daemon/src/accelerator.rs:369-383 | bytes 96 i to 96 i + 95 of the payload are key i and signature i |
| `Payload.RecordBack` | fpga/kv260_sigv/src/sigv_kv260_core.v:402-433 | the record at word base 24 i of the written region is job i |
| `Payload.LanesNumber` | fpga/kv260_sigv/src/sigv_kv260_core.v:414-420 | a 256-bit register filled lane by lane is the little-endian number of the 32 bytes |
| `Payload.MaskBitBack` | tools/kv260_sigv_daemon/src/accelerator.rs:942-950 | bit i of the words read is bit i of the result mask |
| `Daemon.TrackingStep` | tools/kv260_sigv_daemon/src/accelerator.rs:411-444 | between the command and the result every cycle without a write keeps the batch, its id and its settings |
| `Daemon.RefusalCases` | tools/kv260_sigv_daemon/src/accelerator.rs:333-364 | a request proceeds with 1 to 4096 message bytes and 1 to 255 jobs; otherwise the first failing check names the error |
| `Daemon.OnTimeStep` | fpga/kv260_sigv/src/sigv_kv260_core.v:381-551 | with a job timeout every cycle without a write brings the end of the batch one cycle nearer |
| `Daemon.NothingLeft` | tools/kv260_sigv_daemon/src/accelerator.rs:902-917 | with no cycles left the status register shows done |
| `Daemon.UsableSettingStep` | fpga/kv260_sigv/src/sigv_axi_regs.v:331-395 | a setting written while the core is busy is dropped, otherwise it takes effect |
| `Daemon.CommandStep` | fpga/kv260_sigv/src/sigv_axi_regs.v:312-343 | a reset-then-start command is taken even while a batch runs, and starts the tracking of the next batch id |
| `Daemon.TrackedReport` | tools/kv260_sigv_daemon/src/accelerator.rs:420-462 | what is read after completion describes the payload under the settings the batch ran with: verdicts, counts and error |
| `Daemon.ReportsItself` | tools/kv260_sigv_daemon/src/accelerator.rs:443-462 | under the settings of the request that is a report on the request |
| `Daemon.StaleCountMisreports` | tools/kv260_sigv_daemon/src/accelerator.rs:393-399 | under settings that accept another number of jobs it is not |
| `StaleSettings.StuckRun` | fpga/kv260_sigv/src/sigv_axi_regs.v:312-400 | while engine 0 is at work without a timeout, no traffic without a command changes a setting |
| `StaleSettings.RestartsUnderOldSettings` | fpga/kv260_sigv/src/sigv_kv260_core.v:385-387 | after any such traffic the reset-then-start command starts the next batch under the old settings |
| `StaleSettings.StaleAnswer` | tools/kv260_sigv_daemon/src/accelerator.rs:393-462 | whenever the end of that batch shows, the batch id is the expected one, and the answer describes the new payload under the old settings, which is no answer to a request with another number of accepted jobs |
| `StaleSettings.StuckIsReachable` | fpga/kv260_sigv/src/sigv_kv260_core.v:402-541 | for every request without a job timeout a run from reset leads to such a state under its settings |
| `StaleSettings.StaleAnswerHappens` | tools/kv260_sigv_daemon/src/accelerator.rs:385-462 | for every request with one accepted job and no timeout, and every second one with more, there is a run from reset in which the second is answered with done, the expected batch id, and a result that does not describe it |
| `Daemon.Accelerator.ReadReg` | tools/kv260_sigv_daemon/src/accelerator.rs:575-582 | a read returns the register as it was when the address was taken, and leaves a running batch to itself |
| `Daemon.Accelerator.WriteSettings` | tools/kv260_sigv_daemon/src/accelerator.rs:393-399 | writes are dropped exactly when the core is busy: none if it is not, and then the registers hold the settings of the request; the first ones, up to the end of the batch, if it is, and all four if it still is; the settings in the registers pass the launch checks in any case |
| `Daemon.Accelerator.StartBatch` | tools/kv260_sigv_daemon/src/accelerator.rs:422-425 | the command starts the tracking of the next batch id, under the settings in the registers, from any state between requests |
| `Daemon.Accelerator.PollUntilComplete` | tools/kv260_sigv_daemon/src/accelerator.rs:902-917 | a status that shows done or error means that this batch, no other, is over; and with a job timeout set the status does show it within the polls, if these span the cycles the batch can still take |
| `Daemon.Accelerator.ReadResults` | tools/kv260_sigv_daemon/src/accelerator.rs:926-980 | the snapshot, then the comparison of its id, then the result mask: all registers read describe the one batch that is over |
| `Daemon.Accelerator.VerifyBatch` | tools/kv260_sigv_daemon/src/accelerator.rs:328-463 | from any state between requests, to which it returns: the batch id check never fails; after the request checks only the deadline can; without an error result bit i is the verdict of an engine run on exactly job i, with the message and mode of the request, and completed + dropped is the number of jobs; on a core still busy with an abandoned batch the same holds under the settings that were not dropped; with a job timeout, on a core that is not busy, it succeeds whenever the polls span 73 + timeout cycles for each accepted job |
| `EndToEnd.EngineInput` | tools/kv260_sigv_daemon/src/accelerator.rs:369-393 | the engine hashes R, A and the message byte for byte, reads A, R and S little-endian, and is strict exactly for a request in strict mode |
| `EndToEnd.ResultBitsAreVerdicts` | tools/kv260_sigv_daemon/src/accelerator.rs:443-462 | when the engine runs on the jobs of this request decide as VerifyEngine.Engine.Verify does, result bit i says whether signature i verifies under key i over the message, in the group of the curve |
| `TransactionFormat.CompactRoundTrip` | tools/solana_sigverify_mvp.py:72-103 | decoding the compact-u16 encoding of a 16-bit value gives it back, in 1 to 3 bytes |
| `TransactionFormat.FlattenParses` | tools/solana_sigverify_mvp.py:185-218 | every transaction of the format, legacy or v0, with any accepted encoding of its counts, is parsed back |
| `TransactionFormat.ParseFlattens` | tools/solana_sigverify_mvp.py:185-218 | every accepted input is the flattening of what it parses to: nothing is skipped, lost or left over |
| `Parser.RoundTrip` | tools/solana_sigverify_mvp.py:185-218 | both parsers accept a transaction with the required signatures and a key for each, with its exact message bytes and job i = key i, signature i |
| `Parser.BuiltIsTransaction` | tools/solana_sigverify_mvp.py:72-86 | transactions built with encode_compact_u16 belong to the format, so RoundTrip applies |
| `Parser.AcceptedExactly` | tools/solana_sigverify_mvp.py:185-218 | whatever Python accepts is exactly a flattened transaction, with one job per required signature |
| `Parser.AgreeIff` | tools/kv260_sigv_daemon/src/parser.rs:211-254 | Python and Rust give the same outcome if and only if not: more than 255 signatures whose count, as a byte, is the required one |
| `Parser.DisagreementExample` | tools/kv260_sigv_daemon/src/parser.rs:224-236 | 256 signatures and none required: Python rejects, Rust indexes past the keys |
| `TransactionBytes.BytesAreAccepted` | tools/solana_sigverify_mvp.py:106-218 | whatever transaction a client writes out byte by byte, legacy or v0, with up to 255 signatures (127 in a legacy one, whose first byte must not read as a version) and any keys, instructions and lookups that a count can hold, both parsers accept with the bytes after the signatures as message and key i, signature i as job i |
| `TransactionBytes.CountIs` | tools/solana_sigverify_mvp.py:72-86 | the one, two or three bytes of a count, by cases, are what encode_compact_u16 writes and decode to it |
| `TransactionBytes.CountDecodes` | tools/solana_sigverify_mvp.py:89-103 | the decoder by cases on up to three bytes: values, minimal or not, and each error |
| `Parser.EncodeCompactU16` | tools/kv260_sigv_daemon/src/parser.rs:59-73 | the loop writes the compact encoding |
| `Parser.DecodeCompactU16` | tools/kv260_sigv_daemon/src/parser.rs:75-93 | the loop decodes, or fails with the error, of the format from the given offset |
| `Parser.SkipEntries` | tools/kv260_sigv_daemon/src/parser.rs:108-157 | both skipping loops end where the section of the format ends, or fail with its error |
| `Parser.ParseMessage` | tools/kv260_sigv_daemon/src/parser.rs:159-209 | the header, version and sections are read as the format says, with its errors in order |
| `Parser.PythonParseTransaction` | tools/solana_sigverify_mvp.py:185-218 | the loops compute the Python outcome of the format |
| `Parser.RustParseTransaction` | tools/kv260_sigv_daemon/src/parser.rs:211-254 | the loops compute the Rust outcome, including the comparison as a byte and the panic on a missing key |

## Left out

- VerifyEngine.Engine.Verify: with the wide multiplier the verdict is characterised for runs in which no product loses a bit; what the engine decides after a lost bit is not characterised, except that S >= L, a listed small-order encoding and a message that is too long are never accepted.
- VerifyEngine.Engine.Verify: verify_mode and the message are constant during a run, as the register block keeps them; the waits for the units below are calls, not counted cycles, and abort is modelled in the batch core only.
- EndToEnd.ResultBitsAreVerdicts: takes as a hypothesis that the opaque verdict of a slot is the one `VerifyEngine.Engine.Verify` computes; the two are not composed into one state machine.
- Sha512Stream.StreamEngine.Clock: the buffer is a sequence of 128 byte lanes instead of one 1024-bit register, and ST_COMPRESS calls the compression core instead of counting its 80 rounds.
- Parser.PythonParseTransaction: exceptions are outcomes without their message texts, and the two readings of one byte offset by both languages are one function.
- Daemon.Accelerator.VerifyBatch: waiting by interrupt is not modelled, only polling; payload words are written at once and not interleaved with the cycles of a batch still running; what that abandoned batch then computes is not described.
- Message reads with two engines: the second engine's word can be replaced between grant and latch; reads are modelled for one engine, as deployed. The two slots of the batch core route jobs, with the verdicts as opaque values of the record.
- Digit memories are arrays of 256 nibbles instead of 1024-bit registers.
- The registers of the batch core are one field holding a record, so that an edge is one assignment of a function of the old record.
- Interrupts: pending can latch again from a stale done, so one interrupt per completion does not hold; the host model waits by polling.
- Performance counters (cycle counts of jobs and batches, engine phases) are not modelled and read as 0.
- A start-only command while a batch runs is ignored by the core; freshness of the status is stated for reset-then-start.
- The asynchronous reset rst_n: it gives the initial state of every model, and does not occur during a run.
- The host's deadline is a number of polls; opening and mapping regions, the hardware identity probe, interrupts, HTTP, JSON, sockets and logging are left out.
- The host's check that the job payload fits its region: with at most 255 jobs of 96 bytes it never fails, and is not an outcome of the model.
- Frame packing with its checksum, base58, command line handling.
- Bring-up core, LEDs, top-level wiring, image building, scripts and benchmarks.
- The order of the base point and of the group; the table entries that no digit selects.
