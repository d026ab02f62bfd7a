# A verified model of FreeTETRA's codec, federation and bridges

This project models the parts of the FreeTETRA server that carry the most state and arithmetic, and proves what
they promise. `dafny verify dfyconfig.toml` checks everything.

**The speech codec** (`FixedPoint` to `Lockstep`). The saturating 16/32-bit arithmetic of EN 300 395-2 is modelled
bit for bit. `ExtendedPrecision`, `DivisionRange` and `MathTables` prove the accuracy and the exact range of the long
division and the monotony of the logarithm and root tables; `Autocorrelation` and `ImpulseMatrix` prove that after
scaling no correlation saturates and each is what its definition says. `FrameBits`, `LspQuantizer`, `PitchLag`,
`LongTermPrediction`, `CodeSearch`, `Synthesis` and `Gains` hold the parts encoder and decoder share or mirror;
`CodeSearch` also says which combinations the time-limited search tries, and what the winner is among them.
`SpeechCodec` says what a frame means: a frame is a list of decisions, and `FrameStep` reconstructs speech and state
from decisions alone. What each kernel computes is also told without the saturating operators, in plain integers and
inner products (the predicates ending in `Right`): interpolated prediction, pulse train and noise filter, logarithmic
gains, excitation, synthesis filter, and, in `SpectralPolynomials`, filter coefficients within 0.67 of the last bit of the
exact ones. `FrameMeaning` joins them into one statement about a whole frame.
`SpeechEncoder.Encoder` and `SpeechDecoder.Decoder` are the two machines, with their buffers updated in place; both
are proved to leave behind exactly what `FrameStep` says. `Lockstep` joins them over 18-byte frames: over every run
of error-free frames the decoder's quantised spectral pairs, excitation history, energies, filter memory and speech
equal the encoder's own. The encoder's analysis (spectral pairs, open-loop lag, residual, correlations, target,
unquantised gains) is an arbitrary input, so the theorem holds whatever the analysis produces.

**The federation mesh** (`Mesh`, `Flood*`). `Mesh` models one server's router and fan-out loops. `Flood` is the
whole network: copies in flight, remembered ids and acceptances, with originate, deliver and forget steps in any
order and any number of broadcasts at once. `FloodDelivery` proves exactly-once delivery on symmetric static links
without a way of twelve servers, no lost copies and no forgotten id; `FloodLimit` shows that eleven servers is the limit;
`FloodTermination` bounds all deliveries without relying on what servers remember. Ids are distinct, and
`ShouldProcess` is one step although its check and its mark take the lock separately
(internal/federation/mesh.go:68-72).

**Calls and sessions** (`Netstack`, `Proxy`). Route locks and tracked calls correspond one to one through blocking,
expiry, replacement and activation, and buffered activation neither loses, repeats nor reorders a frame of a message
that reaches its call; which messages do is stated exactly. A proxy session is listed under exactly its two ids, and
`ProxyBridge.Conserved` balances the books: every leg ever set up is still tracked, reported its own end, or was
released exactly once. Each handler call and each sweep is one step at one time.

**Wire format and tables** (`Brew`, `BrewLayout`, `BrewStability`, `PeerTables`, `VirtualIssi`). Every field is at its
byte and acceptance is an equivalence; re-encoding parsed messages is stable, with the exact condition for frames; a
peer's inverse tables refine a per-subscriber view over every run of updates; virtual numbers stay distinct under an
exact condition.

Results that differ from what one might expect of the code:

- `div_32` can return exactly 1.0, one above the range its header documents, for a numerator below the denominator
  (`OverrunExample`), and 1.0 does not split into a high and a low part. `StaysInRange` gives the exact condition, for
  every numerator up to the denominator: it needs a numerator equal to the denominator or one less.
- `Cal_Rr2` saturates for some responses, such as sixty full-scale samples (`LoudResponse`); `GuardBitIff` and
  `ExactIffGuardBit` say for which.
- The distance that separates two joined code vectors is formed in 16 bits. A join more than 31850 (31522) out of order
  comes out closer than intended, and is accepted when it happens to come out in order (`SeparatedIs`, `CrossedJoin`).
- An SDS transfer frame with bit length zero and a full eight-byte header is accepted by the parser but comes back
  from the builder with bit length 64 (`FrameStable`, `UnstableFrames`).
- The fallback of the virtual number allocator ignores other groups (`InjectiveIff`, `FullPoolCollides`) and takes
  over foreign endpoints (`TakesForeignIff`, `CrowdedTakesForeign`).
- Two tracked calls may carry one traffic id, since it comes from the decoded call-new message. They share one entry,
  and when either goes, the frames of the other are discarded although it is tracked and may be active
  (`SharedTrafficIsLost`, `SharedTrafficHappens`). While every call has its own entry, a registration keeps that if and
  only if no remaining call has the new traffic id (`RegistrationIff`), and drops and evictions always keep it
  (`CompleteWithout`).
- Eleven servers is the sharp limit of ten hops (`ElevenIsTheLimit`): a longer copy may win over a shorter one, which
  does no harm while no way from the originator passes twelve servers (`PathExhausts`), whatever the size of the
  network, but leaves the far end of a line of twelve untold (`TwelfthIsMissed`).

Word widths are subset types of `int`; every saturation and truncation is written out. Buffers, pointers and their
offsets are arrays with indices; C locals that are uninitialised are fresh arrays of unknown contents. Codebooks and
the gain table have free contents and fixed sizes; the logarithm, root and power tables are given in full.

## Model

| member | source | states |
|---|---|---|
| `FixedPoint.LShlLoop` | codec/tetra-codec-impl.c:8579-8610 | shifting left bit by bit and stopping at the first value that no longer fits gives the saturated product with the power of two, for every shift |
| `FixedPoint.NormLLoop` | codec/tetra-codec-impl.c:8960-8989 | the counting loop returns the number of doublings after which a 32-bit value is normalised |
| `FixedPoint.AddShExact` | codec/tetra-codec-impl.c:311-314 | adding or subtracting a shifted 16-bit value gives the true sum, saturated once; loading one is exact |
| `FixedPoint.LShrRNearest` | codec/tetra-codec-impl.c:8713-8733 | a rounded right shift is the quotient by the power of two to the nearest integer, halves upwards |
| `FixedPoint.InOrderIsTotal` | codec/tetra-codec-impl.c:5600-5610 | a sum saturated after every term is the true total while no partial sum overflows |
| `ExtendedPrecision.SplitIsExact` | codec/tetra-codec-impl.c:817-822 | a 31-bit value splits into a high part and a non-negative 15-bit low part that stand for exactly that value |
| `ExtendedPrecision.ComposeIsExact` | codec/tetra-codec-impl.c:781-784 | composing such a pair and splitting again is the identity, with no saturation |
| `ExtendedPrecision.MpyMixError` | codec/tetra-codec-impl.c:860-869 | for non-negative operands the mixed product is less than two units below the true product and never above it |
| `ExtendedPrecision.Mpy32Error` | codec/tetra-codec-impl.c:909-920 | for non-negative pairs the product is less than five units below the true product and never above it |
| `ExtendedPrecision.DivSLoop` | codec/tetra-codec-impl.c:7919-7970 | the fifteen-step shift-and-subtract loop returns the exact floor of num * 2^15 / den, with 0x7fff for equal operands |
| `ExtendedPrecision.ReciprocalAccuracy` | codec/tetra-codec-impl.c:974-992 | one Newton step from the short division gives 2^58 / d within a stated bound for every normalised denominator |
| `ExtendedPrecision.NothingSaturates` | codec/tetra-codec-impl.c:974-992 | for every normalised denominator neither product nor the subtraction between them saturates: the reciprocal is the mixed product of the exact halves of 2^30 less the first mixed product |
| `ExtendedPrecision.Div32Accuracy` | codec/tetra-codec-impl.c:974-1003 | for every 0 <= num <= d with a normalised denominator the Q30 quotient is less than 44 units below and at most 4 above the true one (the promise is 24 bits, 64 units) |
| `DivisionRange.StaysInRange` | codec/tetra-codec-impl.c:947-964 | the quotient never exceeds 1.0, and it leaves the documented range 0 .. 0x3fffffff, by being exactly 1.0, if and only if the numerator is the denominator or one less and the denominator meets an arithmetic condition on its two halves |
| `DivisionRange.SafeNumerators` | codec/tetra-codec-impl.c:947-964 | numerators at least two below the denominator, and denominators with an even 15-bit estimate, always keep the range |
| `DivisionRange.OverrunExample` | codec/tetra-codec-impl.c:947-964 | a numerator one below its denominator whose quotient is 1.0, which then splits with a negative low part |
| `DivisionRange.CarryLessSpent` | codec/tetra-codec-impl.c:974-1003 | the distance of the quotient from one, exactly: a carry of the low halves less the remainders of every rounding |
| `MathTables.LogTwoMonotone` | codec/tetra-codec-impl.c:1221-1253 | over all positive 32-bit inputs the logarithm never decreases, across table segments and octaves, with the fraction in 15 bits |
| `MathTables.InvSqrtMonotone` | codec/tetra-codec-impl.c:1136-1170 | over all positive 32-bit inputs the reciprocal square root never increases, across table segments and octave pairs |
| `MathTables.LogTableOrdered` | codec/tetra-codec-impl.c:1067-1081 | the 33 logarithm entries are ordered, which the curve above rests on |
| `MathTables.RootTableOrdered` | codec/tetra-codec-impl.c:1049-1065 | the 49 root entries are ordered the other way |
| `MathTables.LogTwoIs` | codec/tetra-codec-impl.c:1221-1253 | for every positive input the exponent is that of the leading bit and the fraction is the point, rounded down, on the straight line between the two table entries around it |
| `MathTables.PowTwoIs` | codec/tetra-codec-impl.c:1301-1321 | for every exponent and fraction the result is the point on the line between two table entries divided by 2^(30 - exponent) to the nearest integer; nothing below, saturated above |
| `MathTables.InvSqrtIs` | codec/tetra-codec-impl.c:1136-1170 | for every positive input the result is the point on the line between two table entries for the normalised argument, divided by a power of two, rounding down |
| `MathTables.LogEntry` | codec/tetra-codec-impl.c:1067-1100 | at every entry of the logarithm table the power gives the argument back to one part in eight thousand: the two tables invert each other |
| `MathTables.RootEntry` | codec/tetra-codec-impl.c:1049-1065 | at every entry of the root table its square times the argument is the same constant to one part in sixteen thousand |
| `Autocorrelation.Autocorr` | codec/tetra-codec-impl.c:1544-1596 | any 256 samples: at most three passes, the samples used are the first rescaling that fits, every high/low pair stands exactly for its normalised lag, in plain integers too, no lag exceeds lag zero in magnitude, and entries past the last lag are untouched |
| `Autocorrelation.PartialSumBound` | codec/tetra-codec-impl.c:1574-1592 | every partial sum of every lag is bounded by the energy (Cauchy-Schwarz), so no later accumulation saturates |
| `Autocorrelation.TwoRescalesFit` | codec/tetra-codec-impl.c:1554-1572 | after two divisions by four any windowed input fits, so the rescale loop stops |
| `Autocorrelation.LagsBelowFirst` | codec/tetra-codec-impl.c:1579-1595 | normalised lags lie between minus and plus lag zero, which itself fills its top bit |
| `Autocorrelation.LagValueIs` | codec/tetra-codec-impl.c:1579-1595 | every stored lag is half the inner product of the signal with itself moved by the lag (the energy plus one for lag zero), times the power of two that brings the energy into the upper half of 31 bits |
| `Autocorrelation.FitsIff` | codec/tetra-codec-impl.c:1554-1572 | a signal counts as fitting exactly when its inner product with itself, plus one, fits 31 bits |
| `Autocorrelation.WindowedIs` | codec/tetra-codec-impl.c:1544-1552 | windowing is multiplication in Q15 to the nearest integer |
| `ImpulseMatrix.CalRr2` | codec/tetra-codec-impl.c:4880-4928 | the two pointers stepping back 33 fill every cell of both triangles of the 30 x 30 block from the scaled response, whose scaling is the largest that leaves a guard bit, and leave rows and columns 30 and 31 as they were |
| `ImpulseMatrix.ScaledIs` | codec/tetra-codec-impl.c:4893-4908 | the scaled response is the given one times the largest power of two that leaves its energy below 2^30, and then at least 2^28; halved for no energy and for 2^30 and more |
| `ImpulseMatrix.MatrixIsExact` | codec/tetra-codec-impl.c:4880-4928 | when the scaled response has its guard bit, in particular when the energy sum fits, cells (i, j) and (j, i) are both the high half of twice the sum of hs[n-2i] * hs[n-2j], with no saturation |
| `ImpulseMatrix.ScaledHasHalfEnergy` | codec/tetra-codec-impl.c:4893-4901 | when the energy sum does not saturate, the chosen scaling leaves less than half the 31-bit range of energy |
| `ImpulseMatrix.GuardBitIff` | codec/tetra-codec-impl.c:4893-4901 | for every response: the scaling leaves that guard bit if and only if the energy sum fits or the halved samples have it |
| `ImpulseMatrix.ExactIffGuardBit` | codec/tetra-codec-impl.c:4910-4925 | no correlation sum saturates if and only if the scaled samples have the guard bit |
| `ImpulseMatrix.LoudResponse` | codec/tetra-codec-impl.c:4893-4901 | sixty full-scale samples are a response without it |
| `ImpulseMatrix.ZeroMarginOverCalls` | codec/tetra-codec-impl.c:2889-2891 | the zero border of the matrix stays zero over any number of calls |
| `FrameBits.Int2bin` | codec/tetra-codec-impl.c:430-445 | writing backwards puts the n low bits of the value, most significant first, into its field and touches nothing else |
| `FrameBits.Bin2int` | codec/tetra-codec-impl.c:385-397 | reading a field gives the number its bits stand for |
| `FrameBits.Prm2bits` | codec/tetra-codec-impl.c:7278-7295 | the serial buffer becomes a zero flag followed by each parameter in its own width |
| `FrameBits.Bits2prm` | codec/tetra-codec-impl.c:4801-4816 | the parameters are the flag and the values of the fields at their offsets |
| `FrameBits.ParseSerialise` | codec/tetra-codec-impl.c:4801-4816 | for any table of widths, fields of in-range parameters are read back unchanged |
| `FrameBits.PackCodedBits` | codec/tetra-codec.c:46-58 | the 18 bytes are the packed bits whatever the output buffer held before |
| `FrameBits.UnpackCodedBits` | codec/tetra-codec.c:80-90 | bit i of the serial form is bit 7 - i mod 8 of byte i div 8 |
| `FrameBits.UnpackedPacked` | codec/tetra-codec.c:46-90 | unpacking what was packed returns all 137 bits |
| `FrameBits.PackedUnpacked` | codec/tetra-codec.c:46-90 | packing what was unpacked returns all 18 bytes, with the seven padding bits of the last one cleared |
| `FrameBits.EightShifts` | codec/tetra-codec.c:50-55 | after eight shifts nothing of a byte's earlier contents is left |
| `FrameBits.FrameRoundTrip` | codec/tetra-codec.c:46-90 | parameters, bits, bytes, bits, parameters is the identity on all 23 in-range parameters |
| `LspQuantizer.SearchBook` | codec/tetra-codec-impl.c:4975-5045 | the search returns the first vector at the smallest saturating distance, or the stale index when every distance saturates |
| `LspQuantizer.Clsp334` | codec/tetra-codec-impl.c:4963-5093 | each part of the looked-up pairs is its codebook's nearest vector; the returned pairs and `lsp_old` both become those pairs with the two joins moved apart, sums kept, or the previous frame's when that is not in order |
| `LspQuantizer.DLsp334` | codec/tetra-codec-impl.c:5859-5924 | the decoder computes the same reconstruction from the indices and the previous frame: the looked-up pairs with the two joins moved apart, or the previous frame's |
| `LspQuantizer.QuantisedDecreasing` | codec/tetra-codec-impl.c:5070-5090 | strict ordering of the quantised pairs survives every frame |
| `LspQuantizer.SeparatedIs` | codec/tetra-codec-impl.c:5046-5068 | for code vectors within 31000: the pairs where the vectors join keep their sums, stay as they are when 917 (1245) apart, are otherwise moved to that distance or one less, and nothing else moves; the distance is reached if and only if the first is not too far below the second for 16 bits |
| `LspQuantizer.CrossedJoin` | codec/tetra-codec-impl.c:5046-5055 | a join so far out of order that it comes out one unit apart and is accepted |
| `LspQuantizer.SearchFindsNearest` | codec/tetra-codec-impl.c:4975-5045 | the vector a search finds has the smallest squared distance of the whole book, in plain integers, while the differences fit 16 bits and some distance fits 31 |
| `PitchLag.PitchFr` | codec/tetra-codec-impl.c:6856-6935 | the lag in thirds is the last best integer lag moved by the best of five fractions, by the plain interpolated correlations (none above 84 in the first subframe), and is always one the index can carry |
| `PitchLag.ScoreIs` | codec/tetra-codec-impl.c:6478-6524 | while no partial sum overflows each of the five scores is the inner product of eight correlations with the filter of its phase |
| `PitchLag.WindowsAre` | codec/tetra-codec-impl.c:3043-3065 | both search windows as plain clamps: open-loop lag -2..+2 and first lag -5..+4, moved into 20..143 |
| `PitchLag.FirstIndexValue` | codec/tetra-codec-impl.c:3136-3148 | the 8-bit index counts thirds of a sample from 19 1/3 to 84 2/3 and then whole lags |
| `PitchLag.NextIndexValue` | codec/tetra-codec-impl.c:3161-3170 | the 5-bit index counts thirds from the start of the window |
| `PitchLag.FirstIndexRoundTrip` | codec/tetra-codec-impl.c:3136-3148 | every legal lag and fraction of the first subframe gives an index below 256 from which the multiply-by-10923 division recovers them |
| `PitchLag.DecodedFirstLegal` | codec/tetra-codec-impl.c:7573-7590 | every 8-bit index decodes to a legal lag and is its index, so the code is a bijection |
| `PitchLag.NextIndexRoundTrip` | codec/tetra-codec-impl.c:3161-3170 | every legal lag of the other subframes gives an index below 32 that decodes to it in the same window |
| `PitchLag.DecodedNextLegal` | codec/tetra-codec-impl.c:7614-7625 | every 5-bit index decodes to a legal lag of the window and is its index |
| `PitchLag.WindowsWithinRange` | codec/tetra-codec-impl.c:3043-3050 | search windows have their full width and stay within 20 to 143, for any lag |
| `PitchLag.LastBest` | codec/tetra-codec-impl.c:6884-6932 | of five scores tried in order, the last best one wins |
| `LongTermPrediction.PredLt` | codec/tetra-codec-impl.c:7132-7153 | the 60 new samples are a function of the samples before the subframe alone, what it held is overwritten unread and what follows is kept; each is the sample one lag back or, in plain integers, the inner product of 32 past samples with the filter of the fraction, in Q15 to the nearest |
| `LongTermPrediction.NextSampleIs` | codec/tetra-codec-impl.c:6527-6593 | one interpolated sample in plain integers, while no partial sum overflows and the result fits |
| `LongTermPrediction.TapsMirror` | codec/tetra-codec-impl.c:6527-6593 | the two interpolation filters are mirror images |
| `LongTermPrediction.ExtendedPrefix` | codec/tetra-codec-impl.c:7132-7153 | prediction leaves the history in place, also where it feeds on samples it has just produced |
| `LongTermPrediction.MacSumPrefix` | codec/tetra-codec-impl.c:6527-6593 | an interpolation that stays within the written samples does not see what lies beyond them |
| `CodeSearch.D4i60` | codec/tetra-codec-impl.c:5439-5727 | for any target, filters and matrix the search runs at most 117 innermost loops over the thresholds of the target, and returns the winner, with the plain score and energy it has, as legal pulses, their 14-bit index, the sign of its score, and the code in both filtered forms: the signed pulse train convolved with each filter; only the four guard samples of the target change, to zero |
| `CodeSearch.Search` | codec/tetra-codec-impl.c:5529-5639 | what was tried is the list of eligible combinations in order, or a beginning of it once three units for each innermost loop and four for each pair have used up 350; the winner is the start or was tried, and while the tried energies are positive nothing tried has a larger ratio of squared score to energy |
| `CodeSearch.InFirsts` | codec/tetra-codec-impl.c:5529-5625 | the list holds exactly the combinations on the grid whose mean scores are over both thresholds, each in its better shift, with its own score and energy |
| `CodeSearch.BestOfAll` | codec/tetra-codec-impl.c:5610-5625 | a search that ran to its end over positive energies returns a combination that no eligible one beats, and the start only if every eligible score is nothing |
| `CodeSearch.OneMoreTried` | codec/tetra-codec-impl.c:5613-5624 | the cross-multiplied test keeps the best of everything tried so far, because it is transitive among positive energies |
| `CodeSearch.Thresholds` | codec/tetra-codec-impl.c:5464-5515 | the thresholds are fixed fractions of the largest scores that two and three pulses could have by the extremes of each |
| `CodeSearch.ThresholdsAre` | codec/tetra-codec-impl.c:5464-5515 | both thresholds in plain integers from the extremes, for targets within 8000 |
| `CodeSearch.PairSumsAre` | codec/tetra-codec-impl.c:5464-5497 | the pair sums are those at every step-th position below 60 |
| `CodeSearch.CodeVectorIs` | codec/tetra-codec-impl.c:5640-5713 | for any pulses and filter every code sample is the floor of the signed train convolved with the filter, over 2048, reduced to 16 bits |
| `CodeSearch.PulseScoreIs` | codec/tetra-codec-impl.c:5531-5597 | the score is half the correlation of the target with the very train that the code vector is made of, while the partial scores fit |
| `CodeSearch.FourEnergyIs` | codec/tetra-codec-impl.c:5543-5610 | sixteen times the energy is the quadratic form of the matrix over the train, with signs +-+-, less at most what three divisions drop, while the last sum does not overflow |
| `CodeSearch.BetterShift` | codec/tetra-codec-impl.c:5576-5583 | the shift that is tried has the larger magnitude of the score of three pulses |
| `CodeSearch.OverThresholds` | codec/tetra-codec-impl.c:5551-5575 | what is compared with the thresholds, in plain integers: the summed scores of both shifts, in magnitude, for targets within 8000 |
| `CodeSearch.Improves` | codec/tetra-codec-impl.c:5616-5620 | cross-multiplying decides exactly which of two score-to-energy ratios has the larger product, saturation notwithstanding |
| `CodeSearch.Exceeds` | codec/tetra-codec-impl.c:5551-5556 | the test is exactly whether the mean of the two scores exceeds the threshold in magnitude |
| `CodeSearch.Extremes` | codec/tetra-codec-impl.c:5464-5471 | the two results are the halved extremes of zero and every pair sum on the grid |
| `CodeSearch.TopAndBottom` | codec/tetra-codec-impl.c:5464-5471 | those extremes bound zero and every pair sum, and each is zero or one of them |
| `CodeSearch.EnergyOfTwo` | codec/tetra-codec-impl.c:5543-5549 | the energy of two pulses is the exact weighted sum scaled by 2^-16: nothing saturates |
| `CodeSearch.EnergyOfThree` | codec/tetra-codec-impl.c:5564-5571 | the energy of three pulses is the exact weighted sum scaled by 2^-16: nothing saturates |
| `CodeSearch.EnergyOfFour` | codec/tetra-codec-impl.c:5600-5610 | for any energies the sum for four pulses is the weighted terms added in order, each partial sum saturated, scaled by 2^-16 (the smallest energy of three loads one unit short) |
| `CodeSearch.PulsesRoundTrip` | codec/tetra-codec-impl.c:5715-5790 | legal pulses give an index below 2^14 from which the decoder finds the same pulses |
| `CodeSearch.DecodedInReach` | codec/tetra-codec-impl.c:5771-5800 | any 14-bit index decodes to pulses that stay within the 64 zeros in front of the filter |
| `CodeSearch.Convolve` | codec/tetra-codec-impl.c:5640-5713 | all the sign and shift variants of the convolution loop compute the signed pulse train (weights 2896, -2048, 2048, -2048) convolved with the filter, divided by 2048 and reduced to 16 bits |
| `CodeSearch.DD4i60` | codec/tetra-codec-impl.c:5771-5825 | the decoder builds the code vector of the pulses that the index stands for: the same signed train convolved with the filter |
| `Synthesis.SynFiltBuffers` | codec/tetra-codec-impl.c:2652-2688 | filtering between buffers depends only on the samples and memory at the call, also when input, output and memory overlap; every output is, in plain integers, its input less the last ten outputs times their coefficients, to the nearest; the last ten outputs are left as memory when updating |
| `Synthesis.FilterStepIs` | codec/tetra-codec-impl.c:2671-2677 | one output of the synthesis filter in plain integers, while no partial sum overflows and the result fits |
| `Synthesis.PondAiIs` | codec/tetra-codec-impl.c:2548-2557 | each coefficient is multiplied by its own factor in Q15, to the nearest |
| `Synthesis.FacPondIs` | codec/tetra-codec-impl.c:2010-2018 | the factors are the powers of gamma, each rounded to the nearest |
| `Synthesis.LpcGainIs` | codec/tetra-codec-impl.c:2438-2456 | the gain is the energy of the response to 1024 at rest, while it fits 32 bits |
| `Synthesis.EncoderNoiseFilter` | codec/tetra-codec-impl.c:3203-3214 | the filter built through `ai_zero` is the shared noise response, and the zeros that serve as memory stay zero; in plain integers it is the coefficients expanded one way through the filter of those expanded the other way, shaped |
| `Synthesis.DecoderNoiseFilter` | codec/tetra-codec-impl.c:7632-7655 | the filter that overwrites its own input, with memory read from the same buffer, is the same noise response |
| `Synthesis.PitchShapedStart` | codec/tetra-codec-impl.c:3208-3214 | samples before the first pitch period are not shaped |
| `Synthesis.PitchShapedIs` | codec/tetra-codec-impl.c:3208-3214 | from the lag on 26216 / 2^15 of the shaped sample one lag earlier is added, saturating once |
| `SpectralPolynomials.LspAzIs` | codec/tetra-codec-impl.c:2488-2514 | for any spectral pairs whose products stay below 64 the ten filter coefficients are within 0.67 of the last bit of the exact ones, those of F1(z) (1 + z^-1) + F2(z) (1 - z^-1), wherever these fit |
| `SpectralPolynomials.PolynomialIs` | codec/tetra-codec-impl.c:2048-2081 | each product polynomial is within 340 units of 2^-24 of the exact one, although it is stored by halves and multiplied piecewise |
| `SpectralPolynomials.IntLpc4Is` | codec/tetra-codec-impl.c:2113-2142 | the filter of subframe k is that of the pairs mixed 3:1, 1:1, 1:3 and 0:1 between the old and the new ones |
| `Gains.SearchGains` | codec/tetra-codec-impl.c:6143-6155 | the gain search returns the first entry at the smallest saturating distance |
| `Gains.EnerQua` | codec/tetra-codec-impl.c:5977-6205 | the chosen entry is nearest to the wanted errors, both told in plain integers; energies are the entry plus half the own and a quarter of the other last energy less 768, limited; gains are the powers of two for the distances of those energies from the logarithms of the energies of the two vectors |
| `Gains.DecEner` | codec/tetra-codec-impl.c:5143-5323 | the decoder reconstructs the same gains and energies from the entry, told in plain integers |
| `Gains.PredictedIs` | codec/tetra-codec-impl.c:5251-5268 | the expected energy in plain integers, for all energies |
| `Gains.QuantisedGainsAre` | codec/tetra-codec-impl.c:5285-5320 | the two gains in plain integers, the pitch gain limited to 4915 |
| `Gains.PitchEnergyIs` | codec/tetra-codec-impl.c:6018-6045 | the energy of the prediction as a sum of logarithms with its constant, while the sum of squares fits |
| `Gains.WantedErrors` | codec/tetra-codec-impl.c:6073-6131 | what the search is for: logarithms of the squared gains, plus the energies, less what is expected |
| `Gains.NearestEntry` | codec/tetra-codec-impl.c:6143-6155 | the entry found has the smallest squared distance, and is the first such, while all differences fit 16 bits |
| `SpeechCodec.ParamsRoundTrip` | codec/tetra-codec-impl.c:3134-3240 | every decision of a legal frame survives its 23 parameters |
| `SpeechCodec.RangesMatchWidths` | codec/tetra-codec-impl.c:4801-4816 | the parameters that fit their bit fields are exactly those the decoder can take |
| `SpeechCodec.LegalIsUsable` | codec/tetra-codec-impl.c:3184-3240 | legal decisions never make prediction or convolution reach outside its buffers |
| `SpeechCodec.DecodedIsUsable` | codec/tetra-codec-impl.c:7564-7691 | no error-free frame, whatever its bits, makes the decoder reach outside its buffers |
| `SpeechCodec.PredictInPlace` | codec/tetra-codec-impl.c:3184 | the adaptive vector depends on the past excitation alone and the past stays |
| `SpeechCodec.Synthesise` | codec/tetra-codec-impl.c:3249-3273 | excitation, speech and filter memory after a subframe, stated over the buffers both ends use; each excitation sample is the prediction times the pitch gain plus the code times the code gain over 4096, to the nearest, wherever that fits |
| `SpeechCodec.SubStepsAppend` | codec/tetra-codec-impl.c:3077-3275 | later decisions do not change subframes already made |
| `FrameMeaning.SubStepIsRight` | codec/tetra-codec-impl.c:3077-3275 | a whole subframe in plain integers: prediction, pulse train through the noise filter, energies, gains, excitation and speech |
| `FrameMeaning.FrameStepIsRight` | codec/tetra-codec-impl.c:2940-3293 | a whole frame in plain integers: accepted spectral pairs, four interpolated filters, four such subframes, and what is carried on |
| `FrameMeaning.ParamsAre` | codec/tetra-codec-impl.c:3134-3240 | which parameter carries what, and its value from the decisions |
| `FrameMeaning.DecodedAre` | codec/tetra-codec-impl.c:7490-7640 | what the decoder finds in any parameters that fit their fields, told the same way |
| `SpeechEncoder.Encoder.constructor` | codec/tetra-codec-impl.c:2860-2907 | a new encoder carries the common start state |
| `SpeechEncoder.Encoder.ChoosePitch` | codec/tetra-codec-impl.c:3104-3184 | the residual in the excitation buffer does not leak: lag, index and adaptive vector are those of the decision |
| `SpeechEncoder.Encoder.Innovate` | codec/tetra-codec-impl.c:3203-3233 | pulses are legal, the code is the one the decoder will build, the zeros behind `ai_zero` and the border of the matrix survive |
| `SpeechEncoder.Encoder.CodeSubframe` | codec/tetra-codec-impl.c:3077-3275 | for any analysis the subframe leaves behind exactly what its decision reconstructs to |
| `SpeechEncoder.Encoder.CodeFrame` | codec/tetra-codec-impl.c:2940-3293 | for any analysis the frame is legal, its parameters are those of its decisions in their order, its local synthesis and next state are what the decisions alone determine, in plain integers too, and `lsp_old` equals `lspold_q`, strictly decreasing |
| `SpeechDecoder.Decoder.constructor` | codec/tetra-codec-impl.c:7423-7462 | a new decoder carries the same start state |
| `SpeechDecoder.Decoder.DecodeSubframe` | codec/tetra-codec-impl.c:7564-7691 | the subframe leaves behind what the decoded decision reconstructs to |
| `SpeechDecoder.Decoder.DecodeFrame` | codec/tetra-codec-impl.c:7490-7704 | speech and next state are what the decoded decisions determine, and both the decisions and the reconstruction are told in plain integers |
| `Lockstep.DecisionsSurvive` | codec/tetra-codec.c:60-105 | lag, fraction, pulses, gains and spectral indices all survive the 18 bytes |
| `Lockstep.RunsAgree` | codec/tetra-codec-impl.c:2940-7704 | over every run of legal frames the decoder's spectral pairs, excitation, energies, filter memory and speech equal the encoder's own, and the pairs stay strictly decreasing |
| `Lockstep.TetraEncode` | codec/tetra-codec.c:60-76 | the bytes carry the decisions that produced the local synthesis |
| `Lockstep.TetraDecode` | codec/tetra-codec.c:92-105 | the speech is what the received decisions determine |
| `Lockstep.Exchange` | codec/tetra-codec.c:60-105 | one frame keeps the two states equal and reproduces the local synthesis sample for sample |
| `Lockstep.Converse` | codec/tetra-codec.c:14-105 | from two new codecs, after any sequence of analyses, what was heard is the encoder's local synthesis and both states agree |
| `Mesh.MeshRouter.PrepareOutgoing` | internal/federation/mesh.go:42-53 | only what the caller left empty is filled in, and the id is remembered |
| `Mesh.MeshRouter.ShouldProcess` | internal/federation/mesh.go:56-75 | true exactly for foreign, live messages that have not been here by path or by id; only acceptance marks |
| `Mesh.MeshRouter.Cleanup` | internal/federation/mesh.go:120-133 | exactly the ids marked more than thirty seconds ago are forgotten |
| `Mesh.MeshRouter.Handle` | internal/federation/hub.go:775-789 | accepted exactly when foreign, live and new by path and id; then with hops left it goes out once more, one hop shorter and with this server on its path, to every listed peer but the sender and those on the path |
| `Mesh.BroadcastToAllPeers` | internal/federation/hub.go:1518-1529 | every peer name gets one copy however often the table lists it |
| `Mesh.RelayToPeers` | internal/federation/hub.go:1535-1546 | every peer name gets one copy except the sender and everyone on the path |
| `Mesh.IsInPath` | internal/federation/mesh.go:98-105 | the scan decides membership in the path |
| `Mesh.Fanout` | internal/federation/hub.go:1535-1546 | the receivers are exactly the listed names that are not skipped, each once |
| `FloodTermination.DeliveryLowersPotential` | internal/federation/mesh.go:78-95 | each delivery strictly lowers the sum of N^ttl over the copies in flight, whatever the servers remember |
| `FloodTermination.DeliveriesBounded` | internal/federation/hub.go:1535-1546 | over any run, with ids forgotten at any time, deliveries are bounded by what was in flight and N^11 for each broadcast |
| `FloodTermination.SendsBounded` | internal/federation/hub.go:1518-1546 | from a quiet network k broadcasts cause at most k * N^11 sends, with ids forgotten at any time |
| `FloodTermination.SendsBalance` | internal/federation/hub.go:1535-1546 | every copy sent is delivered or still in flight |
| `FloodTermination.FanoutSize` | internal/federation/hub.go:1535-1546 | a fan-out reaches fewer than all servers |
| `FloodDelivery.OriginateEstablishes` | internal/federation/mesh.go:42-53 | a fresh broadcast establishes the delivery invariant |
| `FloodDelivery.AcceptedDelivery` | internal/federation/mesh.go:56-95 | acceptance keeps it: a server that accepts at the last hop has nobody left to tell, otherwise every neighbour has the message or a copy coming |
| `FloodDelivery.RejectedDelivery` | internal/federation/mesh.go:56-75 | a copy is only ever turned away by a server that has the message |
| `FloodDelivery.PathExhausts` | internal/federation/mesh.go:78-95 | when no way from the originator passes twelve servers without repeating one, everybody next to a receiver at the last hop is on the path |
| `FloodDelivery.FewAreCompact` | internal/federation/mesh.go:78-95 | networks of up to eleven servers have no such way |
| `FloodDelivery.RunKeepsInv` | internal/federation/hub.go:530-586 | the invariant survives every interleaving with other broadcasts |
| `FloodDelivery.DeliveredExactlyOnce` | internal/federation/mesh.go:56-95 | on networks of any size without a way of twelve servers from the originator: nobody accepts twice, and once no copy is left exactly the servers connected to the originator have accepted it, each once and with the originator's payload, the originator not at all |
| `FloodLimit.TwelfthIsMissed` | internal/federation/mesh.go:20 | on a line of twelve, with any number of other servers, a run ends with nothing in flight and the far end untold |
| `FloodLimit.ElevenIsTheLimit` | internal/federation/mesh.go:20 | every valid network of n servers always delivers if and only if n is at most eleven |
| `Netstack.OneCallPerRoute` | internal/service/netstack_bridge.go:716-746 | two tracked calls never share a route |
| `Netstack.DisplacedAre` | internal/service/netstack_bridge.go:723-738 | a new call displaces the holder of its route and the bearer of its id, and nobody else |
| `Netstack.LockedWithout` | internal/service/netstack_bridge.go:634-646 | removing a call with its lock keeps locks and calls in one-to-one correspondence |
| `Netstack.LockedWith` | internal/service/netstack_bridge.go:740-745 | adding a call on a free route under a free id keeps it |
| `Netstack.EvictedIffExpired` | internal/service/netstack_bridge.go:754-768 | a tracked call is evicted exactly when its own lock has run out |
| `Netstack.NetstackBridge.RegisterPendingCall` | internal/service/netstack_bridge.go:716-746 | blocked exactly by a live lock of another call; otherwise the displaced calls go with their traffic entries, are reported as stale, and the new one holds its route, its id and its traffic id; if every call had its own traffic entry, then that stays so if and only if no remaining call has the new traffic id |
| `Netstack.NetstackBridge.DropCall` | internal/service/netstack_bridge.go:634-646 | the call, its own lock and the entry of its traffic id go, every other call, lock and entry stays |
| `Netstack.NetstackBridge.EvictExpiredCalls` | internal/service/netstack_bridge.go:748-789 | exactly the expired locks, their calls and the entries of those calls' traffic ids go, active ones to be released and pending ones to be dropped |
| `Netstack.NetstackBridge.TransitionCallState` | internal/service/netstack_bridge.go:620-632 | a reported state is stored and the lock lives on; no call changes hands and every other call is unchanged |
| `Netstack.NetstackBridge.OnTrafficFrame` | internal/service/netstack_bridge.go:648-701 | a frame is counted and kept until the threshold hands out everything kept; a pending call past its age is dropped instead |
| `Netstack.NetstackBridge.MarkCallActivated` | internal/service/netstack_bridge.go:703-714 | activation keeps frames and tables |
| `Netstack.NetstackBridge.HandleFrame` | internal/service/netstack_bridge.go:371-404 | one frame keeps every invariant; a call that cannot start is dropped having passed nothing on, and the three tables are stated either way |
| `Netstack.NetstackBridge.OnTrafficMessage` | internal/service/netstack_bridge.go:338-405 | the message reaches the call its traffic id stands for exactly when that entry survives the eviction, and nobody otherwise; for a call that is active in the end the frames passed on are the frames received, in order, each once, across buffer, flush and live phase; one that never activates passes nothing on; which calls survive is stated exactly, and all other calls are unchanged |
| `Netstack.NetstackBridge.OnCeased` | internal/service/netstack_bridge.go:281-306 | an active call goes idle, a pending one is dropped; no call's frames change, and every other call is unchanged |
| `Netstack.NetstackBridge.OnReleased` | internal/service/netstack_bridge.go:308-334 | the call goes either way, with its lock and the entry of its traffic id, released downstream exactly when it was active; no call's frames change, and every other call is unchanged |
| `Netstack.CompleteWithIff` | internal/service/netstack_bridge.go:740-745 | when every tracked call has its own traffic entry, adding one on a free route and id keeps that if and only if no tracked call has its traffic id |
| `Netstack.RegistrationIff` | internal/service/netstack_bridge.go:716-746 | the same for a whole registration with the calls it displaces |
| `Netstack.AdmittedIs` | internal/service/netstack_bridge.go:716-746 | the tables after a registration entry by entry: who makes way, whose traffic entry goes, and what comes |
| `Netstack.StillThereIs` | internal/service/netstack_bridge.go:748-789 | the tables after an eviction entry by entry |
| `Netstack.CompleteWithout` | internal/service/netstack_bridge.go:641-646 | removing any calls with their traffic ids never takes the entry of another call, as long as every call has its own |
| `Netstack.SurvivesIff` | internal/service/netstack_bridge.go:748-789 | an entry survives a removal exactly when none of the removed calls has its traffic id |
| `Netstack.CompleteSurvivesIff` | internal/service/netstack_bridge.go:748-789 | when every call has its own entry, an entry survives an eviction exactly when the lock of its own call has not run out |
| `Netstack.SharedTrafficIsLost` | internal/service/netstack_bridge.go:642-646 | in any state with two tracked calls on one traffic id: after one is released, messages for the other are ignored although it is tracked, unchanged and holds its lock |
| `Netstack.SharedTrafficHappens` | internal/service/netstack_bridge.go:740-743 | two registrations on two routes reach such a state |
| `Proxy.ProxyBridge.HandleInboundSetup` | internal/service/proxy_bridge.go:220-264 | duplicates are ignored, a full bridge answers busy, otherwise a session appears under both ids and both legs are set up: the caller is accepted and the target is called by the bridge, with no number, grant or permission, in the caller's mode; exactly those two legs enter the books, and nothing is released |
| `Proxy.ProxyBridge.HandleOutboundConnect` | internal/service/proxy_bridge.go:335-378 | only the outbound leg can connect a session; the caller is told, by the bridge, granted and permitted, in its own mode, and the target confirmed |
| `Proxy.ProxyBridge.HandleLegFailure` | internal/service/proxy_bridge.go:380-415 | the other leg, alone, is released once and both entries go; exactly the failing leg is booked as reported, none for an unknown id; the remaining sessions are unchanged |
| `Proxy.ProxyBridge.HandleOutboundAccept` | internal/service/proxy_bridge.go:285-311 | ringing is noted exactly for the outbound leg of a dialing session; nothing is sent or changed |
| `Proxy.ProxyBridge.OnBrewFrame` | internal/service/proxy_bridge.go:417-438 | voice goes to the other leg of the same session and nowhere else |
| `Proxy.ProxyBridge.Sweep` | internal/service/proxy_bridge.go:453-501 | exactly the sessions dialing for longer than the dial timeout or silent for longer than the idle timeout go, and each of their legs is released once; the remaining sessions keep their states |
| `Proxy.ProxyBridge.Stop` | internal/service/proxy_bridge.go:151-181 | every tracked leg is released once |
| `Proxy.ProxyBridge.UniqueSessionCount` | internal/service/proxy_bridge.go:503-509 | each session counts once although the table lists it twice |
| `Proxy.ModeCrossesBridge` | internal/service/proxy_bridge.go:272-283 | whatever set-up request the parser accepted, the request or answer built from it reads back on the wire as a call between the bridge's parties in the caller's mode |
| `Proxy.OneReportedOneReleased` | internal/service/proxy_bridge.go:380-415 | a leg failure keeps the balance: legs set up = tracked + ended by own report + released |
| `Proxy.BothAreReleased` | internal/service/proxy_bridge.go:453-501 | taking a session down keeps the balance |
| `Proxy.OnlyItsLegs` | internal/service/proxy_bridge.go:240-241 | a session is listed under its two ids and no other |
| `BrewStability.CallControlStable` | internal/brew/protocol.go:231-330 | for every byte string the parser takes as call control the builder succeeds and the parser reads the same message back |
| `BrewStability.PayloadRoundTrip` | internal/brew/protocol.go:489-528 | every payload in its state is rebuilt with that state and reads back unchanged |
| `BrewStability.MessageRoundTrip` | internal/brew/protocol.go:489-528 | any message is rebuilt and read back as itself if and only if its payload belongs to its state |
| `BrewStability.FrameStable` | internal/brew/protocol.go:332-365 | an accepted frame survives re-encoding if and only if it has no data under a bit length of zero; otherwise only the bit length changes, to 64 |
| `BrewStability.UnstableFrames` | internal/brew/protocol.go:332-365 | the failing frames, told from the bytes: SDS transfers with bit length zero and at least eight payload bytes |
| `BrewStability.UnstableExample` | internal/brew/protocol.go:637-652 | one such frame |
| `BrewStability.FrameShape` | internal/brew/protocol.go:332-365 | accepted data fills its bit length, or for short data exceeds it by exactly eight bytes |
| `BrewStability.SubscriberRoundTrip` | internal/brew/protocol.go:440-451 | a subscriber message reads back with every group |
| `BrewStability.ErrorAndServiceStable` | internal/brew/protocol.go:685-698 | error messages are rebuilt byte for byte, service messages read back unchanged |
| `BrewLayout.ControlLayout` | internal/brew/protocol.go:231-330 | every field of every accepted call-control message is the bytes at its place, and each state has its kind of payload |
| `BrewLayout.ControlAcceptedIff` | internal/brew/protocol.go:231-330 | a call-control message is accepted if and only if it has the bytes that its state needs |
| `BrewLayout.FrameAcceptedIff` | internal/brew/protocol.go:332-416 | exactly the frames that have the data they announce, of the form their type asks for, are accepted, with these bytes as fields |
| `BrewLayout.BuiltFrame` | internal/brew/protocol.go:637-684 | what the builder writes for any payload: bit length, and the data cut or filled up with zeros |
| `BrewLayout.SubscriberLayout` | internal/brew/protocol.go:209-229 | every field and every group of a subscriber message is the bytes at its place |
| `Brew.ServiceEnd` | internal/brew/protocol.go:199-207 | the scan stops at the first zero byte or at the end |
| `Brew.ReadGroups` | internal/brew/protocol.go:225-227 | the loop reads every complete group and ignores up to three trailing bytes |
| `Brew.FixedStringRoundTrip` | internal/brew/protocol.go:427-438 | a zero-free string that fits its field is read back |
| `Brew.AppendLe32` | internal/brew/protocol.go:534-541 | the appended bytes are the little-endian form of the value |
| `PeerTables.LastRegisterWins` | internal/federation/hub.go:775-789 | after a register the subscriber has exactly the groups it sent, whatever came before and whatever others do afterwards |
| `PeerTables.RunRefines` | internal/federation/peer.go:200-257 | after any run of updates the inverse tables agree, for every subscriber, with the simple view, and no group is left empty |
| `PeerTables.Peer.RegisterISSI` | internal/federation/peer.go:200-217 | the origin is replaced and the subscriber leaves every group; other subscribers stay |
| `PeerTables.Peer.DeregisterISSI` | internal/federation/peer.go:220-231 | the tables are those of the deregister update |
| `PeerTables.Peer.AffiliateISSI` | internal/federation/peer.go:234-243 | the tables are those of the affiliate update |
| `PeerTables.Peer.DeaffiliateISSI` | internal/federation/peer.go:246-257 | the tables are those of the deaffiliate update |
| `PeerTables.Peer.HandleUpdate` | internal/federation/hub.go:775-805 | each update does to its own subscriber what it says, leaves every other subscriber alone, refines the simple view and leaves no empty group |
| `PeerTables.Peer.HasSubscribersOnGSSI` | internal/federation/peer.go:260-264 | true exactly when some subscriber belongs to the group |
| `PeerTables.AdoptPeerState` | internal/federation/hub.go:1371-1398 | the new peer has the old tables unchanged, the old one has none |
| `VirtualIssi.Service.EnsureGroupCallout` | internal/service/virtual_sds.go:77-155 | a group keeps its number and nothing counts as created; otherwise it gets the first available one of the circular probe, or the fallback after a full round; no other endpoint or group changes |
| `VirtualIssi.Service.UpsertEndpoint` | internal/service/virtual_sds.go:59-75 | naming an endpoint by hand touches that endpoint and no group |
| `VirtualIssi.Service.DeleteEndpoint` | internal/service/virtual_sds.go:157-165 | deleting one by hand touches that endpoint and no group |
| `VirtualIssi.RunKeepsNumbers` | internal/service/virtual_sds.go:77-155 | from an empty service, through any calls, namings and deletions with room in the pool, groups have distinct numbers at every moment and no number is ever changed |
| `VirtualIssi.TakesForeignIff` | internal/service/virtual_sds.go:139-155 | a foreign endpoint is taken over if and only if the pool is full and the fallback number is one |
| `VirtualIssi.CrowdedTakesForeign` | internal/service/virtual_sds.go:139-155 | a state in which that happens |
| `VirtualIssi.ProbeCoversPool` | internal/service/virtual_sds.go:112-116 | the probe reaches every number of the pool |
| `VirtualIssi.ProbeNeverRepeats` | internal/service/virtual_sds.go:112-116 | and none twice |
| `VirtualIssi.ProbeOrder` | internal/service/virtual_sds.go:112-116 | it goes through the pool in order and starts again at its beginning |
| `VirtualIssi.FirstChoice` | internal/service/virtual_sds.go:112-116 | in an empty registry a group gets the number its last four digits name |
| `VirtualIssi.ForeignIff` | internal/service/virtual_sds.go:118-123 | an endpoint is foreign if and only if its name does not begin with the fourteen characters of group names |
| `VirtualIssi.NamesAre` | internal/service/virtual_sds.go:79 | a group's endpoint is named by those characters and its number in decimal |
| `VirtualIssi.RoomKeepsInjective` | internal/service/virtual_sds.go:112-137 | while the pool has room groups keep distinct numbers and no foreign endpoint is taken over |
| `VirtualIssi.InjectiveIff` | internal/service/virtual_sds.go:112-155 | numbers stay distinct if and only if the pool has room or the fallback is not another group's |
| `VirtualIssi.FullPoolCollides` | internal/service/virtual_sds.go:139-155 | with the pool full, two groups that agree modulo 10000 get the same number |
| `VirtualIssi.CountingRoom` | internal/service/virtual_sds.go:104-128 | fewer groups and foreign endpoints than numbers leave room |
| `VirtualIssi.Service.OccupiedByOthers` | internal/service/virtual_sds.go:104-110 | exactly the numbers other groups hold |

## Left out

Codec:

- The bad-frame path of the decoder (bfi = 1), with `old_parm` and `old_T0`, which only it reads: it copies `lspold` from index 1 and breaks the ordering of the pairs.
- Pre- and post-processing of samples, lag windowing, Levinson recursion, root finding, open-loop pitch, backward filtering, residual, target and gain computation: their results are the free inputs of `Analysis`. Their filter memories (`mem_w`, `mem_w0`, `old_wsp`, `old_speech`, `lspold`) are therefore absent.
- `Norm_Corr`: its correlations are inputs of `PitchFr`.
- `Lsp_Az`, `Int_Lpc4`, `Lpc_Gain`, `Pond_Ai`, `Fac_Pond`, `Log2`, `inv_sqrt`, `pow2` and the basic operations are functions on values: their updates in place of small local arrays are not modelled.
- `st->Overflow` is tracked only where it decides something, in the rescale loop of `Autocorr`.
- The encoder's h2 response is copied into a 60-sample buffer for `Cal_Rr2`, where the source passes a pointer.
- CodeSearch.Search: says nothing about ratios once a tried energy is zero or negative, where the cross-multiplied test of the source is no longer an order, and nothing about combinations that the time budget leaves untried.
- Gains.EnerQua: its logarithms and powers are the piecewise linear ones of the tables, not the real ones; at the table entries they invert each other to one part in eight thousand.
- FrameMeaning.FrameStepIsRight: says nothing of a sample whose sum overflows or does not fit 16 bits, nor of filters with a product above 64; there `FrameStep`, with its saturating operators, is all that is stated.
- PitchLag.PitchFr: takes the normalised correlations as given.
- Codebook and gain table contents: only their sizes matter. The interpolation taps are a parameter too; `SpeechCodec.StandardTables` has those of the standard.

Federation:

- gRPC streams, handshakes, reconnect timers, pending-peer expiry, bounded send queues (no copy is dropped), goroutines and mutex interleavings.
- Private calls and call replies, which are point to point and never relayed; the maps of active and private calls.
- `BroadcastStation` may send under a foreign origin: `FloodDelivery.Inv` is for messages whose origin is the sender.
- FloodDelivery.DeliveredExactlyOnce: assumes that no server forgets the id during the run; the thirty-second window is modelled in `Mesh.MeshRouter.Cleanup` and as the `Forget` step, under which only `FloodTermination` holds.
- Station records across servers have no merge order, so there is no convergence to state.
- PeerTables.AdoptPeerState: two distinct peers; deciding which pending peer is redeemed is not modelled.

Bridges and wire:

- MQTT, JSON, route files, traffic decoding (including the bit reordering of `channelToCodec`) and call-new parsing: calls and frames arrive decoded.
- Netstack.NetstackBridge.OnTrafficMessage: takes one time and one subscriber answer for the whole message.
- Proxy.ProxyBridge.HandleLegFailure: has no branch for a session already releasing, since no such session is ever in the table.
- Proxy.ProxyBridge.HandleInboundSetup: outbound ids come from outside and are assumed unused.
- Brew: `nil` and raw byte-slice payloads of the builder, which the parser never produces; the JSON inside service messages.
- BrewStability.SubscriberRoundTrip: the clock that `BuildSubscriber` reads is a parameter.
- VirtualIssi.Service.EnsureGroupCallout: message queues and counters of endpoints are not modelled.
- HTTP, WebSocket, digest authentication, MQTT transport, storage, coverage, APRS, RadioID, telemetry, audio process control, dashboards and configuration loading.
