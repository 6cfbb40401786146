# racerand, modelled in Dafny

This project models the code of racerand that decides something a proof can settle: the integer cores of
its SP 800-22 tests, the racing harvester as a concurrent state machine, the SP 800-90B health tests, and
the Reader with its deterministic generator, its lifecycle and its error handling. `dafny verify
dfyconfig.toml` checks all of it.

## Layout and main results

**Statistical tests.** Code that works on arrays in place is modelled by methods over arrays.

- `Gf2Space.dfy`, `Gf2Rank.dfy`: Gaussian elimination over GF(2), over any space with an XOR-like addition
  and columns, then for 32-bit rows. The number `rank32` returns is the base-2 logarithm of the number of XOR
  combinations of the rows it was given; every swap and every XOR step keeps that span.
- `CyclicPatterns.dfy`, `Serial.dfy`: the rolling register counts every cyclic pattern; the left and right
  marginals of the counts agree; n del1 and n del2 are powers of two times sums of squares, so both are
  nonnegative on every input and del1 vanishes exactly on balanced inputs.
- `Universal.dfy`: the distances that are logged are those to the latest earlier equal block.
- `SerialCorrelation.dfy`: Cauchy-Schwarz for the cyclic correlation, with both cases of equality.
- `ConditionalGuess.dfy`: the score is the largest that any predictor of a sample from the one before it can
  reach; the table version and the map version agree.
- `Binomial.dfy`: `aptCutoff` is the binomial quantile. The tail loop needs that the probabilities add up to
  one; that the cutoff is monotone needs that the distribution function is antitone in p.

**The source.** `Harvester.dfy` has one action for every atomic access of a worker, of Start, Stop and Close,
and of the sampler, in any order. One inductive invariant gives what holds whenever the mutex is free, what
the samples add up to, and how long stopping and sampling can take. `HarvesterCalls.dfy` proves what a call
comes to when it returns, in every interleaving, and that it can return. `Sampling.dfy` has the packing, the poll
loop as the sampler runs it, and what happens when the workers stall: the health tests reject the source.

**The Reader.** `HealthTests.dfy` has the streaming tests as a class proved against a specification on the
trace of samples. `ReaderModel.dfy` says what every operation of `reader.go` does as a function on values;
`Reader.dfy` is the object, with its arrays, its harvester and its health tests, and each of its methods is
proved to do exactly that in place. `ReaderInvariants.dfy` proves what every public call keeps,
`ReaderRuns.dfy` what therefore holds over every sequence of calls, and `ReaderStreams.dfy` that the read loops
are chunked forms of one byte stream. `ReaderEffects.dfy` and `ReaderCallEffects.dfy` say what the calls come to
without the functions that compute it: what goes into each hash, exactly when a call succeeds, which bytes and
words it returns, and what is left. `ReaderVetting.dfy` proves that nothing is used but samples that passed, and
that a Reader on a healthy source never fails. `ReaderSessions.dfy` proves that the runs of the object are those
sequences. The precondition `Usable` of the reading methods is part of `Between`, which
`ReaderRuns.AlwaysBetween` proves of every state a run reaches, so no caller has to do anything for it.
`Chunked.dfy` is the loop that both block-buffered reads have in common. `Drbg.dfy` and `Jitter.dfy` are
AES-CTR and the conditioned jitter reader; `Bytes.dfy` is the little-endian encoding.

## How the outside is modelled

- Raw samples, looks at GOMAXPROCS and reads of crypto/rand are sequences fixed in a `World` and looked up in
  order; every theorem holds for every `World`. So are SHA-512, the startup estimator and the answers of the
  generator, as functions.
- Floating point is exact: counts and sums of squares are integers, quotients reals. `2^-minEntropy`,
  `-log2(alpha)/minEntropy` and the startup estimate are parameters, and the log-gamma of `lchoose` is the
  binomial coefficient.
- `since` is a 64-bit `Reader.int64`, so that every addition to it is proved not to overflow, for reseed
  intervals up to the largest int. The word of the harvester wraps around. The statistics counters, which the source keeps in
  uint64, are unbounded.
- Bits of the sequences of the serial and universal tests are numbers, and shifts and masks on the register
  are multiplication and remainder; `rank32`, `pack` and `Fold` are on bit-vectors.

## Edge cases worth knowing

- `universal`: the check `k <= 0` never fires; once the length passes the first threshold there are at least
  1000 * 2^l test blocks (`Universal.LoggedDistances`).
- `Sample` is documented to return a saturated sample when no worker runs. The poll field holds the low byte
  of 2^20, so it reads zero; the delta field is zero as well (`Harvester.StalledSamplesRepeat`).
- `patternCounts` indexes out of range when m - 1 exceeds the number of bits; its callers exclude that, and
  `CyclicPatterns.PatternCounts` requires it. `serial` calls it only with n >= 2^m, which is enough.
- `check` fails a second equal sample already when the repetition cutoff is below 2 and never fails a first one
  (`HealthTests.RunLimit`). `rctCutoff` never returns less than 2 for alpha below 1.

## Model

| member | source | states |
|---|---|---|
| Gf2Space.SpanIsCombinations | stattest/nist.go:242-264 | the span the rank is about is exactly the set of XOR combinations of the rows |
| Gf2Space.SpanLeast | stattest/nist.go:242-264 | the span is the least XOR-closed set holding the rows: rows taken from another span stay inside it |
| Gf2Space.SwapKeepsSpan | stattest/nist.go:255 | swapping two rows keeps the span |
| Gf2Space.AddKeepsSpan | stattest/nist.go:256-260 | XORing the pivot row into any set of other rows keeps the span |
| Gf2Space.OwnColumnDoubles | stattest/nist.go:255-261 | a row with a column of its own doubles the number of combinations |
| Gf2Space.ReducedSpanSize | stattest/nist.go:261-263 | reduced rows with p pivots, the rest zero, have exactly 2^p combinations |
| Gf2Space.PivotStep | stattest/nist.go:255-261 | clearing a column with its pivot keeps the reduced form and extends it by that column |
| Gf2Space.FindPivot | stattest/nist.go:245-251 | the first row from rank down with a one in the column, or -1 when there is none |
| Gf2Space.PivotColumn | stattest/nist.go:244-262 | one turn of the column loop keeps the span and leaves the rows reduced down to that column |
| Gf2Space.ReducedHasRank | stattest/nist.go:244-263 | when the columns or the rows run out the pivots count the rank and all other rows are zero |
| Gf2Space.Rank | stattest/nist.go:242-264 | the number of XOR combinations of the original rows is 2^result; the rows end in reduced echelon form with that many pivots, spanning the same set |
| Gf2Rank.BitsAreLinear | stattest/nist.go:247-258 | bits of 32-bit rows behave as columns: XOR adds them, and only zero has none |
| Gf2Rank.Rank32 | stattest/nist.go:242-264 | the same for 32 rows of 32 bits |
| Gf2Rank.BuildMatrix | stattest/nist.go:217-226 | for a sequence of bits, column 31-c of row r of matrix k is bit 1024k + 32r + c |
| Gf2Rank.MatrixAt | stattest/nist.go:219-225 | the same of the matrix the rank counts are about |
| Gf2Rank.RowValueAt | stattest/nist.go:221-224 | the columns of a row are its bits, first bit most significant |
| Gf2Rank.CountByRank | stattest/nist.go:227-232 | a matrix has one rank, so tallying results counts matrices by true rank |
| Gf2Rank.RankCounts | stattest/nist.go:210-235 | f32 and f31 count the matrices of rank 32 and 31 by the size of their row space; not applicable exactly below 38 matrices |
| CyclicPatterns.WindowFront | stattest/nist.go:313-325 | a cyclic window is its first bit followed by the next window |
| CyclicPatterns.RollAndCount | stattest/nist.go:318-325 | one turn of the register keeps the counts exact for the windows passed so far |
| CyclicPatterns.PatternCounts | stattest/nist.go:307-327 | every entry is the number of positions of the cyclic sequence that show the bits of that pattern; all zero for m = 0 or no bits |
| CyclicPatterns.WindowShows | stattest/nist.go:314-325 | the register holds a pattern exactly when the cyclic bits from there on are its bits |
| CyclicPatterns.CountIsPositions | stattest/nist.go:307-327 | a count is the number of positions where the pattern stands, bit by bit |
| CyclicPatterns.Marginals | stattest/nist.go:307-327 | a pattern occurs as often as its two right extensions together, and as its two left extensions together |
| CyclicPatterns.CountsTotal | stattest/nist.go:307-327 | the counts of one pattern length total n |
| CyclicPatterns.ToBits | stattest/nist.go:102-110 | eight bits per byte, most significant first: the 8-bit pattern at 8i is byte i |
| Serial.FirstDifference | stattest/nist.go:357-368 | twice the squares of the longer counts are the squares of the shorter ones plus the squared differences of the extensions |
| Serial.FourCounts | stattest/nist.go:367-369 | the counts around an m-bit middle in terms of the four (m+2)-bit ones |
| Serial.SecondDifference | stattest/nist.go:367-369 | the same decomposition for three successive pattern lengths |
| Serial.Del1IsSumOfSquares | stattest/nist.go:368 | n del1 is 2^(m-1) times a sum of squares |
| Serial.Del2IsSumOfSquares | stattest/nist.go:369 | n del2 is 2^(m-2) times a sum of squares |
| Serial.DifferencesNonNegative | stattest/nist.go:367-371 | both are nonnegative for every bit sequence and every m; del1 vanishes exactly when every pattern is followed by zero as often as by one |
| Serial.Psi2 | stattest/nist.go:357-366 | psi-squared in exact arithmetic, zero for m <= 0 |
| Serial.Psi2IsChiSquare | stattest/nist.go:357-366 | 2^m times n psi-squared is the sum of the squared deviations of 2^m times each count from n, so psi-squared is never negative |
| Serial.SerialDifferences | stattest/nist.go:352-371 | not applicable exactly below 2^m bits; otherwise the two differences, nonnegative |
| Universal.ThresholdsFollowRule | stattest/nist.go:384-385 | the eleven thresholds are l * 1010 * 2^l for l from 6 to 16, in order |
| Universal.BlockLength | stattest/nist.go:384-391 | the longest block length whose threshold is reached, or 5 |
| Universal.LastSeenIsLatest | stattest/nist.go:408-416 | the last-seen index is an earlier equal block with none between, or 0 when there is none at all |
| Universal.FillTable | stattest/nist.go:408-410 | after initialisation the table holds the last-seen index of every block value |
| Universal.LookUp | stattest/nist.go:412-416 | a lookup gives the distance to the latest earlier equal block and keeps the table exact |
| Universal.LoggedDistances | stattest/nist.go:382-416 | not applicable exactly below 387840 bits; otherwise l is the longest block length allowed, and each of the k logged distances leads back to the nearest earlier block with the very same bits, or to block 0 when there is none; every slice and index is in range, and k >= 1000 * 2^l |
| Universal.SameBlocks | stattest/nist.go:401-407 | two blocks have the same value exactly when they have the same bits |
| Universal.DistanceIsGap | stattest/nist.go:412-416 | a table distance is the gap to the nearest earlier block with the same bits |
| SerialCorrelation.SpreadNonNegative | stattest/stattest.go:278-281 | den is nonnegative and zero exactly when all bytes are equal |
| SerialCorrelation.UpperBound | stattest/stattest.go:270-282 | the numerator is at most den, with equality only when all bytes are equal |
| SerialCorrelation.LowerBound | stattest/stattest.go:270-282 | the numerator is at least -den, with equality exactly when cyclic neighbours have a constant sum |
| SerialCorrelation.Correlation | stattest/stattest.go:264-283 | 0 below two bytes; otherwise in [-1, 1], 1 exactly when all bytes are equal, -1 exactly when cyclic neighbours alternate around a constant sum |
| ConditionalGuess.BestAfterOneMore | stattest/stattest.go:235-241 | adding a context's largest pair count keeps the sum the best score over the contexts so far |
| ConditionalGuess.BestOverall | stattest/stattest.go:234-242 | over all contexts that is the best score of any predictor |
| ConditionalGuess.BestScoreUnique | stattest/stattest.go:226-243 | there is only one best score |
| ConditionalGuess.GuessBytes | stattest/stattest.go:226-243 | the sum is the most samples any function of the previous byte predicts, and some function reaches it; none below two bytes |
| ConditionalGuess.GuessSamples | stattest/stattest.go:159-177 | the same for 64-bit samples through the two maps |
| ConditionalGuess.VersionsAgree | stattest/stattest.go:159-243 | on the same data the two give the same fraction |
| ConditionalGuess.ScoreAtLeastMode | stattest/stattest.go:226-243 | the best score is at least the count of any single value after the first position |
| Binomial.ChooseIsFactorials | health.go:135-140 | the coefficient is n! / (k! (n-k)!) |
| Binomial.TermRecurrence | health.go:126-131 | a further trial mixes the terms of two neighbouring counts |
| Binomial.CdfTotal | health.go:113-133 | the probabilities of all counts add up to one |
| Binomial.CdfAntitoneInP | health.go:113-133 | a likelier success makes small counts less likely |
| Binomial.AptCutoff | health.go:113-133 | the smallest c with P(X <= c) >= 1 - alpha, for every p in (0, 1], and below the window |
| Binomial.CutoffMonotone | health.go:113-133 | a smaller alpha or a larger p never lowers the cutoff |
| HealthTests.RctCutoff | health.go:108-111 | one more than the least integer not below -log2(alpha)/H, so at least 2 |
| HealthTests.Health.constructor | health.go:52-58 | cutoffs that are the ceiling and the binomial quantile, and an empty trace |
| HealthTests.Health.Repetition | health.go:64-80 | fails exactly when the run at the end of the trace reaches the limit |
| HealthTests.Health.Proportion | health.go:82-98 | fails exactly when a complete window ends here and repeats its first sample more often than the cutoff |
| HealthTests.Health.Check | health.go:63-100 | the verdict is the specification's on the trace since the last reset, RCT first, with its count, cutoff and sample; a failure is counted and both tests restart |
| HealthTests.Health.Reset | health.go:102-106 | an empty trace, failures kept |
| HealthTests.PassesExactly | health.go:63-100 | a run of samples passes exactly when no limiting run of equal samples and no overfull window ends anywhere in it |
| HealthTests.VerdictMeans | health.go:63-100 | an RCT failure means that as many equal samples as the limit end here, and counts them; an APT failure means there are not, a window is complete and its first sample recurs more often than the cutoff, and counts the recurrences |
| HealthTests.StuckIsRejected | health.go:63-80 | a source that turns constant is rejected within the limit, whatever came before |
| Harvester.StepKeepsInv | harvester.go:129-279 | every atomic step of a caller, a worker or the sampler keeps the invariant |
| Harvester.RunKeepsInv | harvester.go:129-279 | so does every interleaving |
| Harvester.WhenMutexIsFree | harvester.go:129-175 | running: stop is false and all workers are live and past ready.Add; not running: no worker can step; never running and closed |
| HarvesterCalls.StartStarts | harvester.go:129-150 | a Start that returns, whatever interleaves, leaves an open harvester running with every worker announced, the increments counted from its load of prev; a closed one is left as it is |
| HarvesterCalls.StopStops | harvester.go:154-167 | a Stop that returns leaves no worker |
| HarvesterCalls.CloseCloses | harvester.go:170-175 | a Close that returns leaves no worker and the harvester closed |
| HarvesterCalls.CallCanReturn | harvester.go:129-175 | from every reachable state each of the three can return, helped by worker steps only |
| HarvesterCalls.CallsAreEnabled | harvester.go:129-175 | with the mutex free each of them can be made, and a sample being taken can always go on |
| HarvesterCalls.SampleSamples | harvester.go:215-230 | a Sample that returns has added one sample: the increments between two loads of the counter mod 2^48, the loads made in vain mod 256, and the id it loaded |
| HarvesterCalls.LastIsLastStore | harvester.go:273-274 | the shared id is that of the worker that stored last |
| Harvester.ClosedForever | harvester.go:129-175 | closed is absorbing: nothing runs again and the counter is frozen |
| Harvester.DeltasCountIncrements | harvester.go:215-251 | the deltas since Start add up mod 2^48 to the increments between its load of prev and the last sample's; every id is a worker's |
| Harvester.StoppingIsBounded | harvester.go:160-167 | after the stop flag each worker lands at most one more increment and takes at most four steps |
| Harvester.WaitingMakesProgress | harvester.go:141-165 | neither Stop's wait nor Start's wait can be stuck |
| Harvester.SamplingIsBounded | harvester.go:218-229 | in every interleaving a sample ends after at most maxPolls + 2 steps of its own, whatever the workers do |
| Harvester.StalledSamplesRepeat | harvester.go:27-30 | if no worker steps, every sample after the first is the same: no increments, poll byte 0, the last id |
| Sampling.PackFields | harvester.go:249-251 | the three fields can be read back; ids below 256 lose no bits |
| Sampling.FoldIsXorOfBytes | harvester.go:256-261 | Fold is the XOR of the eight bytes |
| Sampling.FoldWordIsXorOfBytes | harvester.go:256-261 | the same for the sample as a number, as ModeRaw uses it |
| Sampling.WordFields | harvester.go:249-251 | the fields of the packed sample as a number |
| Sampling.Consumer.SampleAtomic | harvester.go:215-230 | the sample reports the first load that differs from prev, or the last allowed, and how many loads came before |
| Sampling.StalledSourceIsRejected | harvester.go:27-30 | a stalled source is rejected by the health tests within their limit plus one sample, from any trace |
| Bytes.DecodeEncode | reader.go:491 | little-endian bytes read back as the number |
| Bytes.EncodeDecode | reader.go:319 | and the number written out as the same bytes |
| Bytes.EncodeAt | reader.go:319 | byte k is digit k of the sample in base 256 |
| Bytes.WordsBytesAt | reader.go:307-322 | eight bytes from 8i on of the raw buffer read back as sample i |
| Drbg.AesCtr.Reseed | drbg.go:69-77 | a new key starts its keystream at the beginning |
| Drbg.AesCtr.Read | drbg.go:79-82 | whatever the buffer held, it ends holding the next bytes of the keystream |
| Drbg.AesCtr.Uint64 | drbg.go:84-88 | the next eight keystream bytes, little-endian |
| Drbg.Serve | drbg.go:79-88 | any mix of reads and words delivers the keystream in order, none skipped or repeated |
| Jitter.ConditionedReader.Refill | internal/jitter/jitter.go:82-88 | a new digest of the next batch of samples |
| Jitter.BlocksComeFromSamples | internal/jitter/jitter.go:83-86 | digest k is that of exactly the k-th batch of samples, little-endian, without a prefix |
| Jitter.ConditionedReader.Deliver | internal/jitter/jitter.go:89-91 | the next bytes of the stream, at least one |
| Jitter.ConditionedReader.Read | internal/jitter/jitter.go:79-94 | fills p with the next bytes of the concatenated digests |
| Jitter.ReadSplit | internal/jitter/jitter.go:79-94 | however reads are split, their concatenation is that stream |
| Chunked.ChunksUnfold | reader.go:408-437 | one turn of a read loop, then the rest |
| Chunked.ChunksFollow | reader.go:408-437 | a chunked read that succeeds returns the next n bytes of the stream its chunks are pieces of |
| Chunked.ChunksKeep | reader.go:408-437 | what every chunk and every refill keeps, the whole read keeps, also when it fails |
| Reader.Reader.EnterWorkers | reader.go:288-298 | no work with fewer than two procs, and then persistent workers are stopped |
| Reader.Reader.LeaveWorkers | reader.go:295-303 | workers stop after the work, or after a failure if they are persistent |
| Reader.Reader.Harvest | reader.go:307-322 | n samples that all pass, in order, in the buffer; or the first failing sample's verdict and a clear buffer |
| Reader.Reader.ReseedLocked | reader.go:325-360 | the new key and chain are the halves of the hash of domain, chain, samples and system randomness; a failure changes neither; the buffer is clear either way |
| ReaderEffects.SeedComesFromSamples | reader.go:325-360 | after a successful reseed key and chain are the two halves of the hash of a string that is the 17 characters of the domain, the old chain, each sample taken, little-endian, and the system randomness; the generator is fresh and one more seed counted |
| ReaderEffects.KeysComeFromSamples | reader.go:325-360 | key k of the stream theorem is such a hash over the k-th batch after the startup samples |
| ReaderEffects.ReseedLockedEffect | reader.go:325-341 | a reseed succeeds exactly when its samples pass and system randomness, if wanted, is there; a failed one leaves key and chain |
| ReaderEffects.HarvestEffect | reader.go:307-322 | a harvest succeeds exactly when its samples pass, and otherwise stops right after the first that does not and reports it |
| Reader.Reader.Reseed | reader.go:362-364 | the same with the workers up |
| Reader.Reader.StartupTests | reader.go:262-280 | all samples are taken first, then the estimate decides, then the health tests up to the first failure |
| ReaderEffects.StartupEffect | reader.go:262-280 | startup takes all its samples, and fails on an estimate below the minimum, reported before any health failure, or on a failing sample, and not otherwise |
| Reader.Reader.Start | reader.go:260-286 | startup tests, then a seed in ModeDRBG, with the workers up |
| ReaderEffects.StartEffect | reader.go:260-286 | a start succeeds exactly with two procs and good enough samples, and has then taken them all and, in ModeDRBG, made a seed of the ones after the startup samples |
| Reader.Reader.Draw | reader.go:415-418 | the chunk is the generator's answer and since moves by its length without overflow |
| Reader.Reader.ReadDrbg | reader.go:408-421 | the in-place loop computes the recursive chunked read |
| ReaderCallEffects.ReadWithinInterval | reader.go:408-421 | a read within the interval always succeeds and takes no sample |
| Reader.Reader.FillBlock | reader.go:439-451 | the block is the digest of fresh samples; the raw buffer is clear |
| ReaderEffects.BlocksComeFromSamples | reader.go:439-451 | digest k of the stream theorem is that of the domain string and the k-th batch after the startup samples |
| Reader.Reader.Deliver | reader.go:430-434 | bytes handed out are wiped from the block |
| Reader.Reader.ReadTrng | reader.go:423-437 | the in-place loop computes the recursive chunked read |
| Reader.Reader.ReadRaw | reader.go:453-466 | one folded byte per passing sample, up to the first failure |
| ReaderCallEffects.RawReadEffect | reader.go:453-466 | a ModeRaw read succeeds exactly with two procs and passing samples; byte i is the fold of its i-th sample |
| ReaderCallEffects.NoProcsNoSamples | reader.go:289-294 | with fewer than two procs ModeTRNG and ModeRaw reads report it and take no sample |
| Reader.Reader.Read | reader.go:368-406 | all of p, or 0 bytes, an error and p all zero |
| Reader.Reader.Uint64 | reader.go:473-492 | a word of the generator when one fits the interval after at most one reseed; otherwise eight bytes of a read; the error is the panic |
| ReaderCallEffects.WordIsKeystream | reader.go:476-485 | over AES-CTR a word is the next eight keystream bytes of the current key when the interval has eight left, and otherwise the first eight of a new key |
| ReaderCallEffects.WordIsRead | reader.go:487-491 | elsewhere it is the eight bytes a read returns, little-endian, or that read's error |
| ReaderCallEffects.TrngWordIsStream | reader.go:487-491 | in ModeTRNG it is the next eight bytes of the stream |
| Reader.Reader.ForceReseed | reader.go:495-515 | closed, failed and other modes first; then a reseed whose error is recorded |
| ReaderCallEffects.ForceReseedEffect | reader.go:495-515 | in ModeDRBG it succeeds exactly when a seed can be made, and has then made one, the interval used up or not; a failure leaves key and chain |
| Reader.Reader.Reset | reader.go:519-542 | error, block and health tests cleared, persistent workers restarted, startup repeated |
| ReaderCallEffects.ResetEffect | reader.go:519-542 | block emptied and health tests restarted in any case; it succeeds exactly when the following samples are good enough to start on, and has then taken them and made a new seed |
| Reader.Reader.Close | reader.go:554-570 | workers gone for good, generator dropped, chain, block and buffer zero; a second Close changes nothing |
| ReaderCallEffects.CloseIsFinal | reader.go:554-570 | after a Close, anywhere in any sequence of calls, the workers are down, generator, chain and block gone, and every later read, word, reseed and reset reports ErrClosed |
| Reader.Reader.New | reader.go:223-252 | a Reader in the state after its startup tests, or the error that stopped it |
| ReaderCallEffects.NewEffect | reader.go:223-252 | New succeeds exactly with two procs at both looks and good enough first samples |
| Reader.Source.Start | harvester.go:129-150 | as the Reader sees it: running unless closed |
| ReaderModel.DrbgChunk | reader.go:409-419 | one turn: reseed if the interval is used up, then at most what is left of it, at least one byte |
| ReaderModel.TrngChunk | reader.go:424-435 | one turn: a digest if the block is empty, then as much of it as fits, at least one byte |
| ReaderInvariants.ReseedLockedKeeps | reader.go:325-360 | a reseed keeps the byte budget whether it succeeds or fails |
| ReaderInvariants.ReadDrbgKeeps | reader.go:408-421 | a read of any length keeps the budget, also when a reseed in its middle fails |
| ReaderInvariants.ReadTrngKeeps | reader.go:423-437 | the block stays zero where it was handed out, with the workers up throughout |
| ReaderInvariants.CallKeeps | reader.go:368-570 | every public call, failed or not, keeps the invariant between calls |
| ReaderInvariants.NewKeeps | reader.go:223-252 | New establishes it |
| ReaderRuns.AlwaysBetween | reader.go:368-570 | it holds after every call of every sequence of calls |
| ReaderRuns.WorkersFollowState | reader.go:288-304 | between calls workers run if and only if persistent, without error and open; no sample was ever taken with the workers down |
| ReaderRuns.ByteBudget | reader.go:408-492 | since is within the interval and is what the current key has produced; Bytes <= (Seeds-1) * interval + since, across reads, words, reseeds, resets and failures |
| ReaderRuns.NothingLingers | reader.go:423-570 | the handed-out part of the block is zero; after Close chain and block are zero and the generator is gone |
| ReaderRuns.ErrorSticks | reader.go:378-406 | after a failure every read, word and reseed reports that same error and changes nothing, until Reset or Close |
| ReaderRuns.FailureIsRecorded | reader.go:400-403 | the error a read or word reports on an open Reader is exactly the one that sticks |
| ReaderRuns.ReseedFailureIsRecorded | reader.go:510-541 | and so for Reseed and Reset, whose success leaves none |
| ReaderRuns.ClosedForGood | reader.go:379-381 | after Close every call reports ErrClosed and changes nothing |
| ReaderVetting.AlwaysClean | reader.go:307-322 | while a Reader has no error, the health tests have seen every sample since their last reset, in order, and passed every one, after every sequence of calls |
| ReaderVetting.HealthyNeverFails | reader.go:368-515 | on a source whose samples never fail, with enough procs and system randomness, every read of every length, word and reseed succeeds, in every mode and after every sequence of calls |
| ReaderStreams.ReseedLockedAdvances | reader.go:330-358 | seed k+1 is made from chain k and the samples after those of seed k, by the hash chain |
| ReaderStreams.ReadContinues | reader.go:408-421 | a successful read returns the stream from the position the Reader is at |
| ReaderStreams.SeedCount | reader.go:408-421 | T bytes took max(1, ceil(T / interval)) seeds |
| ReaderStreams.DrbgStream | reader.go:325-421 | over any run of successful reads byte t is byte t mod I of the generator keyed by seed t div I, however the reads are split, and the seed count is max(1, ceil(T/I)) |
| ReaderStreams.AesCtrSplits | drbg.go:79-88 | AES-CTR is a generator the stream theorem applies to |
| ReaderStreams.TrngStream | reader.go:423-451 | the output is the successive 64-byte digests, each byte once, however reads are split; Bytes + blockN = 64 * blocks |
| ReaderSessions.Perform | reader.go:368-570 | on the object, every public call between calls does what the model says and leaves the raw buffer zero and the invariant intact |
| ReaderSessions.Session | reader.go:223-570 | any sequence of calls on the object is a history of the model, so all the run theorems hold of it |

## Left out

- SourceUnsynchronized (`workerUnsync`, `sampleUnsync`): its behaviour is undefined under the Go memory model.
- SHA-512, ChaCha8 and AES themselves: functions of the `World`; the stream theorem asks only that reading n and
  then m bytes is reading n + m bytes.
- ChaCha8 streams that mix `Read` and `Uint64`: the library leaves their order undefined. `ByteBudget` covers
  both; the stream theorem is about reads, and `Drbg.Serve` covers the mix for AES-CTR.
- p-values (`Igamc`, `Erfc`, `Log2`, the chi-square of `rank`), rounding, and the tests not named above.
- Harvester: the state machine is not a class, because its steps belong to different goroutines; Start, Stop, Close
  and the worker loop are actions. Sampling does not overlap Start, as its documentation demands.
- Reader.Source: the Reader sees the harvester as a sequential object with given samples; that the state machine
  of `Harvester.dfy` behaves so between two calls is `WhenMutexIsFree`, but no refinement connects the two.
- The generator inside the Reader is a value, its key and the requests made of it, and its chain is a value;
  wiping of temporary keys and digests is not modelled. The buffer and the block are arrays.
- Reader.Reader.Draw: calls the generator for a whole chunk; that AES-CTR fills the chunk in place is
  `Drbg.AesCtr.Read`.
- Reader.Reader.New: options, `validate`'s error messages and `samplesFor` are not modelled; the sample counts are
  parameters, at least one each. The cutoffs of the health tests are parameters; `Health.constructor` computes them.
- The zero Reader and `ErrUninitialized`; `Stats`, `StartupMinEntropy`, `Err`; the mutex of the Reader, which makes its calls
  sequential.
- Counters `Samples`, `Seeds`, `Bytes`, `HealthFailures` wrap at 2^64 in the source and do not here.
- Gf2Rank.Rank32: the source passes the rows by value; here the caller's array is the copy, and is changed.
- CyclicPatterns.PatternCounts: shorter sequences than m - 1 bits, where the source panics.
- Entropy and timing claims, fairness of the scheduler, `chaoticSpin`, the commands under `cmd/`: nothing in the code decides them.
