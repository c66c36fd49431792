# Verified models of the BLTS test-tool cores

This project models the self-contained algorithms inside the BLTS hardware test tools and
rendercheck, and proves what they are there for. Each group of files follows one source file.

- **Barrier** (`barrier.dfy`, `barrier_reuse.dfy`, `barrier_deadlock.dfy`): the multi-process barrier
  as a step relation, one program counter per process, one semaphore operation or shared-field access
  per step, any number of processes and calls, every interleaving. A ledger of tokens is kept by every
  step of every run. There is no generation count in the code, so a barrier for three or more processes
  that is reused can both mix rounds up and deadlock; it is proved exactly when it does neither.
- **Parameter variations** (`odometer.dfy`, `params.dfy`, `linked_list.dfy`): collecting a test's
  parameters and overrides, expanding constant lists, ranges and recursively generated parameters, and
  the in-place odometer that enumerates combinations into a table. Row count and byte size are computed
  in 32 bits, as in the code; nothing is asked of a configuration, and where the code would leave its
  arrays the outcome is an overrun. Results: a test gets its whole Cartesian product, each combination
  once, exactly when the table fits; FIRST and LAST agree with the ends of COMBINATIONS; overrides hold
  in every variant; and the list reversal turns the links of a heap list round in place.
- **Frame buffer** (`fbdev.dfy`, `fbdev_pixels.dfy`): the offset table, the Knuth shuffle (every
  arrangement reached by exactly one sequence of choices), the write and invert loops through the
  shuffled table, and strided blit and grab.
- **ALSA parameters** (`alsa_interval.dfy`, `bits.dfy`, `alsa_mask.dfy`, `alsa_params.dfy`):
  intervals mean sets of reals, masks mean sets of indices; the in-place refinements are proved to
  be intersections, and the two one-sided ones to be exact unless an end wraps around.
- **Compositing** (`render_ops.dfy`): the Render operators over `real`, against a reference that
  only says how much of a pixel both pictures cover and who shows in which part of it, after the
  "Rendering Model" of the X Rendering Extension protocol.
- **HCI dump** (`hci_dump.dfy`, `hci_parse.dfy`, `hci_audit.dfy`, `subsequences.dfy`): framing,
  write and read loops over system calls that transfer pieces, are interrupted or fail, the parse
  loop with its one extra callback, and the audit automaton, shown equivalent to a subsequence test.
- **Bit count** (`bit_count.dfy`): HAKMEM 169 against a plain recursive count.
- **Configuration clean-up** (`conf_cleanup.dfy`, `conf_parser.dfy`): three loops that shift text in
  one buffer while the cursor steps back, proved to terminate and to equal three passes on values.

`products.dfy` names multiplication so that proofs can treat products as atoms; `errno.dfy` has the error numbers.

Where the source depends on the outside, that is a parameter: the values of `rand()`, the schedule
of the processes, how each read or write call behaves, and the generator functions.

Properties that fail, and exactly when they hold:

- Reusing the barrier: over all runs, rounds are kept apart, and no run deadlocks, if and only if there
  are at most two processes or each calls at most once. In a run that has been drained so far, both hold
  after an opening if and only if the departure semaphore is empty at that moment.
- The permutation table lists every combination inside its block if and only if the number of
  combinations times the number of parameters times four is below 2^32. Two parameters of 32768 values
  get a block of no bytes; 641 and 6700417 values give a table of one row.
- LAST agrees with the last of COMBINATIONS when the table fits, and for parameters without repeated
  values only then.
- Setting an interval parameter just above or below a value reads back, unless it is just above
  `UINT_MAX`: a real interval refuses that, an integer one is opened to all values instead.
- A mask parameter set just above `UINT_MAX` is set to 0; asked for everything up to just above
  `UINT_MAX`, it is left nothing. What bounding a mask allows is characterised against what was asked.
- Lowering a mask's maximum touches the word behind the mask whenever it removes an index.
- The pixel table holds the true offsets if and only if all of them fit 32 bits.
- Raising an interval's minimum, lowering its maximum, or bounding it from both sides is an
  intersection unless an end wraps around; the wrapping calls are characterised.
- With component alpha, an operator takes premultiplied pixels to premultiplied pixels if and only if
  the mask suits the way its result alpha moves with the source's; under every operator, if and only if
  the mask's channels are equal.
- Cleaning a configuration overruns the line buffer if and only if a terminated line is still 256
  characters or longer after tabs and leading spaces are dealt with.

## Model

| member | source | states |
|---|---|---|
| Barrier.LedgerStep | mcts-blts/blts-common/src/blts_sync.c:183-225 | every step of every process keeps the token ledger: each mutex free or held once, one owner of `active`, arrive and depart tokens equal posts minus waits |
| Barrier.BarrierAccounting | mcts-blts/blts-common/src/blts_sync.c:192-224 | over any run of any number of rounds, with no premise, departures never exceed and arrivals never fall below n times the collected rounds, and every round has exactly one leader |
| Barrier.WaitersHoldNoLock | mcts-blts/blts-common/src/blts_sync.c:85-139 | in every reachable state a mutex is free exactly when no process is inside its critical section, so nobody waits for a signal holding one |
| Barrier.BarrierSeparates | mcts-blts/blts-common/src/blts_sync.c:183-225 | for one or two processes, one call each, or drained reuse, no process's k-th departure precedes any process's k-th arrival |
| Barrier.AllArrived | mcts-blts/blts-common/src/blts_sync.c:192-206 | in a state whose rounds have been kept apart, when the leader's last wait is over every process has arrived once more than there are collected rounds |
| Barrier.OneCollector | mcts-blts/blts-common/src/blts_sync.c:192-195 | two processes are never both leaders still collecting arrivals |
| Barrier.JoinsOpenRound | mcts-blts/blts-common/src/blts_sync.c:211-219 | in any run, a process that finds `active` set joins a round whose leader is still collecting |
| Barrier.AllInside | mcts-blts/blts-common/src/blts_sync.c:198-203 | in any run, when a leader has just collected, every process is inside the barrier and no arrive or depart token is left |
| Barrier.OpensEmpty | mcts-blts/blts-common/src/blts_sync.c:192-193 | a round opened with no departure token left finds every process out of the previous one |
| Barrier.SingleCallDrained | mcts-blts/blts-common/src/blts_sync.c:183-225 | one call each always opens its round drained |
| Barrier.StuckOnSignals | mcts-blts/blts-common/src/blts_sync.c:85-139 | in a state where nobody can move both mutexes are free: no process waits for a mutex for good |
| Barrier.BarrierNeverDeadlocks | mcts-blts/blts-common/src/blts_sync.c:483-492 | for one or two processes, one call each, or drained reuse, a run that cannot go on has brought every process back from all its calls, with `active` clear, both semaphores at 0, both mutexes free and one leader per round; `BarrierDeadlock.AlwaysReturnsIff` says what happens otherwise |
| Barrier.BarrierTerminates | mcts-blts/blts-common/src/blts_sync.c:183-225 | every run is finite, with an explicit bound on its length, under any schedule |
| Barrier.RunsAreBounded | mcts-blts/blts-common/src/blts_sync.c:183-225 | from the initial state a run of n processes and c calls has at most (2n + 16) * n * c + n * (2n + 13) steps |
| Barrier.ReturnsHoldingTable | mcts-blts/blts-common/src/blts_sync.c:224-224 | a process that comes back from a call holds the table mutex, alone, until that step releases it |
| Barrier.EveryCallRetakesTable | mcts-blts/blts-common/src/blts_sync.c:483-492 | in any run a process that is back has taken the table mutex exactly twice a completed call, leader or joiner, and released it as often |
| BarrierReuse.UndrainedOvertakes | mcts-blts/blts-common/src/blts_sync.c:192-224 | with three or more processes, opening a round while a token is queued lets some process depart ahead of another's arrival |
| BarrierReuse.OpeningSafeIffDrained | mcts-blts/blts-common/src/blts_sync.c:192-224 | with three or more processes, in a run drained so far, rounds stay apart after an opening if and only if no departure token was queued then |
| BarrierReuse.UndrainedOpeningReachable | mcts-blts/blts-common/src/blts_sync.c:192-224 | for two or more processes calling twice or more, a run reaches an opening with n - 1 tokens queued |
| BarrierReuse.AlwaysSeparatesIff | mcts-blts/blts-common/src/blts_sync.c:183-225 | over all runs rounds are kept apart if and only if there are at most two processes or each calls at most once |
| BarrierDeadlock.TidyRun | mcts-blts/blts-common/src/blts_sync.c:192-203 | in any run, unless a leader is collecting, every arrival belongs to a collected round |
| BarrierDeadlock.AheadStep | mcts-blts/blts-common/src/blts_sync.c:183-225 | a process that is a round ahead stays ahead through every step but an undrained opening |
| BarrierDeadlock.RunDown | mcts-blts/blts-common/src/blts_sync.c:183-225 | from any state that keeps the ledger, the quota and the tidiness of every reachable state, opening only when drained, some run ends where nobody can move; and a process that was ahead still is |
| BarrierDeadlock.UndrainedDeadlocks | mcts-blts/blts-common/src/blts_sync.c:192-224 | with three or more processes, once a round is opened with a token queued some run ends with processes waiting for good |
| BarrierDeadlock.OpeningCompletesIffDrained | mcts-blts/blts-common/src/blts_sync.c:192-224 | with three or more processes, in a run drained so far, every drained continuation of an opening brings all back if and only if no departure token was queued at it |
| BarrierDeadlock.DeadlockReachable | mcts-blts/blts-common/src/blts_sync.c:183-225 | any three or more processes calling twice or more have a run that deadlocks |
| BarrierDeadlock.AlwaysReturnsIff | mcts-blts/blts-common/src/blts_sync.c:183-225 | over all runs the barrier never deadlocks if and only if there are at most two processes or each calls at most once |
| Odometer.GenerateNextPermutation | mcts-blts/blts-common/src/blts_params.c:1391-1401 | the in-place step makes the index array the increment of what it was |
| Odometer.IncrementAddsOne | mcts-blts/blts-common/src/blts_params.c:1389-1401 | the step adds one to the number the position stands for, and after the last position is back at zero |
| Odometer.IncrementDigits | mcts-blts/blts-common/src/blts_params.c:1389-1401 | the step after row i gives row i + 1, after the last row all zeros |
| Odometer.NumberOfDigits | mcts-blts/blts-common/src/blts_params.c:1391-1401 | the mixed-radix digits of a number below the product are in range and make up that number |
| Odometer.DigitsOfNumber | mcts-blts/blts-common/src/blts_params.c:1391-1401 | and the digits of the number a position stands for are that position |
| Odometer.DigitsAreABijection | mcts-blts/blts-common/src/blts_params.c:1406-1439 | every choice of indices is the digits of exactly one row number |
| Odometer.CountRows | mcts-blts/blts-common/src/blts_params.c:1422-1424 | the loop computes the product modulo 2^32, a parameter without values counting as one |
| Odometer.GeneratePermutationTable | mcts-blts/blts-common/src/blts_params.c:1406-1439 | for any counts: a row runs over the block if and only if the byte size wraps; otherwise row i of the packed table is the digits of i, first parameter fastest, for every row of the 32-bit count |
| Odometer.TableCompleteIffFits | mcts-blts/blts-common/src/blts_params.c:1422-1435 | the table stays in its block and lists every combination if and only if all of them fit 2^32 bytes |
| Odometer.LastRowIffFits | mcts-blts/blts-common/src/blts_params.c:1422-1435 | the table is intact and its last row has every index at its maximum if and only if it fits |
| Odometer.WrapLosesRows | mcts-blts/blts-common/src/blts_params.c:1422-1426 | 641 and 6700417 values give a one-row table that misses a combination |
| Odometer.BytesWrapFirst | mcts-blts/blts-common/src/blts_params.c:1426-1427 | two parameters of 32768 values: all 2^30 combinations are listed, in a block of no bytes |
| Odometer.BlockBoundary | mcts-blts/blts-common/src/blts_params.c:1426-1427 | a single parameter of 2^30 values is one too many for its block, 2^30 - 1 are not |
| LinkedList.Reverse | mcts-blts/blts-common/src/blts_params.c:188-199 | the same cells, values untouched, end up linked in the opposite order |
| LinkedList.ReversedAt | mcts-blts/blts-common/src/blts_params.c:1325-1336 | the k-th element of a reversal is the k-th from the end |
| LinkedList.ReversedTwice | mcts-blts/blts-common/src/blts_params.c:1621-1632 | reversing a list built in reverse restores the order |
| LinkedList.ReverseValues | mcts-blts/blts-common/src/blts_params.c:188-199 | the same loop on sequences gives the reversal |
| Params.Flatten | mcts-blts/blts-common/src/blts_params.c:1349-1387 | the arrays hold every parameter's values, one array a parameter, and their counts, in order |
| Params.GeneratePermutationVariants | mcts-blts/blts-common/src/blts_params.c:1442-1462 | a parameter without values overruns its array; otherwise the prepended list is the reversal of the table's combinations, each in parameter order |
| Params.Combine | mcts-blts/blts-common/src/blts_params.c:1665-1678 | for any lists, flatten, table, variants and reversal together give what `Params.Combined` says: an overrun, nothing, or the combinations in row order |
| Params.CartesianAt | mcts-blts/blts-common/src/blts_params.c:1442-1462 | entry i of the nested-loop product is the combination selected by the digits of i |
| Params.RowsAreCartesian | mcts-blts/blts-common/src/blts_params.c:1406-1462 | below 2^32 combinations the variants are the whole Cartesian product in nested-loop order |
| Params.CombinedIsCartesianIffFits | mcts-blts/blts-common/src/blts_params.c:1406-1462 | lists with values combine to their whole Cartesian product, in order, if and only if the table fits |
| Params.LastRowOnlyIfAll | mcts-blts/blts-common/src/blts_params.c:1422-1435 | with distinct values, a last row of last values means that no row was lost |
| Params.FirstRow | mcts-blts/blts-common/src/blts_params.c:1430-1435 | the first combination takes every list's first value |
| Params.LastRow | mcts-blts/blts-common/src/blts_params.c:1430-1435 | below 2^32 combinations the last takes every list's last value |
| Params.GenerateConstlistVariations | mcts-blts/blts-common/src/blts_params.c:1566-1596 | the whole list, its first or its last value, by style; nothing for an empty list |
| Params.GenerateRangeVariations | mcts-blts/blts-common/src/blts_params.c:1598-1619 | both bounds, or the one the style asks for |
| Params.GenerateGeneratedVariations | mcts-blts/blts-common/src/blts_params.c:1637-1695 | for any definition, the generator applied to every combination of its inputs, in order; nothing without a generator; an overrun where a table or an input's array is left |
| Params.GenerateVariations | mcts-blts/blts-common/src/blts_params.c:1697-1720 | the recursive dispatch computes the outcome for any definition |
| Params.CombinationsOfLeaf | mcts-blts/blts-common/src/blts_params.c:1571-1608 | COMBINATIONS, and ALLPAIRS, of a list is the whole list and of a range both bounds |
| Params.CombinationsOfGenerated | mcts-blts/blts-common/src/blts_params.c:1679-1684 | entry i of a generated parameter's COMBINATIONS is the generator's value at combination i of its inputs |
| Params.FirstIsHead | mcts-blts/blts-common/src/blts_params.c:1566-1720 | for every definition that gives values, however nested, FIRST yields exactly the head of COMBINATIONS |
| Params.LastIsLast | mcts-blts/blts-common/src/blts_params.c:1566-1720 | for every definition that gives values and whose generators' tables fit, LAST yields exactly the last of COMBINATIONS |
| Params.LastOnlyIfFits | mcts-blts/blts-common/src/blts_params.c:1637-1695 | for a generator that tells its inputs apart and input lists without repeats, LAST agrees with the last of COMBINATIONS if and only if its table fits |
| Params.EndStyleGivesOne | mcts-blts/blts-common/src/blts_params.c:1566-1720 | FIRST and LAST give exactly one value, the generators applied to such values, for every complete definition, even where COMBINATIONS would overrun |
| Params.CollectTestParams | mcts-blts/blts-common/src/blts_params.c:1469-1564 | the loop collects what `Collect` says; `FixesPlaced`, `ParamsPlaced` and `CollectFails` say what that is, setting by setting |
| Params.FixesPlaced | mcts-blts/blts-common/src/blts_params.c:1507-1518 | the overrides collected are the test's fix settings, each once, in order, and only those |
| Params.ParamsPlaced | mcts-blts/blts-common/src/blts_params.c:1527-1540 | the parameters collected are those of the test's groups, each once, setting by setting, and only those |
| Params.CollectFails | mcts-blts/blts-common/src/blts_params.c:1480-1496 | a missing or empty test has no entry; a broken setting is an invalid argument; nothing else fails |
| Params.Override | mcts-blts/blts-common/src/blts_params.c:1723-1735 | no value exactly when no override has the key, otherwise the first one's |
| Params.GetFixedParamValue | mcts-blts/blts-common/src/blts_params.c:1723-1735 | the walk over both lists finds that override |
| Params.GenerateTestVariations | mcts-blts/blts-common/src/blts_params.c:1738-1804 | for any test, the outcome of combining its value lists; none on an error or for ALLPAIRS |
| Params.OverrideHolds | mcts-blts/blts-common/src/blts_params.c:1754-1762 | every variant shows an overridden parameter at its override |
| Params.FixedSettingShows | mcts-blts/blts-common/src/blts_params.c:1738-1804 | from the settings to the variants: what the first fix setting of a key says, every variant shows at every parameter with that key |
| Params.CombinationsCompleteIffFits | mcts-blts/blts-common/src/blts_params.c:1738-1804 | a test whose parameters have values gets its whole Cartesian product, in order, if and only if the table fits |
| Params.EachCombinationOnce | mcts-blts/blts-common/src/blts_params.c:1738-1804 | when the table fits, each choice of indices appears at the row its digits number |
| Params.TestFirst | mcts-blts/blts-common/src/blts_params.c:1738-1804 | a test's FIRST variant is the first of its COMBINATIONS |
| Params.TestLast | mcts-blts/blts-common/src/blts_params.c:1738-1804 | a test's LAST variant is the last of its COMBINATIONS when its table fits, and if no parameter repeats a value only then |
| Fbdev.PixelsApart | mcts-blts/blts-fbdev/src/blts-fbdev-perf.c:218-234 | two different visible pixels do not overlap |
| Fbdev.PixelPosition | mcts-blts/blts-fbdev/src/blts-fbdev-perf.c:218-234 | a visible pixel stands yoffset lines and xoffset pixels further on in the whole buffer |
| Fbdev.FillTable | mcts-blts/blts-fbdev/src/blts-fbdev-perf.c:218-234 | in 32-bit arithmetic: more than 2^32 - 1 pixels overrun the table; otherwise place y * xres + x holds the offset of pixel (x, y) modulo 2^32, for every visible pixel |
| Fbdev.Shuffle | mcts-blts/blts-fbdev/src/blts-fbdev-perf.c:236-245 | the shuffle in place permutes the table as its choices determine |
| Fbdev.LastPlaced | mcts-blts/blts-fbdev/src/blts-fbdev-perf.c:238-245 | each step puts the entry chosen at the last open place and goes on with the rest |
| Fbdev.ShuffleReachesEvery | mcts-blts/blts-fbdev/src/blts-fbdev-perf.c:236-245 | every arrangement of the table is the result of some sequence of choices |
| Fbdev.ShuffleIsFair | mcts-blts/blts-fbdev/src/blts-fbdev-perf.c:236-245 | and of only one: different choices give different arrangements |
| FbdevPixels.InOrderIsTable | mcts-blts/blts-fbdev/src/blts-fbdev-perf.c:218-234 | when no offset wraps the filled table has every visible pixel, nothing else and no overlaps |
| FbdevPixels.ShuffledIsTable | mcts-blts/blts-fbdev/src/blts-fbdev-perf.c:236-245 | any shuffle keeps that |
| FbdevPixels.NewTestData | mcts-blts/blts-fbdev/src/blts-fbdev-perf.c:201-253 | the shuffled table has every visible pixel exactly once if and only if every offset fits 32 bits |
| FbdevPixels.FittingTable | mcts-blts/blts-fbdev/src/blts-fbdev-perf.c:216-234 | when the visible area fits the buffer, every entry addresses a pixel inside it and fits in 32 bits |
| FbdevPixels.FittingIsAddressable | mcts-blts/blts-fbdev/src/blts-fbdev-perf.c:216-234 | offsets of pixels that fit the buffer fit 32 bits |
| FbdevPixels.InvertComplements | mcts-blts/blts-fbdev/src/blts-fbdev-perf.c:505-521 | an inverted byte b has the value 255 - b |
| FbdevPixels.InvertFrame | mcts-blts/blts-fbdev/src/blts-fbdev-perf.c:505-511 | one frame inverts every visible byte once and nothing else |
| FbdevPixels.OnePixelReadWrite | mcts-blts/blts-fbdev/src/blts-fbdev-perf.c:488-538 | the hundred frames leave the whole buffer as it was; other pixel sizes are refused |
| FbdevPixels.WriteFrame | mcts-blts/blts-fbdev/src/blts-fbdev-perf.c:442-453 | one frame leaves the frame's value in every pixel of the table and changes no other byte |
| FbdevPixels.PatternValue | mcts-blts/blts-fbdev/src/blts-fbdev-perf.c:443-463 | a pixel written in frame f has the value f * 0x10001 at 32 bits and f * 0x101 at 16, for f modulo 256 |
| FbdevPixels.OnePixelWrite | mcts-blts/blts-fbdev/src/blts-fbdev-perf.c:421-482 | at the end every visible pixel holds the last frame's value and nothing outside has changed |
| FbdevPixels.Blit | mcts-blts/blts-fbdev/src/blts-fbdev-perf.c:321-339 | the visible rows show the frame, and no byte outside the visible rectangle changes |
| FbdevPixels.RowsAreVisible | mcts-blts/blts-fbdev/src/blts-fbdev-perf.c:321-339 | the rows copied consist of exactly the bytes of the visible pixels |
| FbdevPixels.Grab | mcts-blts/blts-fbdev/src/blts-fbdev-perf.c:293-309 | the buffer holds the visible rows packed, and nothing behind them changes |
| FbdevPixels.PackedUnique | mcts-blts/blts-fbdev/src/blts-fbdev-perf.c:293-309 | the visible rows determine the packed frame |
| FbdevPixels.BlitThenGrab | mcts-blts/blts-fbdev/src/blts-fbdev-perf.c:293-339 | grabbing after blitting returns exactly the blitted frame |
| AlsaInterval.SndInterval.Refine | mcts-blts/blts-alsa-core/src/alsa_util.c:252-312 | the in-place refinement yields the refined value and result code, even against itself |
| AlsaInterval.SndInterval.RefineSet | mcts-blts/blts-alsa-core/src/alsa_util.c:242-250 | refines by the single integer value |
| AlsaInterval.SndInterval.RefineMin | mcts-blts/blts-alsa-core/src/alsa_util.c:390-425 | the in-place one-sided refinement of the lower end |
| AlsaInterval.SndInterval.RefineMax | mcts-blts/blts-alsa-core/src/alsa_util.c:427-462 | the in-place one-sided refinement of the upper end |
| AlsaInterval.SndInterval.SetAny | mcts-blts/blts-alsa-core/src/alsa_util.c:236-240 | the interval of all 32-bit values |
| AlsaInterval.NarrowedHasRoom | mcts-blts/blts-alsa-core/src/alsa_util.c:287-299 | min++ and max-- never wrap in a refinement of live intervals |
| AlsaInterval.RefineExact | mcts-blts/blts-alsa-core/src/alsa_util.c:252-312 | the result denotes exactly the intersection, -EINVAL exactly when that is empty, 0 only when nothing was lost |
| AlsaInterval.RefineAllMembers | mcts-blts/blts-alsa-core/src/alsa_util.c:252-312 | after any constraints a value is left if and only if it meets all of them |
| AlsaInterval.SucceedsIffCompatible | mcts-blts/blts-alsa-core/src/alsa_util.c:252-312 | all refinements succeed if and only if some value meets all constraints |
| AlsaInterval.FailureIsFinal | mcts-blts/blts-alsa-core/src/alsa_util.c:252-258 | a failing sequence reports -EINVAL once and -ENOENT ever after |
| AlsaInterval.OrderDoesNotMatter | mcts-blts/blts-alsa-core/src/alsa_util.c:252-312 | any two orders of the same constraints succeed together and leave the same set |
| AlsaInterval.RefineAgain | mcts-blts/blts-alsa-core/src/alsa_util.c:252-312 | refining again by the same constraint changes nothing and reports 0 |
| AlsaInterval.RefineCodeTells | mcts-blts/blts-alsa-core/src/alsa_util.c:252-312 | a change is reported only of an interval that has changed, none only of one that holds what it held |
| AlsaInterval.MinExactUnlessWraps | mcts-blts/blts-alsa-core/src/alsa_util.c:390-425 | raising the minimum is an intersection unless an integer interval is asked to exceed UINT_MAX, and exactly then not |
| AlsaInterval.MaxExactUnlessWraps | mcts-blts/blts-alsa-core/src/alsa_util.c:427-462 | lowering the maximum is an intersection unless an integer interval is asked to stay below 0, and exactly then not |
| AlsaInterval.MinAgain | mcts-blts/blts-alsa-core/src/alsa_util.c:390-425 | raising the minimum again reports no change if and only if it does not wrap |
| AlsaInterval.MaxAgain | mcts-blts/blts-alsa-core/src/alsa_util.c:427-462 | lowering the maximum again reports no change if and only if it does not wrap |
| AlsaInterval.MinCodeTells | mcts-blts/blts-alsa-core/src/alsa_util.c:390-425 | without a wrap no change is reported if and only if there was none |
| AlsaInterval.MaxCodeTells | mcts-blts/blts-alsa-core/src/alsa_util.c:427-462 | without a wrap no change is reported if and only if there was none, at the upper end |
| Bits.LeastBitSpec | mcts-blts/blts-alsa-core/src/alsa_util.c:348-355 | the index found by ffs is that of the least bit set |
| Bits.TopBit | mcts-blts/blts-alsa-core/src/alsa_util.c:314-346 | a word between two neighbouring powers of two has its highest bit there |
| Bits.PowerTest | mcts-blts/blts-alsa-core/src/alsa_util.c:200-201 | w & (w - 1) is zero exactly when no two bits are set |
| AlsaMask.Ld2 | mcts-blts/blts-alsa-core/src/alsa_util.c:314-346 | the halving steps compute the floor of the base-2 logarithm for every 32-bit value |
| AlsaMask.SndMask.Test | mcts-blts/blts-alsa-core/src/alsa_util.c:179-182 | true exactly when the index is in the mask; an index past the mask is reported as an overrun |
| AlsaMask.SndMask.Empty | mcts-blts/blts-alsa-core/src/alsa_util.c:184-191 | true exactly when no index is in the mask |
| AlsaMask.SndMask.Single | mcts-blts/blts-alsa-core/src/alsa_util.c:193-207 | true exactly when at most one index is in the mask |
| AlsaMask.SndMask.Leave | mcts-blts/blts-alsa-core/src/alsa_util.c:209-215 | keeps the index if it was there and removes all others; an index past the mask is an overrun |
| AlsaMask.SndMask.ResetRange | mcts-blts/blts-alsa-core/src/alsa_util.c:229-234 | removes exactly the indices of the range; a range that goes past the mask is an overrun |
| AlsaMask.SndMask.Min | mcts-blts/blts-alsa-core/src/alsa_util.c:348-355 | the least index of the mask, 0 if there is none |
| AlsaMask.SndMask.Max | mcts-blts/blts-alsa-core/src/alsa_util.c:357-364 | the greatest index of the mask, 0 if there is none |
| AlsaMask.SndMask.RefineSet | mcts-blts/blts-alsa-core/src/alsa_util.c:217-227 | intersects the mask with one index and tells the three outcomes apart; an index past a non-empty mask overruns it |
| AlsaMask.SndMask.RefineMin | mcts-blts/blts-alsa-core/src/alsa_util.c:366-376 | intersects the mask with the indices from the bound on; a bound above 256 overruns a non-empty mask |
| AlsaMask.SndMask.RefineMax | mcts-blts/blts-alsa-core/src/alsa_util.c:378-388 | intersects the mask with the indices up to the bound, and runs over the mask exactly when it has anything to remove |
| AlsaMask.SndMask.Any | mcts-blts/blts-alsa-core/src/alsa_util.c:651-656 | every index is in the mask |
| AlsaParams.SetReadsBack | mcts-blts/blts-alsa-core/src/alsa_util.c:464-560 | an interval parameter set to a value with direction 0 reads back as it |
| AlsaParams.ReadsIffOneUnit | mcts-blts/blts-alsa-core/src/alsa_util.c:475-488 | an interval parameter can be read if and only if all it holds lies in one unit; the value is that unit's start, the direction 1 exactly when the start itself is not held |
| AlsaParams.SeveralValuesUnreadable | mcts-blts/blts-alsa-core/src/alsa_util.c:482-483 | the rate interval from 8000 to 48000 has no value to read |
| AlsaParams.SetSucceedsIffHeld | mcts-blts/blts-alsa-core/src/alsa_util.c:495-560 | setting succeeds if and only if the interval holds a value that was asked for, for every direction without a wrap |
| AlsaParams.FailedIsEmpty | mcts-blts/blts-alsa-core/src/alsa_util.c:495-647 | setting and bounding fail if and only if they leave the interval empty |
| AlsaParams.SetDirectedReadsBack | mcts-blts/blts-alsa-core/src/alsa_util.c:464-560 | set just above or below a value it reads back the lower end with direction 1 if and only if the value is not UINT_MAX with a positive direction |
| AlsaParams.SetAboveAllWraps | mcts-blts/blts-alsa-core/src/alsa_util.c:252-312 | setting just above UINT_MAX is refused by a real interval and opens an integer one to all values, reporting a change |
| AlsaParams.BoundReadsBack | mcts-blts/blts-alsa-core/src/alsa_util.c:562-647 | bounded by v and v + 1 from below it reads back v |
| AlsaParams.BoundExactUnlessWraps | mcts-blts/blts-alsa-core/src/alsa_util.c:562-647 | bounding leaves exactly the values held before that the request allows, if and only if no end wraps to effect, as a condition on the arguments |
| AlsaParams.BoundFailsIffNothing | mcts-blts/blts-alsa-core/src/alsa_util.c:615-630 | when bounding is exact it fails if and only if nothing held was requested |
| AlsaParams.BoundAgain | mcts-blts/blts-alsa-core/src/alsa_util.c:562-647 | bounding again by the same request reports no change if and only if neither end wraps |
| AlsaParams.BoundCodeTells | mcts-blts/blts-alsa-core/src/alsa_util.c:562-647 | without a wrap no change is reported if and only if there was none |
| AlsaParams.MaskTargetIff | mcts-blts/blts-alsa-core/src/alsa_util.c:495-560 | a mask is set to the index asked for if and only if that is neither just above UINT_MAX, which wraps to 0, nor below 0 |
| AlsaParams.MaskBoundIff | mcts-blts/blts-alsa-core/src/alsa_util.c:562-613 | for every index of a mask, what bounding allows is what was requested, if and only if no end wraps to effect |
| AlsaParams.MaskBoundWraps | mcts-blts/blts-alsa-core/src/alsa_util.c:562-600 | the request (0, 0, UINT_MAX, +1) is for every index and gets none |
| AlsaParams.HwParams.Get | mcts-blts/blts-alsa-core/src/alsa_util.c:464-493 | for a mask, success exactly when one index is left, and that index; for an interval, its value if it has just one |
| AlsaParams.HwParams.SetIntervalParam | mcts-blts/blts-alsa-core/src/alsa_util.c:495-560 | the interval branch, with the changed and requested flags |
| AlsaParams.HwParams.SetMaskParam | mcts-blts/blts-alsa-core/src/alsa_util.c:495-560 | the mask branch leaves exactly its target index, or nothing when that was not there; the target is what was asked if and only if that is not just above UINT_MAX; an index past a non-empty mask overruns it |
| AlsaParams.HwParams.SetMaskReadsBack | mcts-blts/blts-alsa-core/src/alsa_util.c:464-560 | a mask parameter set successfully reads back as what was asked if and only if that is not just above UINT_MAX; there it reads back 0 |
| AlsaParams.HwParams.BoundIntervalParam | mcts-blts/blts-alsa-core/src/alsa_util.c:562-647 | the interval branch of setting both bounds, with its flags and codes; what it denotes is `BoundExactUnlessWraps` |
| AlsaParams.HwParams.BoundMaskParam | mcts-blts/blts-alsa-core/src/alsa_util.c:590-613 | the mask branch leaves exactly the indices `Allowed` names (see `MaskBoundIff`), fails exactly when none is left, and overruns exactly when the lower end is above 256 or an index above the upper end is to be removed |
| AlsaParams.HwParams.Any | mcts-blts/blts-alsa-core/src/alsa_util.c:649-685 | the block after `pcm_hw_params_any`: every mask full, every interval open to all values |
| RenderOps.FactorsAreShares | mcts-rendercheck-tests/rendercheck/ops.c:27-205 | each operator's factors times the alphas are the areas of source and destination that show |
| RenderOps.CompositeIsAreaMix | mcts-rendercheck-tests/rendercheck/ops.c:27-205 | all 36 family operators weight each colour by the area in which it shows, and never clamp |
| RenderOps.AlphaIsArea | mcts-rendercheck-tests/rendercheck/ops.c:27-205 | the result's alpha is the whole area that shows |
| RenderOps.AlphaClosedForms | mcts-rendercheck-tests/rendercheck/ops.c:82-201 | min(1, sa + da), max(0, sa + da - 1), max, min, the difference, Atop keeping da, and Saturate agreeing with Add |
| RenderOps.AddAdds | mcts-rendercheck-tests/rendercheck/ops.c:66-67 | Add is the sum up to full, for every channel and whatever the alphas |
| RenderOps.SaturateFills | mcts-rendercheck-tests/rendercheck/ops.c:68-70 | Saturate lets the source fill what the destination leaves free, and is the disjoint reverse Over for all operands |
| RenderOps.FactorsCompose | mcts-rendercheck-tests/rendercheck/ops.c:48-201 | in every family and for all alphas Over, Atop and Xor take their factors from In and Out; zero-alpha branches included |
| RenderOps.ResultInUnit | mcts-rendercheck-tests/rendercheck/ops.c:27-205 | every operator maps unit-range operands into the unit range |
| RenderOps.ChannelStaysBelowAlpha | mcts-rendercheck-tests/rendercheck/ops.c:27-205 | a channel not above its alpha stays so |
| RenderOps.ReverseSwaps | mcts-rendercheck-tests/rendercheck/ops.c:48-201 | each reverse operator is the plain one with the pictures exchanged, Xor its own reverse, for all operands |
| RenderOps.InAndOutSplitSource | mcts-rendercheck-tests/rendercheck/ops.c:48-201 | In plus Out of a source give back the source, zero alphas included |
| RenderOps.DoComposite | mcts-rendercheck-tests/rendercheck/ops.c:208-243 | the result pixel is the channel-wise composite of the old operands even when it is one of them |
| RenderOps.MaskIsIn | mcts-rendercheck-tests/rendercheck/ops.c:224-231 | a mask without component alpha takes the source In the mask |
| RenderOps.ComponentIsOwnMask | mcts-rendercheck-tests/rendercheck/ops.c:214-223 | component alpha gives every channel its own mask value as plain mask alpha |
| RenderOps.FullMaskIsNone | mcts-rendercheck-tests/rendercheck/ops.c:208-243 | a full mask is no mask |
| RenderOps.SrcAndDst | mcts-rendercheck-tests/rendercheck/ops.c:208-243 | Src gives the source and Dst the destination, channel by channel |
| RenderOps.CompositeInUnit | mcts-rendercheck-tests/rendercheck/ops.c:208-243 | unit-range pixels and masks give a unit-range pixel, for every operator |
| RenderOps.CompositePremultiplied | mcts-rendercheck-tests/rendercheck/ops.c:208-243 | without component alpha premultiplied pixels give a premultiplied pixel |
| RenderOps.ComponentAlphaMayExceed | mcts-rendercheck-tests/rendercheck/ops.c:214-223 | with component alpha they need not: a concrete mask |
| RenderOps.AlphaMoves | mcts-rendercheck-tests/rendercheck/ops.c:27-205 | with the source's alpha each operator's result alpha stays, rises or falls, by its trend |
| RenderOps.PreservesIff | mcts-rendercheck-tests/rendercheck/ops.c:208-243 | with component alpha, an operator keeps all premultiplied pixels premultiplied under a mask if and only if the mask suits its trend |
| RenderOps.AllPreserveIffGrey | mcts-rendercheck-tests/rendercheck/ops.c:208-243 | under every operator, if and only if the mask's channels are equal |
| HciDump.HeaderRoundTrip | mcts-blts/blts-bluetooth/src/ext_tools.c:62-67 | the packed header reads back as it was written |
| HciDump.HeaderLayout | mcts-blts/blts-bluetooth/src/ext_tools.c:62-67 | length, direction, seconds and microseconds stand at bytes 0, 2, 3 and 7, least significant bytes first |
| HciDump.EventsMean | mcts-blts/blts-bluetooth/src/ext_tools.c:412-426 | an interrupted call is repeated, one that fails or moves nothing ends the transfer there |
| HciDump.TransferCompletes | mcts-blts/blts-bluetooth/src/ext_tools.c:478-502 | interruptions and short transfers only delay: unless a call fails all that is available is moved |
| HciDump.WritePacket | mcts-blts/blts-bluetooth/src/ext_tools.c:386-426 | the log grows by the header and the data up to what the write calls moved; -1 exactly when one failed |
| HciDump.ReadDump | mcts-blts/blts-bluetooth/src/ext_tools.c:478-502 | the buffer's front holds the bytes read; the result is the full length, 0 at the end of the file even part-way, or -1 |
| HciParse.FirstFrame | mcts-blts/blts-bluetooth/src/ext_tools.c:638-657 | a log starts with the header and bytes of its first packet, and the rest is the log of the rest |
| HciParse.ReadTrace | mcts-blts/blts-bluetooth/src/ext_tools.c:638-657 | one turn of the loop prepares the next delivery, with zeros behind the packet's bytes |
| HciParse.ParseHcidump | mcts-blts/blts-bluetooth/src/ext_tools.c:599-679 | the handler is called for a prefix of the deliveries, all of them if and only if it never objects; otherwise its first objection is the last call |
| HciParse.LogPackets | mcts-blts/blts-bluetooth/src/ext_tools.c:386-426 | without a failing call the log holds every frame, however writes are cut up |
| HciParse.LogThenParse | mcts-blts/blts-bluetooth/src/ext_tools.c:386-679 | packets logged and parsed in arbitrary pieces reach the handler in order with bytes, direction and 32-bit time stamps, followed by one all-zero echo of the last header |
| HciAudit.Auditor.AuditIncomingConnectionTrace | mcts-blts/blts-bluetooth/src/hci.c:1055-1094 | the static counter and the flag take one automaton step |
| HciAudit.CompletedIsStuck | mcts-blts/blts-bluetooth/src/hci.c:1070-1074 | once completed, the automaton never passes anything again |
| HciAudit.PassesIffSubsequence | mcts-blts/blts-bluetooth/src/hci.c:1055-1094 | from state k the audit passes if and only if the events from k on are a subsequence of what it is shown |
| HciAudit.EchoIsIgnored | mcts-blts/blts-bluetooth/src/hci.c:1077-1079 | the extra callback at the end of the file does not affect the audit |
| HciAudit.AuditLog | mcts-blts/blts-bluetooth/src/hci.c:1055-1094 | a logged and parsed sequence of packets passes a fresh audit if and only if the four events are a subsequence of the packets' first two bytes |
| Subsequences.TailPicks | mcts-blts/blts-bluetooth/src/hci.c:1077-1079 | taking the earliest match never loses a subsequence |
| BitCount.AndOctal | mcts-rendercheck-tests/rendercheck/main.c:51 | the mask works on octal digits separately |
| BitCount.HalveDigits | mcts-rendercheck-tests/rendercheck/main.c:51-52 | the first two lines turn every octal digit into its number of ones |
| BitCount.AddNeighbours | mcts-rendercheck-tests/rendercheck/main.c:53 | adding neighbouring digits gives, modulo 63, the number of ones |
| BitCount.CountIsExact | mcts-rendercheck-tests/rendercheck/main.c:46-56 | the count is exact for every int from 0 to 2^31 - 1 |
| ConfParser.RemoveData | mcts-blts/blts-alsa-core/src/alsa_conf_file.c:41-58 | cuts the characters out of the text in the buffer, or reports -1 and changes nothing; overruns exactly when the length to copy would be negative |
| ConfParser.ReadLine | mcts-blts/blts-alsa-core/src/alsa_conf_file.c:60-77 | the length up to the line's end, and a terminated copy when the line ends; overruns exactly when a line that ends does not fit the line buffer |
| ConfParser.RemoveTabs | mcts-blts/blts-alsa-core/src/alsa_conf_file.c:99-114 | the loop with the backward step ends with the first pass's text |
| ConfParser.RemoveLeadingSpaces | mcts-blts/blts-alsa-core/src/alsa_conf_file.c:117-132 | the loop with the backward step ends with the second pass's text |
| ConfParser.RemoveComments | mcts-blts/blts-alsa-core/src/alsa_conf_file.c:136-148 | the loop over lines ends with the third pass's text, or overruns exactly when some terminated line does not fit the line buffer |
| ConfParser.Cleanup | mcts-blts/blts-alsa-core/src/alsa_conf_file.c:79-151 | for any text, the three loops terminate with the cleaned text, or overrun exactly when a terminated line is still too long after the second pass |
| ConfCleanup.CleanedIsClean | mcts-blts/blts-alsa-core/src/alsa_conf_file.c:117-148 | afterwards every line is non-empty and starts with neither a space nor `#` |
| ConfCleanup.CleanedIsKept | mcts-blts/blts-alsa-core/src/alsa_conf_file.c:99-148 | what is kept is picked, in order, out of the input with the tabs outside quotes made spaces |
| ConfCleanup.SpacedAt | mcts-blts/blts-alsa-core/src/alsa_conf_file.c:99-114 | a tab with an even number of quotes before it becomes a space, every other character stays |
| ConfCleanup.UntabbedKeepsRest | mcts-blts/blts-alsa-core/src/alsa_conf_file.c:99-114 | the first pass keeps every character but exactly the carriage returns outside quotes, in order |
| ConfCleanup.UntabbedIsSpaced | mcts-blts/blts-alsa-core/src/alsa_conf_file.c:99-114 | without such carriage returns it only makes spaces of tabs |
| ConfCleanup.LineByLine | mcts-blts/blts-alsa-core/src/alsa_conf_file.c:117-148 | wherever a line stands it is kept in full behind its leading spaces, unless it is blank or a comment, and the lines before and behind are cleaned as if it were not there |
| ConfCleanup.CleanedSame | mcts-blts/blts-alsa-core/src/alsa_conf_file.c:79-151 | a clean text with no tab or carriage return outside quotes is its own cleaned text |
| ConfCleanup.UntabbedShort | mcts-blts/blts-alsa-core/src/alsa_conf_file.c:99-114 | the first pass keeps lines short |
| ConfCleanup.UnindentedShort | mcts-blts/blts-alsa-core/src/alsa_conf_file.c:117-132 | the second pass keeps lines short |
| ConfCleanup.ShortByLine | mcts-blts/blts-alsa-core/src/alsa_conf_file.c:60-77 | lines fit if and only if the first does and those behind it do |

## Left out

- The barrier's timed variants (`barrier_sync_to` and the `_to` calls): on an early timeout they
  re-lock a table mutex they never released.
- Setting up shared memory, daemons, forking, interrupted or failing semaphore calls; a barrier's
  reference count changing while a round is active; the tag registry, whose look-up matches prefixes
  (`blts_sync_tagged` takes the same steps as `blts_sync_anon` once the barrier is found).
- Params.LastIsLast: for arbitrary generators only the sufficient condition is stated, because a
  generator may give equal values for different inputs; `Params.LastOnlyIfFits` and `Params.TestLast`
  have both directions.
- Linked lists of values, parameters and variants are sequences in `Params`, reversed by the loop of
  `LinkedList.ReverseValues`; the links of one heap list are turned round by `LinkedList.Reverse`.
  Copying of single values and freeing are not modelled.
- The look-up of tests, parameters and generators by name: a definition carries its inputs, so
  circular definitions, on which the code would not end, cannot be written down.
- The width of `size_t` in allocations: the pixel table's entry count wraps in 32 bits, its byte size not.
- What an overrun does to the memory it hits: the outcome only reports it, and for masks states the mask itself.
- Floating-point rounding in the compositing operators, which are over `real`; timing and result
  tables of the frame buffer benchmarks; pixel sizes other than 16 and 32 bits.
- Parsing a dump that is empty, where the header is read uninitialised, or that is not a sequence of
  frames; big-endian hosts; receiving from the socket; latency reporting in the audit.
- HciParse.ParseHcidump: reads that return nothing before the end of the file are excluded; the loop would end early there.
- The section parsers behind the configuration clean-up.
- Reading and writing devices, sockets, D-Bus, X11 and the other test tools of the repository.
