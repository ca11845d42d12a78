# A verified model of the profiler's reports

The repository profiles programs: Pin tools count instructions and blocks while a program runs,
a disassembler turns bytes into instruction tables, a script groups demangled functions by class,
and a desktop program joins, filters and pivots the resulting tables. This project models the
algorithms that turn executions, bytes, names and tables into those reports, and proves what the
reports mean.

A maintainer can check everything with `dafny verify dfyconfig.toml`.

| module | models |
|---|---|
| `IndexStrings`, `InsmixReport`, `Insmix` | `pin/insmix.cpp`: index strings of blocks, the START/STOP gate, `Fini` |
| `InsCount`, `SharedCounter` | `pin/inscount0.cpp`, `pin/inscount1.cpp`, `pin/inscount_tls.cpp`, with `+=` as a load and a store |
| `BlockKeys`, `BlockTrace` | `pin/bbtrace.cpp`: block keys and ordered search, block lookup, logs and summaries |
| `Agreement` | one run seen by all of these tools |
| `ClassNames` | `cp/tables.py`: the class of a demangled name |
| `Disassembly` | `snippets/xed-ex1.cpp`, `cp/xed/xed_disass.c`, `cp/elf/disass.py` |
| `Tables`, `MergeOrder`, `JoinTotals`, `Grouping`, `Query` | `cp/pivot.py`: filters, outer joins, the order of merging, totals, pivoting, interleaved concatenation, and the whole query |
| `Selection`, `SelectorLevels`, `Selectors` | `cp/__main__.py`, `cp/gui/pivot_combo_box.py`: choosing dimensions |
| `Sums`, `Permutations`, `Options` | sums of sequences, lists in another order, missing values |

Where the original changes things in place, so does the model: index strings are written into
arrays through a cursor, counters sit in arrays and objects, the tools and the window are classes,
and their methods are tied to functions on values about which the theorems are proved.

## Main results

* **Instruction mix.** The sizing pass and the emitting pass agree, no emitted index is 0, and for
  every run of instrumentation, START, STOP and execution events each printed count is the number of
  enabled executions of instructions the index describes; the `*total` line is the number of
  instructions. The sections of a routine count exactly the executed blocks that were instrumented
  under it, and blocks without a routine are in none. The sort is unstable: every routine gets one
  section, whatever order the sort chose, if and only if no routine with several blocks shares its
  address with another one.
* **Counting tools.** In every interleaving of the load and store steps the thread-local tool is
  exact, and no interleaving runs into a dead end. The shared counter of `inscount1` never counts
  too much, and is exact in every interleaving if and only if one thread executes all blocks;
  otherwise a schedule that loses a block is built.
* **Block tracer.** Whatever the order of instrumentation, executions and ends of threads, a
  thread's file names the blocks it executed, one by one, and each thread that ends prints once what
  they add up to. The order on keys is a strict weak order on blocks, which are never points;
  equivalence breaks exactly where a block holds two points, and ordered search by point works if
  and only if the ends of the blocks ascend with their starts.
* **Class names.** A name has no class if and only if no two adjacent colons stand before its last
  parenthesis, and only names with such a pair can raise. The scan is the inverse of printing a
  qualified name: for any class path and member, the class comes back if and only if a pass over the
  member ends at depth 0; for a balanced class path without operator names, if and only if the
  member's brackets balance and its colons lie between brackets, also around `operator<` and its
  kin. After a bare trailing `operator<`, `operator>`, `operator->` or `operator->*` the subscript
  raises if and only if neither pass over the class path stops and the second one misses the
  separator. A function is listed under its class if and only if the colon the scan stops at is the
  right one of a pair; where it stops is read off the name.
* **Disassembly.** The growing windows find exactly the linear sweep, in as many attempts as there
  are bytes, and table offsets are sweep positions; where every row of a table of many files and
  blocks stands, and under which symbol, is known. The 32-bit end of a window wraps if and only if
  the input has 2^32 - 1 bytes and the sweep does not reach its end.
* **Tables.** Filtering keeps exactly the matching rows; merging any number of tables loses and
  invents nothing, and the number of times each row occurs is known. Tables can be merged in every
  order if and only if any two share a column, and all orders give the same rows, whatever the
  tables hold, if and only if there are at most two, or no order works, or they share one set of
  columns and no others. The query groups by the chosen row dimensions down and the chosen column
  dimensions across, and sums every displayed column over the joined rows; as a join repeats a row
  once per partner, the shown total is that of the chosen table if and only if no row of it with a
  number other than 0 has two partners (for numbers that are not negative, in a star).
* **Selectors.** In every state users can reach by mouse, an item is greyed out exactly when another
  selector holds it or it was lost with a removed value selector, so all chosen dimensions differ.
  After a keyboard or wheel activation, which runs with a stale `previousIndex`, this is kept if and
  only if the stale item has not been chosen elsewhere. Without a clear the value selectors form a
  chain of levels, all set but the last. Runs that lose an item, that break exclusion, and that
  break the chain are given.

## Where the code does less than it seems to promise

* `pin/insmix.cpp`: two routines at one address can tear each other's sections apart
  (`InsmixReport.ReportGoodExactly`).
* `pin/inscount1.cpp`: concurrent additions get lost (`SharedCounter.SharedExactExactly`).
* `cp/tables.py`: bare operators raise or are given to another class
  (`ClassNames.BareOperatorExactly`), and a name whose outermost colon stands alone, such as an
  Objective-C++ method's, is missing from its class listing (`ClassNames.ListingExactly`,
  `ClassNames.PrefixCheckable`, `ClassNames.UnpairedColonIsLost`).
* `cp/pivot.py`: labels keep two levels of a column key, so columns that differ only in the third
  cannot be told apart (`Grouping.LabelsDifferExactly`, `Grouping.ThirdLevelIsLost`). Every displayed
  value builds its own dictionary of tables, starting with its own table, and merges in the order that
  dictionary yields, so a query can raise although its tables can be merged (`Query.QueryRaises`,
  exactly when: `Query.JoinsExactly`), and values can be summed over different rows
  (`Query.SameRowsExactly`). Joined rows count a number once per partner
  (`Query.ShownTotalExactly`).
* `cp/__main__.py`: clearing a value selector removes deeper ones without giving their items back
  (`Selection.LossIsReachable`, `Selection.GreyedByChoiceExactly`), and stale activations break
  exclusion (`Selection.StaleActivationExactly`); clearing keeps the further value selectors, so that a
  level can occur twice afterwards (`SelectorLevels.ClearChainExactly`, `SelectorLevels.TwoOfOneLevel`).
* `snippets/xed-ex1.cpp`: with 2^32 - 1 bytes that are not all instructions the window's end wraps
  (`Disassembly.Disassemble`, `Disassembly.LastWindow`).

## Model

| member | source | states |
|---|---|---|
| `IndexStrings.EmissionMeaning` | pin/insmix.cpp:164-186 | an instruction emits every index that describes it exactly once and no other: opcode, access sizes, stack, IP-relative and atomic flags cannot be confused, since their index ranges are disjoint |
| `IndexStrings.EmissionRange` | pin/insmix.cpp:100-123 | every emitted index is non-zero, below `MAX_INDEX`, and is never the slot of the total |
| `IndexStrings.StringMeaning` | pin/insmix.cpp:164-186 | the string of a block holds index k once for every instruction of the block that k describes |
| `IndexStrings.StringRange` | pin/insmix.cpp:410-412 | no index of a block's string is the terminator, out of range, or the total's |
| `IndexStrings.EmissionLength` | pin/insmix.cpp:132-146 | the number of indices emitted is what the sizing pass counts, though it asks in another order |
| `IndexStrings.IndexStringLength` | pin/insmix.cpp:125-151 | the sizing pass returns the length of the string the emitter will write (the instruction count when memory profiling is off) |
| `IndexStrings.GenerateIndexString` | pin/insmix.cpp:164-186 | writing through the cursor appends exactly the instruction's indices after what was already written and returns the advanced cursor |
| `IndexStrings.BuildIndexString` | pin/insmix.cpp:369-412 | the buffer is filled to its last slot with the block's indices and one terminating 0, as the assertion `curr == stats_end` demands |
| `IndexStrings.ScanStopsAtTerminator` | pin/insmix.cpp:518 | a scan that stops at the first 0 reads the emitted indices and nothing else |
| `InsmixReport.TallyPermutes` | pin/insmix.cpp:487 | the counts do not depend on the order the sort leaves |
| `InsmixReport.FilterPermutes` | pin/insmix.cpp:487 | nor do the records of one routine, as a bag |
| `InsmixReport.BelowSpecialIsInstructions` | pin/insmix.cpp:439-444 | the sum over plain opcodes counts every instruction of every execution once |
| `InsmixReport.TotalIsInstructions` | pin/insmix.cpp:439-444 | on a first dump the total entry is the sum over blocks of executions times instruction count |
| `InsmixReport.RunsPartition` | pin/insmix.cpp:493-525 | the stretches of equal routine number partition the sorted list |
| `InsmixReport.ContiguousSections` | pin/insmix.cpp:493-525 | a routine whose records lie together is printed exactly once, with the sums over all of them |
| `InsmixReport.NoZeroSection` | pin/insmix.cpp:499 | unknown routines (id 0) never get a section |
| `InsmixReport.SplitPrintsTwice` | pin/insmix.cpp:497-510 | records of another routine in between make the scan print a routine twice |
| `InsmixReport.SortedIsContiguous` | pin/insmix.cpp:276-279 | sorting by address brings a routine's records together when nobody shares its address |
| `InsmixReport.BadOrder` | pin/insmix.cpp:276-279 | otherwise some order the sort may choose gives a wrong report |
| `InsmixReport.GoodOrder` | pin/insmix.cpp:487-525 | without shared addresses every allowed order gives one right section per routine |
| `InsmixReport.ReportGoodExactly` | pin/insmix.cpp:487-525 | over all orders an unstable sort by address may return: the report is right if and only if no routine with several records shares its address |
| `InsmixReport.DistinctAddressesSuffice` | pin/insmix.cpp:487-525 | when different routine ids have different addresses the report is right for every sorted order |
| `InsmixReport.SectionsConserve` | pin/insmix.cpp:487-525 | for every index, sections plus the records of unknown routines add up to the whole, whatever the order |
| `InsmixReport.SectionsConserveEach` | pin/insmix.cpp:487-525 | in every order the sections of a routine, one or several, add up to that routine's records; id 0 has none |
| `InsmixReport.SectionsInOrder` | pin/insmix.cpp:276-279 | sections are printed in ascending order of the routines' addresses |
| `Insmix.RunShape` | pin/insmix.cpp:289-304 | after any events the gate is what the last START or STOP left, and there is one record per instrumented block, in order |
| `Insmix.StepTally` | pin/insmix.cpp:311-314 | one event adds to the counts exactly what the block it executes while enabled describes |
| `Insmix.RunTally` | pin/insmix.cpp:311-314 | for every run and index k, the counts are the number of instructions k describes in blocks executed while enabled |
| `Insmix.RunTotal` | pin/insmix.cpp:439-444 | for every run the total is the number of instructions executed while enabled |
| `Insmix.WholeRun` | pin/insmix.cpp:464-527 | for every run and every order the sort may choose, the final global table is right at every index, and the sections are right when no address is shared |
| `Insmix.WholeRunExactly` | pin/insmix.cpp:464-527 | after any run the sections are right for all orders the sort may choose if and only if no routine with several blocks shares its address |
| `Insmix.RecordOrigins` | pin/insmix.cpp:344-415 | for every run, the i-th record carries 0 when the i-th instrumented block came with no routine, and that routine's id otherwise |
| `Insmix.TableOrigins` | pin/insmix.cpp:344-364 | an id is in the table exactly when some trace came with it, with the address that came first; 0 stands for no routine, with address 0 |
| `Insmix.StepUnder` | pin/insmix.cpp:311-314 | one event adds to a routine's counts exactly what the block describes that it executes while enabled and that was instrumented under the routine |
| `Insmix.RunTallyUnder` | pin/insmix.cpp:464-527 | for every run, a routine's records count exactly the executed blocks that were instrumented under it |
| `Insmix.DumpedUnder` | pin/insmix.cpp:437-444 | dumping a routine's records prints, at every index, the executed instructions of its blocks that the index describes, and as `*total` their number |
| `Insmix.RightExactly` | pin/insmix.cpp:487-525 | a good report has one section for every routine under which a block was instrumented, with the counts of the blocks executed under it, and no other |
| `Insmix.SectionsUnder` | pin/insmix.cpp:487-525 | in whatever order the sort leaves the records, the sections of a routine add up to the counts of the blocks executed under it; blocks without a routine are in no section |
| `Insmix.SharedAddressRun` | pin/insmix.cpp:340-364 | two routines at one address, one with two blocks: a run for which some order is wrong |
| `Insmix.DumpStats` | pin/insmix.cpp:426-458 | adding up in place turns a table of counts into the printed table with its total |
| `Insmix.Clear` | pin/insmix.cpp:509 | the per-routine table is all zeros afterwards |
| `Insmix.Accumulate` | pin/insmix.cpp:518-523 | following a block's string adds its counter once per occurrence of each index, to both tables |
| `Insmix.ScanContinues` | pin/insmix.cpp:497-523 | the scan's variables stay right when the next record belongs to the same routine |
| `Insmix.ScanBegins` | pin/insmix.cpp:497-516 | and when it starts another routine |
| `Insmix.PrintSection` | pin/insmix.cpp:499-504 | the section of a finished routine is printed with its complete sums |
| `Insmix.Insmix.constructor` | pin/insmix.cpp:282-286 | the tool starts disabled, with no records and empty tables |
| `Insmix.Insmix.Handler` | pin/insmix.cpp:289-304 | START and STOP take the step of the run model |
| `Insmix.Insmix.DoCount` | pin/insmix.cpp:311-314 | adding `enabled` through the counter pointer is an execution step of that block and of no other |
| `Insmix.Insmix.AddBlock` | pin/insmix.cpp:373-419 | one block adds one fresh record holding its index string |
| `Insmix.Insmix.AddBlocks` | pin/insmix.cpp:367-420 | the loop adds one record per block, in order |
| `Insmix.Insmix.Trace` | pin/insmix.cpp:334-422 | instrumenting a trace enters its routine once and appends its blocks in order |
| `Insmix.Insmix.Fini` | pin/insmix.cpp:464-527 | sections and global table are those of the sorted records |
| `Insmix.Insmix.Scan` | pin/insmix.cpp:490-527 | the loop with the null marker prints one section per stretch and fills the global table |
| `Insmix.Insmix.Take` | pin/insmix.cpp:289-422 | one event of a run is one step of the run model, in place |
| `Insmix.Replay` | pin/insmix.cpp:289-422 | the tool driven by a run is in the state of the run model |
| `Insmix.ProfileRun` | pin/insmix.cpp:289-529 | from the first event through `Fini`, with any function that sorts: right counts at every index and right total; the sections of r > 0 count exactly the executed blocks instrumented under r, in one section when no address is shared, by ascending address; blocks without a routine are in no section |
| `InsCount.StepInv` | pin/inscount_tls.cpp:69-84 | every step of every thread keeps: the lock protects `numThreads`, each thread's count is the sum of its finished blocks, and a pending store holds the value still in memory |
| `InsCount.TraceOf` | pin/inscount_tls.cpp:69-73 | in every schedule each thread's share of the run is a prefix of its program |
| `InsCount.FlattenCounts` | pin/inscount0.cpp:42-49 | counting instruction by instruction gives a thread the sum of its block sizes |
| `InsCount.FlattenTotal` | pin/inscount0.cpp:42-49 | and the whole run the sum over all threads |
| `InsCount.TlsExact` | pin/inscount_tls.cpp:69-111 | in every interleaving that ends, all threads are counted, each count is exact, and together they are per-instruction counting of the run |
| `InsCount.CountInstructions` | pin/inscount0.cpp:42-49 | incrementing before every instruction counts the run's instructions |
| `InsCount.CountBlocks` | pin/inscount1.cpp:42-54 | adding block sizes, in one thread, gives the same number |
| `InsCount.InscountTls.constructor` | pin/inscount_tls.cpp:47-58 | nobody is counted and no thread has data |
| `InsCount.InscountTls.Advance` | pin/inscount_tls.cpp:69-84 | one load, store, lock or allocation step, in place |
| `InsCount.InscountTls.Fini` | pin/inscount_tls.cpp:102-114 | prints one count per counted thread; fails exactly when a counted thread has no data yet |
| `InsCount.CanFinish` | pin/inscount_tls.cpp:69-84 | whatever has been scheduled, some continuation lets all threads finish |
| `InsCount.CountedWithoutData` | pin/inscount_tls.cpp:75-84 | a thread preempted after releasing the lock is counted but has no data |
| `InsCount.ReportAt` | pin/inscount_tls.cpp:102-114 | `Fini` after any schedule: a count for every thread counted so far, or a failure exactly when one has no data yet |
| `InsCount.Profile` | pin/inscount_tls.cpp:69-114 | driven by any complete schedule the tool prints, thread by thread, the instructions executed |
| `SharedCounter.SharedNeverOver` | pin/inscount1.cpp:42 | the shared counter never exceeds what has been executed, in any interleaving |
| `SharedCounter.AloneIsExact` | pin/inscount1.cpp:42 | one busy thread is counted exactly |
| `SharedCounter.Finish` | pin/inscount1.cpp:42 | from a state in which nobody is inside `docount`, the rest can be run without losing anything |
| `SharedCounter.LostUpdate` | pin/inscount1.cpp:42 | two busy threads have a schedule that loses exactly the first block of one of them |
| `SharedCounter.SharedExactExactly` | pin/inscount1.cpp:42 | the shared counter is right in every interleaving if and only if all blocks belong to one thread |
| `BlockKeys.BlockKeysAreOrdered` | pin/bbtrace.cpp:204-216 | on block keys `<` is a strict weak order whose equivalence is equality of both ends and ignores the size |
| `BlockKeys.PointsBreakTheOrder` | pin/bbtrace.cpp:204-216 | a block equivalent to two points that are not equivalent to each other: exactly when it holds both and they differ |
| `BlockKeys.LowerBound` | pin/bbtrace.cpp:250 | ordered search finds the first key not less, for any key that partitions the list |
| `BlockKeys.Find` | pin/bbtrace.cpp:250 | finds an equivalent key exactly when there is one |
| `BlockKeys.BlockKeyPartitions` | pin/bbtrace.cpp:204-216 | a block key partitions every sorted list of block keys |
| `BlockKeys.DisjointBlocksAreSorted` | pin/bbtrace.cpp:212-215 | disjoint blocks in address order are in key order |
| `BlockKeys.PointSearchExactly` | pin/bbtrace.cpp:204-216 | every point key partitions a sorted list of block keys if and only if the ends of the blocks ascend |
| `BlockKeys.DisjointBlocksAreSearchable` | pin/bbtrace.cpp:212-215 | as they do for disjoint blocks |
| `BlockKeys.PointMeaning` | pin/bbtrace.cpp:206-210 | a point key is equivalent to a block exactly when start <= point < end |
| `BlockKeys.PointPartitions` | pin/bbtrace.cpp:206-210 | a point key partitions every sorted list of blocks with ascending ends |
| `BlockKeys.FindPoint` | pin/bbtrace.cpp:206-210 | so search by point finds the block holding the point, or that there is none |
| `BlockKeys.PointFindsOneBlock` | pin/bbtrace.cpp:218-224 | at most one block is found, and `Contains` differs exactly at a block's last instruction address |
| `BlockTrace.SummaryStep` | pin/bbtrace.cpp:311-331 | one more log entry raises the summary by that block's static size |
| `BlockTrace.SummaryIsLogSum` | pin/bbtrace.cpp:311-331 | summing counts times sizes over blocks is summing sizes over the log |
| `BlockTrace.Block.constructor` | pin/bbtrace.cpp:233-245 | a new block has zero counts for all threads |
| `BlockTrace.Block.Execute` | pin/bbtrace.cpp:118 | raises the count of one thread by one |
| `BlockTrace.Block.EmitProgramEnd` | pin/bbtrace.cpp:311-322 | adds count times size and prints a line, or does nothing for a block the thread never executed |
| `BlockTrace.PointKeyExactly` | pin/bbtrace.cpp:249 | a looked-up key is a point exactly for a block that spans the whole address space |
| `BlockTrace.LegalIsNoPoint` | pin/bbtrace.cpp:249 | so lookup never makes a point key |
| `BlockTrace.EmitBlocks` | pin/bbtrace.cpp:324-329 | the loop over all blocks adds up the summary and lists its lines |
| `BlockTrace.LinesExactly` | pin/bbtrace.cpp:311-329 | a block has its one line, with the number of log entries that name it, exactly when there are any; lines are in key order |
| `BlockTrace.LinesAddUp` | pin/bbtrace.cpp:311-331 | the lines account for the whole log, instruction for instruction |
| `BlockTrace.BbTrace.constructor` | pin/bbtrace.cpp:148-171 | the tool starts with no blocks and empty logs |
| `BlockTrace.BbTrace.AddBlock` | pin/bbtrace.cpp:252-266 | a new block gets the next id and its place in key order; one block per key, unique ids, and counts that match the logs are kept |
| `BlockTrace.BbTrace.LookupBlock` | pin/bbtrace.cpp:247-271 | returns the block with this address range, creating it exactly when it is new, and touching nothing otherwise |
| `BlockTrace.BbTrace.CountBlock` | pin/bbtrace.cpp:227-231 | one execution is one log entry, and counts keep matching the logs of all threads |
| `BlockTrace.BbTrace.ThreadFini` | pin/bbtrace.cpp:324-354 | the printed dynamic count is the sum of static sizes over the thread's log; the lines are the logged blocks with their multiplicities |
| `BlockTrace.DynamicIsInstructions` | pin/bbtrace.cpp:262 | on unmodified code the count is the number of instructions executed |
| `BlockTrace.KnownMeansSeen` | pin/bbtrace.cpp:250-252 | the map knows a range exactly when the run has seen it |
| `BlockTrace.FaithfulAdded` | pin/bbtrace.cpp:262-263 | after creation every block still has the size first seen for its range, and no range is missing |
| `BlockTrace.FaithfulKept` | pin/bbtrace.cpp:269 | likewise when the block was known |
| `BlockTrace.InstrumentBlock` | pin/bbtrace.cpp:247-282 | instrumenting a block keeps that, changes nobody's log sum, and gives the inserted call the block with its range |
| `BlockTrace.ExecuteBlock` | pin/bbtrace.cpp:227-231 | an executed call adds to the thread's log sum the size first seen for its range |
| `BlockTrace.Take` | pin/bbtrace.cpp:227-354 | one event, be it instrumentation, execution or the end of a thread; a thread that ends prints its dynamic count |
| `BlockTrace.PrintsAreInstructions` | pin/bbtrace.cpp:324-331 | on unmodified code a thread prints the instructions it executes in the whole run, wherever in the run it ends |
| `BlockTrace.FirstExactly` | pin/bbtrace.cpp:250-263 | the size that counts for an address range is that of the first block instrumented with it |
| `BlockTrace.DynamicIsFirstSizes` | pin/bbtrace.cpp:311-331 | a thread's count is made of its own executions alone, each with the size first seen for its range anywhere in the run |
| `BlockTrace.PrintsOnce` | pin/bbtrace.cpp:346-352 | every thread that ends prints just one count, nobody else prints any, in the order in which the threads end |
| `BlockTrace.PrintedDynamic` | pin/bbtrace.cpp:346-352 | what a thread prints at its end is its count over the whole run |
| `BlockTrace.TrackedExecute` | pin/bbtrace.cpp:227-231 | an execution adds to the thread's file the id of the block with the executed range |
| `BlockTrace.TrackedExtends` | pin/bbtrace.cpp:247-266 | a block created later changes no thread's file and no thread's summary |
| `BlockTrace.TrackedEnd` | pin/bbtrace.cpp:311-352 | a thread that ends gets the summary of all its executions |
| `BlockTrace.ProfileRun` | pin/bbtrace.cpp:227-354 | for every run: each thread's file names, execution by execution, the block with the executed range; exactly the threads that end print, each once, the sum over their executions of the size first seen, with a summary of them; on unmodified code, the instructions they execute |
| `Agreement.ToolsAgree` | pin/insmix.cpp:439-444 | per-instruction counting, the mix's total and the tracer's dynamic counts and printed lines agree on every run, in total and by thread |
| `Agreement.ThreadLocalAgrees` | pin/inscount_tls.cpp:102-111 | the thread-local counters print what the tracer prints for each thread |
| `ClassNames.StripArguments` | cp/tables.py:28-30 | cuts at the last opening parenthesis, if there is one |
| `ClassNames.JumpExactly` | cp/tables.py:39-45 | the scan jumps by 10 exactly after a shift operator's name and by 9 exactly after `operator>` or `operator<` |
| `ClassNames.ClearMeansBracketed` | cp/tables.py:36-51 | in balanced text no colon is met at depth 0 from the right exactly when every colon is between brackets read from the left |
| `ClassNames.Walk` | cp/tables.py:36-51 | a stretch without operators is crossed with the depth changed by its brackets, also after the index has gone negative |
| `ClassNames.WalkStops` | cp/tables.py:36 | it is not crossed exactly when a colon at depth 0 lies in it |
| `ClassNames.PassOperator` | cp/tables.py:39-45 | a jump lands on the `o` of `operator` and skips the character after the symbol, except a colon at depth 0 |
| `ClassNames.PassClass` | cp/tables.py:36-51 | left at another depth than 0, the scan does not stop at the separator |
| `ClassNames.NotFound` | cp/tables.py:36-53 | then the result is never the class |
| `ClassNames.ClassOfPrinted` | cp/tables.py:28-55 | for a printed name the result is decided by where the walk over its qualified part stops |
| `ClassNames.RoundTrip` | cp/tables.py:25-55 | the class of a printed member comes back for every class path when the member's brackets balance and its colons lie between them; the index stops at the separator, so it is never negative |
| `ClassNames.RoundTripExactly` | cp/tables.py:25-55 | for a balanced class path without operator names this is the only case |
| `ClassNames.ScanByPasses` | cp/tables.py:34-51 | the scan of any name is one pass from the right, a second one at the depth reached, and then the IndexError |
| `ClassNames.PassQualified` | cp/tables.py:34-51 | a pass over a qualified name is one over the member, the separator, and one over the class path |
| `ClassNames.RoundTripByPasses` | cp/tables.py:25-55 | for every class path and member, operator names and inner parentheses included: the class comes back if and only if the first or the second pass over the member ends at depth 0 |
| `ClassNames.OperatorRoundTrip` | cp/tables.py:36-53 | the same around an operator name; the character after it does not matter unless it is a colon reached at depth 0 |
| `ClassNames.OperatorRoundTripExactly` | cp/tables.py:36-53 | and exactly then, for a balanced class path without operator names |
| `ClassNames.ComparisonOperators` | cp/tables.py:36-53 | shift, comparison and compound shift operators are attributed to their class |
| `ClassNames.OperatorTemplates` | cp/tables.py:36-53 | so are operators followed by a space and any bracketed suffix |
| `ClassNames.BareOperatorByPasses` | cp/tables.py:36-51 | after a bare `operator<`, `operator>`, `operator->` or `operator->*`, for every class path: the subscript raises exactly when neither pass over the class path stops and the second one misses the separator |
| `ClassNames.BareOperatorExactly` | cp/tables.py:36-51 | for a class path without operator names: exactly when it has no colon at depth 0 in either pass |
| `ClassNames.BareOperatorInBalanced` | cp/tables.py:36-51 | when it is balanced as well: exactly when no colon lies between one or two unclosed `<` (for `operator<`), or unmatched `>` (for the others) |
| `ClassNames.BareOperatorRaises` | cp/tables.py:36-51 | so always when the class path has no brackets |
| `ClassNames.OutcomeExactly` | cp/tables.py:25-55 | every outcome for every name: None exactly without two adjacent colons before the last parenthesis; IndexError exactly with such a pair and no stop; otherwise the text two places left of the stop |
| `ClassNames.StopsAtPair` | cp/tables.py:36-53 | with paired colons the scan only stops at the right colon of a pair |
| `ClassNames.PrefixExactly` | cp/tables.py:52-53 | the name begins with the class found and `::` exactly when the scan stopped at the right colon of a pair |
| `ClassNames.PrefixByPasses` | cp/tables.py:28-53 | for every name: it raises exactly when no pass stops, and begins with its class and `::` exactly when the stop is at the right colon of a pair |
| `ClassNames.ScanStopsExactly` | cp/tables.py:34-52 | where a scan without operator names stops: at the outermost colon, else at the one made so by the second pass, else it raises |
| `ClassNames.PrefixCheckable` | cp/tables.py:34-53 | for such names the prefix condition is read off the brackets, before the call |
| `ClassNames.ClassIsPrefix` | cp/tables.py:52-53 | with paired colons it holds |
| `ClassNames.GetClassName` | cp/tables.py:25-55 | the loop with its two jumps returns, for every name, None exactly without a pair of colons, raises exactly when a pair is there and the scan does not stop, and otherwise returns the text left of the stop |
| `ClassNames.FindClasses` | cp/tables.py:58-63 | exactly the classes inferred for some name, each once; None exactly when a name raises |
| `ClassNames.FindsExactly` | cp/tables.py:58-63 | the program lists nothing exactly when some name has a pair of colons and its scan does not stop; names without a pair never make it fail and contribute no class |
| `ClassNames.FindsInOrder` | cp/tables.py:58-63 | classes come in the order in which names that have them first come |
| `ClassNames.DropDuplicates` | cp/tables.py:61 | keeps every value, each once |
| `ClassNames.DropMissing` | cp/tables.py:62 | keeps exactly the classes, without repetition if there was none |
| `ClassNames.FilterByName` | cp/tables.py:65-66 | exactly the names with the prefix, each as often as before |
| `ClassNames.FilterConcat` | cp/tables.py:65-66 | a listing keeps the order of the table |
| `ClassNames.ListClasses` | cp/tables.py:72-84 | one listing per class that some name has, unless some name raises |
| `ClassNames.ListingExactly` | cp/tables.py:57-84 | a function occurs in the one listing of its class as often as in the table when its scan stopped at the right colon of a pair, and not at all otherwise |
| `ClassNames.ListingComplete` | cp/tables.py:57-84 | for names with paired colons the listing is complete |
| `ClassNames.UnpairedColonIsLost` | cp/tables.py:52-53 | an Objective-C++ method name that is missing from its listing |
| `Disassembly.Window` | include/xed-decode.h:54-75 | a window of the position decodes exactly when it holds the whole instruction there |
| `Disassembly.Accepts` | snippets/xed-ex1.cpp:65-71 | the first window that decodes ends where the swept instruction ends |
| `Disassembly.Rejects` | snippets/xed-ex1.cpp:72-83 | any error widens the window by one byte |
| `Disassembly.Exhausted` | snippets/xed-ex1.cpp:48 | when the window passes the end, the sweep has ended too |
| `Disassembly.Disassemble` | snippets/xed-ex1.cpp:4-93 | for every length: as many attempts as bytes, and attempt k yields the swept instruction ending after byte k, or nothing; raises exactly on a bad mode or empty input; the window wraps exactly on 2^32 - 1 bytes not covered by the sweep |
| `Disassembly.LastWindow` | snippets/xed-ex1.cpp:65-83 | at the last window of a 2^32 - 1 byte input: the next window is wrapped with the loop going on exactly when it does not decode, that is when the sweep misses the end |
| `Disassembly.WindowStep` | snippets/xed-ex1.cpp:48-86 | one attempt either places the next swept instruction, or widens the window, or wraps it |
| `Disassembly.DisassembleList` | cp/xed/xed_disass.c:109-141 | the kept instructions are those of the linear sweep, unless the window wraps, for the same inputs |
| `Disassembly.SweepExactly` | snippets/xed-ex1.cpp:48-86 | the sweep is the only list that tiles the input: every entry decodes at its place, each starts where the one before ends, and nothing decodes behind the last |
| `Disassembly.EndingExactly` | snippets/xed-ex1.cpp:65-86 | an attempt's entry is an instruction exactly when that one, in the sweep, ends there |
| `Disassembly.UpToBlockEndMeaning` | cp/xed/xed_disass.c:181-183 | the cut list ends in its only block-ending instruction, if any |
| `Disassembly.DisassembleUntilBlockEnd` | cp/xed/xed_disass.c:163-195 | one decode per instruction gives the growing windows' result cut at the block's end |
| `Disassembly.AppendBlock` | cp/elf/disass.py:130-185 | one row per instruction, offsets counted from the block's start |
| `Disassembly.GetInstLists` | cp/elf/disass.py:122-186 | for every dictionary of files and ranges: as many rows as the blocks have instructions; row j of range r of file d stands behind all earlier ranges and files, with its own file, its own block's symbol and address, and the lengths before it in the block |
| `Disassembly.TableRowAt` | cp/elf/disass.py:125-186 | where instruction j of range r of file d stands in the table, and under which index |
| `Disassembly.TableStands` | cp/elf/disass.py:125-186 | the same for every row at once, with the length of the table |
| `Disassembly.SweepOffsets` | cp/elf/disass.py:185 | sweep positions are prefix sums of instruction lengths |
| `Disassembly.RowsAreSweep` | cp/elf/disass.py:130-185 | block address plus offset is the sweep position, and rows strictly ascend without gaps |
| `Disassembly.TableOfBlock` | cp/elf/disass.py:128-186 | from bytes to table: every row is the swept instruction at its place |
| `Tables.JoinKeepsLeft` | cp/pivot.py:39-44 | an outer join on all common columns keeps every left row whole |
| `Tables.JoinKeepsRight` | cp/pivot.py:39-44 | and every right row |
| `Tables.JoinedRow` | cp/pivot.py:39-44 | the joined rows are exactly the agreeing pairs put together and the rows of either side without a partner |
| `Tables.JoinCount` | cp/pivot.py:39-44 | and how often: as often as its two parts can be paired, plus as often as it occurs on one side without a partner on the other |
| `Tables.JoinCommutes` | cp/pivot.py:39-44 | an outer join of two tables commutes up to the order of the rows |
| `Tables.Merge` | cp/pivot.py:25-45 | folds the joins, failing exactly when some table has no column in common with what precedes it |
| `Tables.MergedShape` | cp/pivot.py:25-45 | the result has the columns of all tables |
| `Tables.MergesExactly` | cp/pivot.py:54-64 | merging succeeds exactly when every table but the first has a column in common with an earlier one |
| `Tables.MergeLosesNothing` | cp/pivot.py:25-45 | every row of every table lives on, whole, in some merged row, for any number of tables |
| `Tables.MergeInventsNothing` | cp/pivot.py:25-45 | every value of a merged row comes from a source row all of which is in it |
| `Tables.MergeCountExactly` | cp/pivot.py:32-45 | for tables that share one set of columns and no others, a merged row occurs as often as the product of what each table contributes |
| `Tables.MergeOrderIrrelevant` | cp/pivot.py:27-45 | such tables can be merged in any order, with the same rows |
| `MergeOrder.MergedCols` | cp/pivot.py:54-63 | whether tables can be merged in an order depends on their columns only: each must share one with those before it |
| `MergeOrder.MergeableExactly` | cp/pivot.py:27-45 | tables can be merged in every order if and only if any two of them share a column |
| `MergeOrder.FailingOrder` | cp/pivot.py:54-63 | otherwise this order fails |
| `MergeOrder.OrdersDiffer` | cp/pivot.py:32-45 | tables that are no star have rows for which two orders give different results |
| `MergeOrder.OrderIrrelevantExactly` | cp/pivot.py:27-45 | for given columns, all orders have the same outcome for all rows if and only if there are at most two tables, or no order works, or they are a star |
| `JoinTotals.JoinWeighted` | cp/pivot.py:39-44 | an outer join counts every number once per partner of its row, and once if there is none |
| `JoinTotals.JoinTotalExactly` | cp/pivot.py:39-44 | for numbers that are not negative, joining a table keeps a total if and only if no row with a number other than 0 has two partners |
| `JoinTotals.StarTotal` | cp/pivot.py:32-45 | merging a star counts every number as often as the product of its row's partners in the other tables |
| `JoinTotals.StarTotalExactly` | cp/pivot.py:32-45 | and keeps the total if and only if none of these rows has two partners in one table |
| `Tables.BasenameMeaning` | cp/pivot.py:78 | the table's name is what follows the last separator of its path |
| `Tables.GroupByName` | cp/pivot.py:74-76 | filters are grouped by the table they name, in their order |
| `Tables.ApplyFilters` | cp/pivot.py:66-86 | every named table is queried, others are kept |
| `Tables.FilteredExactly` | cp/pivot.py:77-85 | a filtered table has exactly the rows meeting every filter naming it, as often as before |
| `Tables.FilteringRaisesExactly` | cp/pivot.py:77-85 | filtering raises exactly when some table is asked for a column it does not have |
| `Tables.ComparisonsPartition` | cp/pivot.py:67-71 | less, equal, greater and incomparable rows partition a table; `<=`, `>=` and `!=` keep the unions, and only `!=` keeps rows with nothing to compare |
| `Tables.ComparisonsOrdered` | cp/pivot.py:67-71 | `=` keeps the rows with just that number; `<` keeps more and `>` fewer rows as the value grows |
| `Tables.FilterOrderIrrelevant` | cp/pivot.py:75-82 | the order of the filters does not matter |
| `Tables.FilteredFormed` | cp/pivot.py:83 | filtering leaves rows within their columns |
| `Grouping.GridConserves` | cp/pivot.py:193-198 | a grid with all keys of the rows adds up to what they contribute |
| `Grouping.ContributionSplits` | cp/pivot.py:193-198 | the displayed column is what grouped rows and rows with a missing key hold of it |
| `Grouping.PivotConserves` | cp/pivot.py:193-198 | the cells add up to the displayed column less the rows without a group |
| `Grouping.CompleteRows` | cp/pivot.py:193-198 | with nothing missing that is the whole column |
| `Grouping.SameKeys` | cp/pivot.py:193-198 | without missing data tables of different values have the same row and column keys |
| `Grouping.PivotCells` | cp/pivot.py:193-198 | row and column keys are those of the grouped rows, each once, and a cell is the displayed column summed over just the rows with its two keys |
| `Grouping.SameKeyExactly` | cp/pivot.py:193-196 | rows have one key exactly when they agree in every chosen column, in order |
| `Grouping.PivotPermutes` | cp/pivot.py:193-198 | the pivoted table does not depend on the order of the rows |
| `Grouping.DropSameCell` | cp/pivot.py:47-52 | dropping columns nobody chose changes no cell |
| `Grouping.DropChangesNothing` | cp/pivot.py:47-52 | nor anything else of the pivoted table |
| `Grouping.Interleave` | cp/pivot.py:100-108 | column i of table j ends up at position i*m+j |
| `Grouping.CrossLabels` | cp/pivot.py:116-127 | so does the label of column key i and value j |
| `Grouping.Concat` | cp/pivot.py:88-133 | column and label meet at every position; fails exactly on different widths or unlabelled columns |
| `Grouping.CutExactly` | cp/pivot.py:118-127 | a label keeps the first two levels of a key and no more |
| `Grouping.UnlabelledExactly` | cp/pivot.py:116-128 | keys of two levels and single texts can be labelled; single numbers and empty keys cannot |
| `Grouping.LabelsDifferExactly` | cp/pivot.py:118-127 | labels are pairwise different exactly when value names are and column keys still are after being cut to two levels |
| `Grouping.ThirdLevelIsLost` | cp/pivot.py:122 | keys that differ in the third level only share a label |
| `Query.NeededColumns` | cp/pivot.py:163-170 | the dictionary holds for every table exactly the columns chosen from it, its keys in the order they were put in |
| `Query.Fetch` | cp/pivot.py:174-178 | looks all needed tables up, failing when one is missing |
| `Query.Join` | cp/pivot.py:174-178 | one table is taken as it is, several are merged |
| `Query.PivotJoined` | cp/pivot.py:180-198 | dropping what nobody chose changes nothing; fails exactly when group keys or names are missing |
| `Query.PivotOne` | cp/pivot.py:160-198 | each displayed value is aggregated over the join of all needed tables, in the order its own dictionary yields them |
| `Query.Pivot` | cp/pivot.py:140-208 | the whole query: row keys are read from the chosen row dimensions and column keys from the chosen column dimensions of the complete joined rows, each once, and every cell is the displayed column summed over the rows with its two keys; column i of value j of m stands at i*m+j under that value's name; an error exactly when no value is displayed, some round raises, or the tables do not fit together |
| `Query.PivotShows` | cp/pivot.py:192-198 | pivoting for a request gives the table the request describes: rows by its row dimensions, columns by its column dimensions |
| `Query.AnswerIsRight` | cp/pivot.py:152-208 | so do a single answer and every stripe of a combined one, in the order in which the values were first chosen |
| `Query.FirstsOrder` | cp/pivot.py:147-150 | an ordered dictionary has each displayed value once, in the order in which they first come |
| `Query.RoundExactly` | cp/pivot.py:180-198 | after the join a round raises exactly when nothing is grouped by, or a chosen name is a column of none of the needed tables |
| `Query.SameFrames` | cp/pivot.py:159-200 | over the same rows, without missing data, all values' tables have the same rows and columns |
| `Query.AnswerConserves` | cp/pivot.py:159-208 | then the columns of every displayed value carry their own keys and add up to that value's column of the joined rows |
| `Query.SameRowsExactly` | cp/pivot.py:160-178 | for all rows, filters and dictionary orders two values see the same rows if and only if they are displayed from one table, or a table is missing, or the order of merging the needed tables is irrelevant |
| `Query.SameRows` | cp/pivot.py:160-178 | that this suffices |
| `Query.RowsDiffer` | cp/pivot.py:160-178 | that it is needed: rows and a dictionary order for which they do not |
| `Query.JoinsExactly` | cp/pivot.py:160-178 | the join succeeds in every dictionary order if and only if all needed tables are there and any two share a column |
| `Query.QueryRaises` | cp/pivot.py:159-178 | a query on three tables whose first value raises and whose second can be joined |
| `Query.QueryTotalExactly` | cp/pivot.py:157-198 | what a value is aggregated over adds up to its column in its own filtered table if and only if no row there with a number other than 0 has two partners in another needed table |
| `Query.QueryConserves` | cp/pivot.py:140-208 | whenever all values see the same rows, each value's shown columns carry their own keys and add up to its column of the joined rows |
| `Query.ShownTotalExactly` | cp/pivot.py:140-208 | then the shown total of a value is that of the table it was chosen from if and only if the query repeats none of that table's non-zero rows |
| `Query.QueryLosesNothing` | cp/pivot.py:157-178 | for every displayed value, every row of a chosen table that meets its filters is, whole, part of a row that is aggregated |
| `Query.QueryInventsNothing` | cp/pivot.py:157-178 | every aggregated value comes from a row of a named table that meets all its filters and is in the aggregated row |
| `Selection.EnableTidy` | cp/gui/pivot_combo_box.py:28-33 | enabling keeps the list of disabled rows and the item flags in step and removes just that row |
| `Selection.DisableTidy` | cp/gui/pivot_combo_box.py:39-42 | disabling a row that is not disabled keeps them in step and adds just that row |
| `Selection.ClearTidy` | cp/gui/pivot_combo_box.py:35-37 | enabling all items leaves none disabled |
| `Selection.PropagateExclusive` | cp/__main__.py:397-409 | after a pick every other selector has given the previous item back and disabled the new one |
| `Selection.CreationExclusive` | cp/__main__.py:574-595 | a new value selector joins with the same items and everything taken disabled |
| `Selection.RemovalExclusive` | cp/__main__.py:560-567 | removing value selectors keeps exclusion among the rest, with their items still taken |
| `Selection.ActivateExclusive` | cp/__main__.py:397-409 | one activation with a fresh previous index keeps exclusion |
| `Selection.RemovalChoices` | cp/__main__.py:560-567 | what is still chosen after a removal |
| `Selection.PickChoices` | cp/__main__.py:554-595 | what a pick leaves chosen: the old item goes, the new comes, deeper values go with their selectors |
| `Selection.ClearExclusive` | cp/__main__.py:411-418 | clearing gives every item back |
| `Selection.ActExclusive` | cp/__main__.py:397-418 | any action keeps: taken items are the choices plus those lost with removed selectors |
| `Selection.RunExclusive` | cp/__main__.py:397-418 | so does any run of mouse picks and clears |
| `Selection.GreyedExactly` | cp/__main__.py:397-418 | in every reachable state an item is greyed out in a selector exactly when another selector holds it or it was lost with a removed one |
| `Selection.GreyedByChoiceExactly` | cp/__main__.py:397-418 | items are greyed out for no other reason than being chosen elsewhere exactly as long as nothing was lost |
| `Selection.LossIsReachable` | cp/__main__.py:554-567 | three mouse picks after which an item is greyed out everywhere and held nowhere |
| `Selection.ChoicesDistinct` | cp/__main__.py:397-418 | no two selectors ever hold the same item, and what one holds is greyed out in every other |
| `Selection.StaleActivationExactly` | cp/gui/pivot_combo_box.py:44-49 | an activation with any previous index keeps exclusion if and only if no remaining selector holds the item the stale index names |
| `Selection.StaleActivationIsReachable` | cp/gui/pivot_combo_box.py:44-49 | three mouse picks and one keyboard activation break exclusion |
| `Selection.AxisAccepted` | cp/__main__.py:748-764 | choices are accepted exactly when no selector is set behind an empty one |
| `Selection.AxisChoices` | cp/__main__.py:765-769 | accepted choices are those of the leading selectors, in order |
| `Selection.WindowDimensions` | cp/__main__.py:735-771 | in every exclusive state the dimensions read are pairwise different |
| `Selection.DimensionsDistinct` | cp/__main__.py:735-771 | in every reachable state all rows, columns and values handed to the pivot engine are pairwise different |
| `SelectorLevels.ActivateGrows` | cp/__main__.py:570-595 | choosing an item in a value selector adds one selector exactly when a press found it empty: one level below, empty, never pressed, with the same items; otherwise roles, levels and length stay |
| `SelectorLevels.PickGrows` | cp/__main__.py:570-595 | a mouse pick of an item in a value selector adds one exactly when that selector was empty |
| `SelectorLevels.FixedPick` | cp/__main__.py:397-409 | a pick in a row or column selector adds and removes none |
| `SelectorLevels.EmptyingCuts` | cp/__main__.py:555-567 | emptying a value selector of the chain leaves exactly those up to it |
| `SelectorLevels.ChainStep` | cp/__main__.py:554-595 | every pick keeps the chain of value selectors |
| `SelectorLevels.ChainRun` | cp/__main__.py:554-595 | in every run without a clear the value selectors have levels 0, 1, 2, ... in order; all but the last are set, and the last is empty |
| `SelectorLevels.ClearChainExactly` | cp/__main__.py:411-418 | clearing keeps all selectors and empties them, so the chain survives exactly when there was one value selector |
| `SelectorLevels.TwoOfOneLevel` | cp/__main__.py:411-418 | choosing, clearing and choosing again makes two value selectors of level 1 |
| `SelectorLevels.PlacedRun` | cp/__main__.py:547-635 | in every run the selectors keep their roles and levels |
| `SelectorLevels.EnabledExactly` | cp/__main__.py:397-418 | in every run a row or column selector can be used exactly when it is the first of its axis or the one before it is set |
| `SelectorLevels.WindowRead` | cp/__main__.py:735-771 | choices are accepted exactly when the first value selector is set and none is set behind an empty one of its kind; rows come from the row selectors and columns from the column selectors, level by level, values from the value selectors |
| `SelectorLevels.DimensionsRead` | cp/__main__.py:735-771 | this holds in every run |
| `Selectors.PivotComboBox.constructor` | cp/gui/pivot_combo_box.py:11-19 | a new selector has the empty item only |
| `Selectors.PivotComboBox.EnableItem` | cp/gui/pivot_combo_box.py:28-33 | as in `Selection`, in place |
| `Selectors.PivotComboBox.EnableAllItems` | cp/gui/pivot_combo_box.py:35-37 | the loop over all rows |
| `Selectors.PivotComboBox.DisableItem` | cp/gui/pivot_combo_box.py:39-42 | flag and list together |
| `Selectors.PivotComboBox.MousePress` | cp/gui/pivot_combo_box.py:44-46 | remembers the index held before |
| `Selectors.PivotComboBox.Follow` | cp/__main__.py:401-409 | what one other selector does when a choice is propagated |
| `Selectors.PivotComboBox.ClearChoice` | cp/__main__.py:412-418 | what clearing does to one selector |
| `Selectors.RemainingIsKept` | cp/__main__.py:560-567 | collecting the deeper selectors in a set and removing each from the list leaves those up to the level, in order |
| `Selectors.MainWindow.PropagateComboBoxChange` | cp/__main__.py:397-409 | changes all selectors but the source, whatever the order of the set |
| `Selectors.MainWindow.CopyItems` | cp/__main__.py:583-587 | inserting backwards at position 1 keeps every item at its position |
| `Selectors.MainWindow.CreateCombo` | cp/__main__.py:574-590 | the new selector has the source's items, disabled rows and the fresh choice disabled |
| `Selectors.MainWindow.AddCombo` | cp/__main__.py:570-595 | the window gets the new selector at the end of the list |
| `Selectors.MainWindow.Deeper` | cp/__main__.py:560-565 | collects exactly the deeper value selectors |
| `Selectors.MainWindow.Remove` | cp/__main__.py:566-567 | takes them off the list, in any order |
| `Selectors.MainWindow.DeleteDeeper` | cp/__main__.py:555-567 | leaves the value selectors up to the level |
| `Selectors.MainWindow.OnDisplayedValueComboActivated` | cp/__main__.py:554-595 | deletes on the empty choice, creates on a first one, and does nothing else |
| `Selectors.MainWindow.Activated` | cp/__main__.py:578-581 | propagation, then creation or deletion |
| `Selectors.MainWindow.ClearComboChoices` | cp/__main__.py:411-418 | clears all selectors and enables those up to level 1 |
| `Selectors.MainWindow.Press` | cp/gui/pivot_combo_box.py:44-46 | a press changes one selector's previous index |
| `Selectors.MainWindow.ReadChoices` | cp/__main__.py:748-769 | one axis of `_getComboChoices`, errors included |
| `Selectors.MainWindow.GetComboChoices` | cp/__main__.py:735-771 | rows, columns and values in the window's order, or the error message |
| `Selectors.PerformOne` | cp/__main__.py:397-418 | one user action in place is one step of `Selection`; it is refused exactly when its item is not offered |
| `Selectors.Perform` | cp/__main__.py:397-418 | a whole run of user actions on the window ends in the state `Selection` computes, and is refused exactly when `Selection` refuses it |

## Left out

- Machine widths of counters: counts, file positions and ids are unbounded; the 32-bit window positions of the disassembler and the unsigned subtraction in `IsPoint` are modelled.
- Pin, XED, pandas and Qt are represented by what they promise: a decoder with at most one instruction length per position, any order `std::sort` may return, outer joins on all common columns, group-and-sum, one `activated` signal calling its handlers in the order they were connected.
- `pin/insmix.cpp`: `KnobNoSharedLibs`, predicated counts, static counts, output formatting (a section's heading prints its routine's name and its address in the table), the second output file, and a second `Fini` through the system call hook; the null marker is kept in a local copy of the list.
- Insmix.Insmix.Fini: takes the sorted list as an argument, any list `std::sort` may leave.
- Insmix.WholeRun: speaks of the first call of `Fini`; a second call would find totals already added.
- `pin/bbtrace.cpp`: image records, file handling, slice counts (always zero); the `multimap` is a sequence in key order with binary search.
- BlockTrace.ProfileRun: thread numbers are not reused after a thread has ended.
- InsCount.Profile: is stated for finished schedules, which `InsCount.CanFinish` shows to exist; thread numbers are 0 to n-1 and not reused.
- ClassNames.RoundTrip: names that are printed without arguments but contain a parenthesis are outside its domain, since a name is cut at its last one; a list with inner parentheses is covered by counting all up to the last one to the member.
- ClassNames.PrefixCheckable: is stated for names without the recognised operator names; for all names the condition is that of `ClassNames.PrefixByPasses`. Likewise `ClassNames.RoundTripExactly`, `ClassNames.OperatorRoundTripExactly` and `ClassNames.BareOperatorExactly` beside their forms by passes.
- Disassembly.Disassemble: what the code does after the end of a window has wrapped (it starts over, or reads past the input) is not modelled further.
- Disassembly.TableOfBlock: is stated for the inputs on which the window does not wrap.
- Disassembly.GetInstLists: operand columns are not modelled, and reading a block from a file and its symbol are parameters; the simpler `get_disassembly_for_basic_blocks` has the same loops.
- Tables.Merge: takes the tables after `reset_index`, so a table's columns include its index.
- Tables.ApplyFilters: filter values are numbers and the query text is not parsed; a comparison with a missing value or a text holds for `!=` only.
- Query.Pivot: aggregates with `sum`, the default; the order a dictionary yields its keys in is a parameter that depends on the order they were put in, the order of groups one that depends on the groups; `pivot_table` of a table without matching rows is an empty table.
- Query.AnswerConserves: is stated without missing data; with missing keys the rows without a group are left out, as `Grouping.PivotConserves` says.
- Query.QueryTotalExactly: is stated for tables that are a star, a value column that is in its own table only, and numbers that are not negative; `JoinTotals.JoinWeighted` says what any single join does to a sum.
- Selection.GreyedExactly: all files are loaded before the first choice; loading later shifts item positions. Project loading and transposing are left out, and a run may pick in selectors that are not enabled, which the window would not let happen.
- `cp/elf/elffile.py`, `cp/demangle`, `cp/symcollector`, `snippets/xed-ex2.cpp` and the `bbcount` examples are not part of this model: lookups into other libraries, interfaces, or duplicates of loops modelled here.
