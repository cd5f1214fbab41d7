# Verified models of the bundled libraries

This project models five pieces of code the interpreter ships with and proves what they are for. It is
self-contained: `dafny verify dfyconfig.toml` checks all of it.

| files | what they model |
|---|---|
| `Words`, `RobinHood*` | `robin_hood::detail::Table`, the hash map: one byte per slot packs probe distance and hash bits |
| `Pool*` | `robin_hood::detail::BulkPoolAllocator`, the free-list allocator of the node map |
| `Inja*` | the inja template engine: parser with back-patched jumps, peephole merge, and the bytecode interpreter |
| `Xml*` | tinyxml2 in compact mode: escaping, the printer, in-place decoding, and the recursive-descent parser |
| `Socket*` | uSockets: the intrusive socket lists of an event loop and the timeout sweep that walks them |
| `ThreadPool`, `Chunked*` | httplib: the thread pool as a protocol of steps, and the chunked transfer coding (section 4.1 of RFC 7230) |

Code that updates objects is modelled by classes and methods that update fields and arrays; each method is
proved against a function of the old state, and the results below are proved about those functions.

## Main results

**Hash map.** `RobinHoodRuns.Run`: any sequence of insert, `operator[]`, erase, clear and reserve leaves the table
equal to a plain map given the same sequence, until an operation raises the overflow exception, and then what the
table looked like before says why (`StepEnd`). The retry loop around `increase_size` always ends (`DoInsert`). No info
byte overflows, and no probe, shift or search leaves the padded arrays. One promise of the source is false, and its
exact condition is proved. A comment says that `insert_move` cannot overflow while the table grows. `DoublingLoses` is
a counterexample by public operations on a table with the default load factor: reserve 300 entries, insert 253 keys
with chosen hashes, insert one more; the table doubles, raises the exception half-way and entries are gone.
`RehashPowerOfTwo` says when: if and only if the keys, without the one in the last occupied slot, have too many homes
too close together at the new size (`Crowded`). `FullIffCrowded` shows that an info byte is full at the last scale
exactly when the set of stored keys is crowded, whatever the order they came in. So in a tight table, where insertion
is off only while some byte is full (erase and clear can end that), an insertion succeeds if and only if the keys are
not crowded at the size the table ends up with (`InsertEnd`), and the table grows only at capacity or for crowded keys
(`GrowsOnlyWhen`). For whole runs: from a table that is open, such as a new one, a run in which the stored keys are at
no point crowded, at any size that may hold them, is completed if and only if no reserve asks for more than 64 bits
allow (`Completed`). Keys with consecutive hash values, however many, meet that condition (`RowNeverCrowded`,
`CountingCompleted`), and so do fewer than 127 keys with any (`FewCompleted`). `clear` does not switch insertion back
on when it was switched off; the next insert then rescales or grows.

**Pool.** In every history the slots handed out and the free list are disjoint and together exactly all carved
slots (`PoolLayout.Inv`, kept by every method of `Pool`). Slots overlap neither each other nor a block's link word.
Stores are modelled by the bytes they overwrite, so list integrity depends on that. No slot is handed
out twice without coming back in between (`ReturnedBetween`).

**Templates.** `RenderTemplate`: for every properly nested tree of text, prints, if / else-if / else and for loops,
parsing its tokens and running the bytecode gives the same output as interpreting the tree directly, and fails
exactly when that fails. Builtins, callbacks, lookup and printing of values are arbitrary partial functions.
The proof goes through back-patching (`TemplateParses`), the peephole merge (`ExprRuns`) and the in-place reuse of
loop scopes (`UpdateAgain`); `TargetsInside` adds that all jump targets are statement boundaries. `InjaLaws` says what
the direct interpretation writes, by values: which branch runs (`IfTakes`, `JumpTakes`), the truth tables of the
operators, what a loop body sees (`ItemData`, `ParentData`) and in which order it runs (`ArrayLoop`, `ObjectLoop`).
Conditions follow the code: `truthy` asks `empty()` of strings too, and nlohmann's `empty()` is false of every string,
so even an empty string is true; a non-empty array or object as a condition is an error. That only properly nested
templates are accepted is false: `InjaNesting.AcceptedExactly` says that ifs and loops are checked separately, and
`OverlapAccepted` is an if and a loop that overlap.

**XML.** `DocumentRoundTrip`: for every document whose texts, names and attributes are valid, printing in compact
mode and parsing gives the same tree exactly when its nesting is below the limit. The in-place decoder and the
run-flushing printer are proved separately (`GetStr`, `PrintString`); `PrintedReadsBack` shows that printing is
lossless if and only if the last run of unescaped characters is at most `INT_MAX` long, because only the final
flush truncates. `Parse` agrees with the grammar on every input. What the grammar accepts is stated by a machine
that keeps the open elements on a stack: `DocumentRead` says that every text made of tags, marked nodes and character
data, in any spelling, parses to what the machine builds and is refused exactly when the machine refuses, and
`XmlSplitting.AcceptedExactly` that every accepted text is of that kind, so the machine decides for all texts. An
end tag with the wrong name or an attribute twice is an error in front of any text (`EndTagDecides`,
`RepeatedAttribute`), a missing end tag is one too (`NoEndTag`). `XmlLaws` says what references, line ends and entities stand for. That unknown
entities are kept is false: the branch for them moves both cursors but copies nothing. `UnknownKept` says exactly when
they are, and in `UnknownLost` an ampersand is read as a letter. A comment in `ParseAttributes` says duplicate
attributes are not detected; the code before it does detect them, and the model follows the code.

**Sockets.** Callbacks are arbitrary sequences of close, listen-close, adopt, open and set-timeout, on any sockets.
Whatever they do, every socket is in exactly one list, `on_close` is called at most once, and each closed socket is
freed exactly once. A pass of the sweep ends, and memory after each of its turns is memory before it with that turn
applied (`Traced`). It visits a socket present at its start if and only if that has not been unlinked before its turn,
none twice and none that was linked during the pass (`SweepContext` with `VisitedOnce`). Over several contexts "none
twice" is false: `VisitedTwice` has a callback adopt its socket into a context swept later. `VisitedAgain` says
exactly when: a socket visited in one pass is visited in a later one if and only if a callback in between links it
into that context, it is still there when that pass begins, and it is not unlinked before its turn. `SocketEffects`
states operations, turns and passes without pointers; `FiresInTime`: while callbacks do nothing, a socket whose counter
is t fires in the t-th pass over its context and in no other.

**Thread pool.** Steps are the points where a thread can be interrupted, with spurious wake-ups. Jobs submitted and
jobs executed are read off the steps of a run. `RunKeeps`, `JobsConserved`, `NoDeadlock`, `ShutdownBounded`, and
`ShutdownRunsAll`: when shutdown returns every submitted job has been executed exactly once, if and only if there is a
worker or nothing was submitted. Such runs exist for all jobs and any number of workers (`RunExists`).

**Chunked coding.** `RoundTrip` and `Transfer`: for every sequence of writes and ends, and every pattern of short
reads and writes, the reader returns the data before the first empty write or end marker; if a call of a transport
fails or the receiver refuses, a prefix of it. An empty write emits a chunk of size zero, which is the end marker, so
all data comes back if and only if no empty write comes before data (`AllWritesDecode`). `MessageRead` covers messages
of any sender: whatever the spelling of the sizes (either case, leading zeros, extensions) the data comes back, and the
message is accepted if and only if the line after the last size is empty, so one with trailers is rejected.
`ReadContentChunked` and `BrokenRead` cover malformed input: a wrong line end after a chunk's data makes the reader
report success there.

## Model

| member | source | states |
|---|---|---|
| `Words.AndMask` | libs/include/robin_hood.h:1277 | a key's slot is its hash masked with `mMask`, which for a power of two is the remainder |
| `Words.HalvePacked` | libs/include/robin_hood.h:2139-2143 | shifting a packed 8-byte word right once and masking each byte's top bit halves all bytes separately, for any bytes |
| `Words.FirstNonZeroByte` | libs/include/robin_hood.h:1240-1253 | trailing zero bits divided by 8 give the index of the first non-zero byte of a little-endian word |
| `RobinHoodLayout.ProbeClosedForm` | libs/include/robin_hood.h:1266-1284 | the info value a probe carries at a slot is `inc * (1 + distance) + hash bits` |
| `RobinHoodLayout.StopMeansAbsent` | libs/include/robin_hood.h:1337-1360 | in any table that keeps the ordering invariant, a key cannot be stored at or after the first slot whose info is below the probe's |
| `RobinHoodLayout.RunEnds` | libs/include/robin_hood.h:1902-1921 | a table below its load bound has an empty slot between any home and the sentinel, so the search for one ends inside the overflow buffer |
| `RobinHoodLayout.FarSlotEmpty` | libs/include/robin_hood.h:1918-1921 | overflow slots 126 and more past the buckets stay empty: an info byte cannot hold such a distance |
| `RobinHoodLayout.InsertKeepsInv` | libs/include/robin_hood.h:1294-1312 | shifting a run up and writing the new entry in front of it keeps order, uniqueness and info bytes, and adds exactly that entry |
| `RobinHoodLayout.EraseKeepsInv` | libs/include/robin_hood.h:1314-1332 | shifting the displaced run down over an entry keeps order, uniqueness and info bytes, and removes exactly that entry |
| `RobinHoodLayout.HalveKeepsInv` | libs/include/robin_hood.h:2123-2149 | halving every info byte gives a valid table at the next scale with the same nodes in the same slots |
| `RobinHoodHashing.DoublingAllowsMore` | libs/include/robin_hood.h:1902-1909 | a table of twice the buckets may hold strictly more, across both ways of computing the bound |
| `RobinHoodHashing.LoadFactor` | libs/include/robin_hood.h:1902-1909 | the capacity never exceeds the load factor; it is the largest such number as long as a hundred times the buckets fit in 64 bits, and less than `maxLoad` entries short of it otherwise |
| `RobinHoodCrowding.FullIffCrowded` | libs/include/robin_hood.h:1305-1311 | an info byte has no room left at the last scale if and only if the keys alone, whatever the order they came in, crowd a stretch of homes |
| `RobinHoodCrowding.FarIsCrowded` | libs/include/robin_hood.h:1386-1390 | an entry far from its home proves that many keys have homes close together |
| `RobinHoodCrowding.CrowdedIsFar` | libs/include/robin_hood.h:1386-1390 | keys with homes that close together force some entry that far from its home, in every valid table holding them |
| `RobinHoodTable.Table.KeyToIdx` | libs/include/robin_hood.h:1266-1278 | home slot and initial info of a key |
| `RobinHoodTable.Table.NextWhileLess` | libs/include/robin_hood.h:1281-1291 | skips exactly slots that cannot hold the key |
| `RobinHoodTable.Table.Locate` | libs/include/robin_hood.h:2075-2087 | the insertion probe finds the key's slot if and only if the key is stored; otherwise it stops at the slot where the key belongs |
| `RobinHoodTable.Table.ProbeLoop` | libs/include/robin_hood.h:1342-1355 | the twice unrolled loop finds the key if and only if it is stored, reading no byte past the padding |
| `RobinHoodTable.Table.FindIdx` | libs/include/robin_hood.h:1337-1360 | returns the slot of a stored key, `end()` for any other |
| `RobinHoodTable.Table.ShiftNodesUp` | libs/include/robin_hood.h:1294-1302 | moves the nodes of a run up one slot, in place, and no others |
| `RobinHoodTable.Table.ShiftInfoUp` | libs/include/robin_hood.h:1303-1312 | adds one step of distance to the run's bytes without overflow, and switches insertion off exactly when one of them is full afterwards |
| `RobinHoodTable.Table.FindEmpty` | libs/include/robin_hood.h:1392-1395 | the empty-slot search stops before the sentinel, at the end of the run |
| `RobinHoodTable.Table.PlaceAt` | libs/include/robin_hood.h:1386-1409 | inserts the new entry at its place and keeps every table invariant, including the bound on all info bytes |
| `RobinHoodTable.Table.HalveWord` | libs/include/robin_hood.h:2139-2143 | the 8-byte load, shift, mask and store halves those 8 bytes |
| `RobinHoodTable.Table.HalveInfo` | libs/include/robin_hood.h:2132-2147 | every slot's byte is halved, sentinel and padding are as before, although the last word reaches into them |
| `RobinHoodTable.Table.TryIncreaseInfo` | libs/include/robin_hood.h:2123-2149 | fails exactly at the last scale and then changes nothing; otherwise the map is unchanged and every byte has room again |
| `RobinHoodTable.Table.InsertMove` | libs/include/robin_hood.h:1368-1410 | inserts a new entry, and fails if and only if insertion is switched off at the last scale |
| `RobinHoodTable.Table.MoveAll` | libs/include/robin_hood.h:1971-1978 | moving all entries succeeds if and only if the keys but the last are not crowded at the new size; a failure leaves strictly fewer entries |
| `RobinHoodTable.Table.RehashPowerOfTwo` | libs/include/robin_hood.h:1961-1983 | keeps exactly the same map, or, exactly when the keys but the last are crowded at the new size, raises overflow with entries already lost |
| `RobinHoodTable.Table.InitData` | libs/include/robin_hood.h:1993-2010 | empty table with fresh arrays, sentinel and initial scale |
| `RobinHoodTable.Table.IncreaseSize` | libs/include/robin_hood.h:2151-2173 | says exactly when it rescales, refuses or doubles, and, for doubling, that entries are lost exactly when the keys but the last are crowded at twice the size; keeps the map otherwise; each success lowers the measure of the retry loop |
| `RobinHoodTable.Table.DoInsert` | libs/include/robin_hood.h:2071-2121 | the retry loop ends for every table and key: finds, inserts, or raises overflow, with the resulting map and slot; a stored key never fails; for a new key the outcome and the size are read off the table before, and in a tight table it is inserted if and only if the stored keys are not crowded at the size the table ends up with |
| `RobinHoodTable.Table.SetAt` | libs/include/robin_hood.h:2013-2067 | `table[key] = value` equals map update, and ends exactly as inserting the key does |
| `RobinHoodGrowth.RoomIff` | libs/include/robin_hood.h:2092-2095 | a tight table has room for another entry if and only if it is below its capacity and its keys are not crowded |
| `RobinHoodGrowth.GrowsOnlyWhen` | libs/include/robin_hood.h:2151-2173 | a tight table grows only at its first allocation, at capacity or for crowded keys, and refuses only crowded keys |
| `RobinHoodGrowth.EndsAtTwice` | libs/include/robin_hood.h:2151-2173 | for a table that has to double, which of success, loss and refusal at twice the size it is, each if and only if a condition on its keys before |
| `RobinHoodGrowth.PlanEnds` | libs/include/robin_hood.h:2071-2121 | how an insertion into an allocated table ends, and at which size up to twice its own, by what the table looked like before the first round |
| `RobinHoodTable.Table.ShiftDown` | libs/include/robin_hood.h:1314-1332 | moves exactly the maximal displaced run down, in place |
| `RobinHoodTable.Table.Erase` | libs/include/robin_hood.h:1829-1847 | removes the key's entry and says whether there was one |
| `RobinHoodTable.Table.Clear` | libs/include/robin_hood.h:1583-1601 | empties the table; the insertion bound stays switched off if it was |
| `RobinHoodTable.Table.SizeFor` | libs/include/robin_hood.h:1857-1866 | the smallest power of two from 8 on that holds `c` entries; 0, from 64-bit wrap-around, exactly when none does |
| `RobinHoodTable.Table.Reserve` | libs/include/robin_hood.h:1857-1869 | refused exactly when no 64-bit size holds `c` entries and the present ones; otherwise moves to the smallest that does, and loses entries exactly when the keys but the last are crowded there |
| `RobinHoodTable.Table.FastForward` | libs/include/robin_hood.h:1240-1253 | the first occupied slot from `i` on, a word at a time, never reading outside the padded array |
| `RobinHoodTable.Table.Iterate` | libs/include/robin_hood.h:1207-1253 | visits every occupied slot once, in order, stops at the sentinel, and sees exactly the map |
| `RobinHoodRuns.Step` | libs/include/robin_hood.h:1829-2121 | each operation does to the table what it does to a plain map; erase and clear never fail, a stored key never fails, reserve fails exactly when no size holds, and a failed insertion or reserve says why by the table before it |
| `RobinHoodRuns.OpenStep` | libs/include/robin_hood.h:1829-2121 | in an open table whose keys are not crowded at any size that may hold them, an operation succeeds if and only if it does not ask for an impossible size; the table stays open, also through erase and clear |
| `RobinHoodRuns.FewNeverCrowded` | libs/include/robin_hood.h:1305-1311 | fewer than 127 keys are not crowded at any size, whatever their hash values |
| `RobinHoodRuns.RowNeverCrowded` | libs/include/robin_hood.h:1305-1311 | any number of keys whose hash values are consecutive is not crowded at any size that may hold them |
| `RobinHoodRuns.Run` | libs/include/robin_hood.h:1294-2121 | any sequence of operations keeps the table equal to the plain map given the same sequence, up to the operation that raised overflow, with what the table looked like before each of them; from an open table, with keys at no point crowded at a size that may hold them, it is completed if and only if no reserve asks for an impossible size |
| `RobinHoodRuns.Completed` | libs/include/robin_hood.h:1294-2121 | from an open table, a run in which the stored keys are at no point crowded at a size that may hold them is completed if and only if no reserve asks for an impossible size; the number of keys is not limited |
| `RobinHoodRuns.FewCompleted` | libs/include/robin_hood.h:1294-2121 | a run from an open table that never stores 127 keys or more is completed if and only if no reserve asks for an impossible size |
| `RobinHoodRuns.CountingCompleted` | libs/include/robin_hood.h:1294-2121 | any number of keys with hash values 0, 1, 2 and so on is inserted into an empty open table without overflow |
| `RobinHoodOverflow.InsertFits` | libs/include/robin_hood.h:2071-2121 | inserting one of the keys that fit succeeds and keeps the table at its size |
| `RobinHoodOverflow.InsertTooMany` | libs/include/robin_hood.h:2151-2173 | the next insertion doubles the table, raises overflow and loses entries |
| `RobinHoodOverflow.NoLargerTable` | libs/include/robin_hood.h:1902-1921 | no valid table of twice the size or more can hold these keys |
| `RobinHoodOverflow.DoublingLoses` | libs/include/robin_hood.h:1368-1373 | from an empty table, by public operations only, the exception the source marks unreachable is reached and entries are gone |
| `PoolLayout.SlotInBlock` | libs/include/robin_hood.h:453-479 | every carved slot lies inside its block, after the link word |
| `PoolLayout.SlotsApart` | libs/include/robin_hood.h:453-479 | no two slots of the pool overlap |
| `PoolLayout.LinkApart` | libs/include/robin_hood.h:453-479 | no slot overlaps the link word of any block |
| `PoolLayout.StoreKeeps` | libs/include/robin_hood.h:396-404 | whatever the owner of a slot writes into it, both lists stay intact |
| `PoolLayout.AddKeeps` | libs/include/robin_hood.h:452-479 | threading a new block in front of both lists keeps the invariant |
| `PoolLayout.ReturnedBetween` | libs/include/robin_hood.h:396-413 | in every history of the pool, a slot handed out twice came back in between |
| `PoolLayout.GrowDoubles` | libs/include/robin_hood.h:439-450 | block sizes double once per block there is, up to the maximum |
| `PoolAllocator.Pool.constructor` | libs/include/robin_hood.h:349-354 | an empty pool |
| `PoolAllocator.Pool.Allocate` | libs/include/robin_hood.h:396-404 | hands out a slot that is not out, from the free list or from a new block; a failed malloc changes nothing |
| `PoolAllocator.Pool.PerformAllocation` | libs/include/robin_hood.h:483-491 | asks malloc for the computed size and adds that block |
| `PoolAllocator.Pool.CalcNumElementsToAlloc` | libs/include/robin_hood.h:439-450 | walks the block list to compute the next block's size |
| `PoolAllocator.Pool.Add` | libs/include/robin_hood.h:452-479 | carves as many slots as fit, links the block, keeps live and free slots a partition of all slots |
| `PoolAllocator.Pool.Deallocate` | libs/include/robin_hood.h:410-413 | takes a slot back as the head of the free list |
| `PoolAllocator.Pool.AddOrFree` | libs/include/robin_hood.h:418-426 | uses foreign memory if one slot fits, frees it otherwise |
| `PoolAllocator.Pool.Write` | libs/include/robin_hood.h:393-396 | writes into a handed-out slot keep the pool valid |
| `PoolAllocator.Pool.Reset` | libs/include/robin_hood.h:384-391 | frees every block exactly once, reading each link before its block is gone, and nothing else |
| `InjaParser.MergedFunction` | libs/include/inja.hpp:2702-2715 | merging an operator into the last instruction gives the operator's code, whatever precedes it |
| `InjaParser.MergedCallback` | libs/include/inja.hpp:2717-2733 | the same for callbacks, which only merge with immediate values |
| `InjaParser.Parser.AppendFunction` | libs/include/inja.hpp:2702-2715 | appends or merges, in place |
| `InjaParser.Parser.AppendCallback` | libs/include/inja.hpp:2717-2733 | appends or merges, in place |
| `InjaParser.Parser.ParseExpression` | libs/include/inja.hpp:2365-2563 | emits exactly the code of a given expression tree, after what is there |
| `InjaParser.Parser.ParseArguments` | libs/include/inja.hpp:2454-2473 | emits the arguments from left to right and counts them |
| `InjaParser.Parser.ParseIf` | libs/include/inja.hpp:2568-2578 | opens an if with a jump to be filled in |
| `InjaParser.Parser.ParseElse` | libs/include/inja.hpp:2598-2611 | ends a body with a jump and fills in the pending condition; a second else writes out of range |
| `InjaParser.Parser.ParseElseIf` | libs/include/inja.hpp:2613-2625 | the condition of a chained else-if |
| `InjaParser.Parser.ParseEndIf` | libs/include/inja.hpp:2579-2597 | fills in the pending condition and all jumps of the if |
| `InjaParser.Parser.ParseFor` | libs/include/inja.hpp:2626-2658 | opens a loop |
| `InjaParser.Parser.ParseEndFor` | libs/include/inja.hpp:2659-2670 | closes a loop and fills in both ends |
| `InjaParser.Parser.ParseInto` | libs/include/inja.hpp:2735-2786 | the whole token loop, with its mismatch errors |
| `InjaLayout.TemplateParses` | libs/include/inja.hpp:2565-2670 | for every properly nested template, back-patching ends in the code with final addresses and nothing left open |
| `InjaLayout.ParseTemplate` | libs/include/inja.hpp:2788-2793 | the parser object produces that code |
| `InjaTargets.TargetsInside` | libs/include/inja.hpp:2574-2669 | every jump and loop target of compiled code is the boundary of a statement inside the code |
| `InjaSimulation.ExprRuns` | libs/include/inja.hpp:2365-2429 | the code of any expression leaves the old stack plus exactly its value, or fails exactly when evaluation fails |
| `InjaSimulation.MergedRuns` | libs/include/inja.hpp:2954-2985 | an instruction with a merged last argument sees its arguments in source order |
| `InjaSimulation.PoppedRuns` | libs/include/inja.hpp:2954-2985 | the same with all arguments on the stack |
| `InjaCorrectness.UpdateAgain` | libs/include/inja.hpp:3035-3049 | overwriting the loop variables of the previous iteration in place gives what a fresh scope would |
| `InjaCorrectness.LevelRuns` | libs/include/inja.hpp:3457-3488 | a loop in progress runs the body for all remaining items and then leaves |
| `InjaCorrectness.StmtRuns` | libs/include/inja.hpp:3102-3488 | each statement's code does what the statement means |
| `InjaCorrectness.TemplateRenders` | libs/include/inja.hpp:3092-3493 | running compiled code ends with both stacks empty and the output of the direct interpretation, or fails exactly when that fails, with the same output |
| `InjaRenderer.Renderer.GetArgs` | libs/include/inja.hpp:2954-2975 | arguments in order, the immediate one last |
| `InjaRenderer.Renderer.PopArgs` | libs/include/inja.hpp:2977-2985 | pops exactly the stacked arguments |
| `InjaRenderer.Renderer.UpdateLoopData` | libs/include/inja.hpp:3035-3049 | writes the loop variables into the innermost level in place |
| `InjaRenderer.Renderer.ConditionalJump` | libs/include/inja.hpp:3395-3401 | jumps exactly on a false condition; which values are false is stated by `JumpTakes` |
| `InjaRenderer.Renderer.StartLoop` | libs/include/inja.hpp:3402-3456 | enters a loop or jumps past an empty one; the data pointer follows |
| `InjaRenderer.Renderer.EndLoop` | libs/include/inja.hpp:3457-3488 | next iteration, or leave and restore the enclosing data |
| `InjaRenderer.Renderer.Execute` | libs/include/inja.hpp:3098-3492 | one instruction of the machine |
| `InjaRenderer.Renderer.RenderTo` | libs/include/inja.hpp:3092-3496 | the interpreter loop computes the machine's end state |
| `InjaRenderer.RenderTemplate` | libs/include/inja.hpp:3092-3496 | parsing and rendering equals direct interpretation of the tree, for all data, callbacks and builtins; what the tree means is stated by the rows of `InjaLaws` |
| `InjaLaws.IfTakes` | libs/include/inja.hpp:3018-3033 | by the value of the condition, which branch of an if is rendered: false are null, zero, false and empty containers, errors are other containers, everything else is true |
| `InjaLaws.ChainTakes` | libs/include/inja.hpp:2598-2625 | the same for else-if and else |
| `InjaLaws.JumpTakes` | libs/include/inja.hpp:3395-3401 | the same for the instruction of the machine |
| `InjaLaws.NotOf` | libs/include/inja.hpp:3224-3229 | truth table of `not`, errors included |
| `InjaLaws.AndOf` | libs/include/inja.hpp:3230-3236 | truth table of `and`: the second operand matters only if the first is true |
| `InjaLaws.OrOf` | libs/include/inja.hpp:3237-3243 | truth table of `or`: the second operand matters only if the first is false |
| `InjaLaws.ArgumentsInOrder` | libs/include/inja.hpp:2954-2975 | functions and callbacks get the values of their arguments from left to right |
| `InjaLaws.VariableIs` | libs/include/inja.hpp:2988-3016 | a variable is looked up in the data first; only what is not there is a callback |
| `InjaLaws.PrintWrites` | libs/include/inja.hpp:3106-3115 | strings are printed as they are, other values as their dump |
| `InjaLaws.TextsWrite` | libs/include/inja.hpp:3102-3105 | text is written in the order it stands |
| `InjaLaws.FailureStops` | libs/include/inja.hpp:3092-3096 | what came before a failure is written, what comes after is not |
| `InjaLaws.ParentData` | libs/include/inja.hpp:3445-3450 | a nested loop finds the variables of the loop around it under `loop.parent`, and nothing else changes |
| `InjaLaws.ItemData` | libs/include/inja.hpp:3038-3044 | what the body sees in iteration i of n: the item, `loop.index` i, `index1` i + 1, `is_first`, `is_last`, and otherwise the data around the loop; when that is impossible |
| `InjaLaws.EntryData` | libs/include/inja.hpp:3045-3048 | what it sees for an entry of an object: key and value |
| `InjaLaws.ArrayLoop` | libs/include/inja.hpp:3402-3488 | a loop over an array renders its body once per item, in order, up to the first failure |
| `InjaLaws.ObjectLoop` | libs/include/inja.hpp:3402-3488 | a loop over an object renders its body once per entry, in the order of the keys |
| `InjaLaws.OtherLoops` | libs/include/inja.hpp:3403-3442 | a loop over nothing writes nothing; one over a value of the wrong kind fails |
| `InjaLaws.EntriesAll` | libs/include/inja.hpp:3428-3434 | every entry comes, each once, in increasing order of the keys |
| `InjaLaws.KeyOrder` | libs/include/inja.hpp:3432-3433 | the order of keys: at the first difference the smaller character decides, a prefix comes first |
| `InjaNesting.AcceptedExactly` | libs/include/inja.hpp:2565-2670 | the parser accepts a sequence of statements if and only if its ifs nest properly when the loops are left out and its loops nest properly when the ifs are left out |
| `InjaNesting.OverlapAccepted` | libs/include/inja.hpp:2579-2597 | so an if and a loop that overlap are accepted, although no template nests like that |
| `ThreadPool.InitialHolds` | libs/httplib/httplib.h:449-454 | the pool's invariant holds at the start |
| `ThreadPool.RunKeeps` | libs/httplib/httplib.h:447-515 | every interleaving of workers and listener keeps mutual exclusion, job conservation, first-in-first-out order and no lost wake-up |
| `ThreadPool.JobsConserved` | libs/httplib/httplib.h:459-463 | in every run, with the jobs submitted and the jobs executed read off its steps: each job is about to be queued, queued, held by a worker or executed exactly as often as it was submitted, and jobs leave the queue in the order they were submitted |
| `ThreadPool.OccursMultiset` | libs/httplib/httplib.h:509 | the counting used above is multiset multiplicity |
| `ThreadPool.QueueServed` | libs/httplib/httplib.h:484-502 | while jobs are queued and the listener is not inside the mutex, some worker can take a step |
| `ThreadPool.ShutdownRunsAll` | libs/httplib/httplib.h:465-478 | when shutdown returns, the jobs executed by the steps of the run are as a multiset the jobs submitted by them, if and only if there was a worker or no job |
| `ThreadPool.ShutdownBounded` | libs/httplib/httplib.h:472-478 | after the notification, no run is longer than a computed bound |
| `ThreadPool.NoDeadlock` | libs/httplib/httplib.h:465-502 | no reachable state before the end of shutdown is stuck: a step other than a new job or a spurious wake-up is possible |
| `ThreadPool.Recorded` | libs/httplib/httplib.h:459-463 | what the pool has recorded as enqueued and finished is what the steps of the run submitted and executed |
| `ThreadPool.EnqueueReturns` | libs/httplib/httplib.h:459-463 | from every state of the pool inside enqueue, some run of steps lets it return |
| `ThreadPool.ShutdownReturns` | libs/httplib/httplib.h:465-478 | from every state of the pool, some run of steps lets shutdown return without a new job |
| `ThreadPool.RunExists` | libs/httplib/httplib.h:447-515 | for every number of workers and all jobs there is a run that submits exactly these, in order, and shuts down |
| `ChunkedCoding.HexParses` | libs/httplib/httplib.h:1454-1462 | reading the hexadecimal digits of a number gives the number back |
| `ChunkedCoding.SizeLine` | libs/httplib/httplib.h:2473-2476 | the size line of a chunk reads back as the size, saturating like strtoul |
| `ChunkedCoding.ChunkDecodes` | libs/httplib/httplib.h:2470-2489 | one written chunk is read as its data followed by the rest |
| `ChunkedCoding.RoundTrip` | libs/httplib/httplib.h:2461-2498 | for every sequence of writes and ends, the reader returns the data before the first empty write or end, and asks for nothing beyond that |
| `ChunkedCoding.AllWritesDecode` | libs/httplib/httplib.h:2635-2659 | all written data comes back if and only if no empty write precedes data |
| `ChunkedSizes.DigitRead` | libs/httplib/httplib.h:2473 | the reader takes exactly the sixteen hexadecimal digits in both cases, each for its value |
| `ChunkedSizes.NumberRead` | libs/httplib/httplib.h:2473 | white space, a sign, a 0x prefix and any number of digits, leading zeros included, read as the positional value, saturated at 2^64 - 1; a negative one modulo 2^64 |
| `ChunkedSizes.NoNumber` | libs/httplib/httplib.h:2475 | a size line without a digit has no number |
| `ChunkedSizes.SizeLineRead` | libs/httplib/httplib.h:2470-2476 | a size in any spelling, with any chunk extension, reads as its value, and the line ends where it ends |
| `ChunkedSizes.MessageRead` | libs/httplib/httplib.h:2461-2498 | for every message of chunks whose sizes are spelled in any way, the reader returns exactly the data, and accepts the message if and only if the line after the last size is empty (so trailers are rejected); it reads no further |
| `ChunkedSizes.LastRead` | libs/httplib/httplib.h:2490-2498 | the same for the last chunk alone, with what is left unread |
| `ChunkedSizes.BrokenRead` | libs/httplib/httplib.h:2480-2489 | a chunk cut short is passed on as far as it goes and the message rejected; a whole chunk not followed by an empty line ends the message, which is accepted unless nothing follows at all |
| `ChunkedSizes.UnsizedRead` | libs/httplib/httplib.h:2475 | a size line without a number is an error |
| `ChunkedSizes.HexSpells` | libs/httplib/httplib.h:1454-1462 | the writer spells a size in lower-case digits without leading zeros |
| `ChunkedStreams.FromIToHex` | libs/httplib/httplib.h:1454-1462 | the digit loop computes the hexadecimal representation |
| `ChunkedStreams.WriteData` | libs/httplib/httplib.h:2587-2595 | writes everything through short writes, or a prefix up to the first call that fails; a call fails exactly where the transport is told to |
| `ChunkedStreams.ChunkedSink.Write` | libs/httplib/httplib.h:2635-2648 | sends one chunk while the writer is in order, nothing afterwards; with the calls of the transport that were used up |
| `ChunkedStreams.ChunkedSink.Done` | libs/httplib/httplib.h:2649-2659 | sends the end marker while the writer is in order, and stops the provider |
| `ChunkedStreams.WriteContentChunked` | libs/httplib/httplib.h:2625-2668 | the stream gets exactly the encoding of what the provider did, and its length is returned; -1, with a prefix written, if and only if a call of the transport failed |
| `ChunkedStreams.LineReader.Append` | libs/httplib/httplib.h:1660-1671 | the 16-byte buffer and the growing one hold the line together |
| `ChunkedStreams.LineReader.GetLine` | libs/httplib/httplib.h:1633-1657 | reads one line byte by byte, whatever its length; false at the end of the input or at the first call that fails |
| `ChunkedStreams.ReadContentWithLength` | libs/httplib/httplib.h:2413-2433 | passes on exactly that many bytes through short reads, or a prefix; fails only at the end of input, at a call that fails, or at a receiver that refuses |
| `ChunkedStreams.ReadContentChunked` | libs/httplib/httplib.h:2461-2498 | the reader's loop computes the decoding of its input, for every input and every pattern of short reads; a failing call or a refusal leaves a prefix of it; what the decoding of a message is, is stated by `MessageRead`, `LastRead`, `BrokenRead` and `UnsizedRead` |
| `ChunkedStreams.Deliver` | libs/httplib/httplib.h:2461-2498 | any complete message, however its sizes are spelled, is delivered through every pattern of short reads; failing calls and refusals leave a prefix, with the end to blame |
| `ChunkedStreams.Transfer` | libs/httplib/httplib.h:2461-2668 | writer, transports and reader deliver exactly the data before the first empty write or end if no call fails and the receiver takes that much; a prefix of it in any case, with the end that gave up and, for a transport, its first failing call, which is among as many calls as there are bytes to move |
| `SocketLists.UnlinkKeeps` | libs/uSockets/context.c:47-66 | unlinking keeps all lists well formed and moves a sweep off the socket |
| `SocketLists.LinkKeeps` | libs/uSockets/context.c:68-77 | linking in front keeps all lists well formed and leaves a sweep where it is |
| `SocketLists.MarkKeeps` | libs/uSockets/socket.c:111-116 | an unlinked socket put on the closed list keeps memory and lists in agreement |
| `SocketLists.MoveKeeps` | libs/uSockets/context.c:233-237 | a socket that moves in memory keeps memory and lists in agreement |
| `SocketLoop.Loop.Unlink` | libs/uSockets/context.c:47-66 | the pointer updates of unlink |
| `SocketLoop.Loop.Link` | libs/uSockets/context.c:68-77 | the pointer updates of link |
| `SocketLoop.Loop.Close` | libs/uSockets/socket.c:99-121 | closes once: `on_close` is called exactly for a socket not closed before, and every socket stays in exactly one list |
| `SocketLoop.Loop.CloseListen` | libs/uSockets/context.c:29-45 | closes a listen socket without callback |
| `SocketLoop.Loop.Adopt` | libs/uSockets/context.c:220-240 | an open socket changes context, and maybe address; a closed one stays |
| `SocketLoop.Loop.Open` | libs/uSockets/context.c:68-77 | a new socket joins its context's list in front |
| `SocketLoop.Loop.SetTimeoutOf` | libs/uSockets/socket.c:38-45 | changes one counter and nothing else |
| `SocketLoop.Loop.FreeClosed` | libs/uSockets/loop.c:106-116 | frees each closed socket exactly once and no other |
| `SocketLoop.Loop.RunCallback` | libs/uSockets/loop.c:90-97 | memory after a callback is memory with its operations applied in turn, and exactly the sockets those take out of the list are no longer to be visited |
| `SocketLoop.Loop.VisitNext` | libs/uSockets/loop.c:89-100 | one turn: the counter is lowered, `on_timeout` fires exactly when it was one, its operations are applied, and the sweep goes on to the next socket that is still there; what a turn does to counters, contexts and closed sockets is stated by `TurnHasEffect` |
| `SocketLoop.Loop.SweepContext` | libs/uSockets/loop.c:82-103 | a whole pass ends, follows memory turn by turn, visits exactly the sockets of the list that were not unlinked before their turn, in order, and fires exactly for those whose counter was one then; `PassHasEffect` states it without pointers |
| `SocketSweep.VisitedOnce` | libs/uSockets/loop.c:82-103 | in a complete pass no socket is visited twice, none linked during the pass is visited, and one of the list is visited if and only if it had not been unlinked before its turn |
| `SocketSweep.QuietPass` | libs/uSockets/loop.c:82-103 | a pass whose callbacks do nothing visits the whole list; every counter in it that was positive is one more than the counter afterwards, all other sockets are as before; it fires, in list order, exactly for the sockets whose counter was one |
| `SocketEffects.OpEffect` | libs/uSockets/socket.c:38-121 | what close, listen-close, adopt, open and set-timeout do to a socket as seen from outside (context, counter, closed or not), without mentioning pointers |
| `SocketEffects.TurnHasEffect` | libs/uSockets/loop.c:89-100 | what one turn of the sweep does, in the same terms: a counter of one fires its callback, a positive one is lowered, zero stays |
| `SocketEffects.PassHasEffect` | libs/uSockets/loop.c:82-103 | whatever callbacks do, a pass is the turns of the visited sockets one after the other, and a socket fires if and only if its counter is one when its turn comes |
| `SocketEffects.CounterLeft` | libs/uSockets/loop.c:82-103 | after any number of passes over any contexts with callbacks that do nothing, a counter is down by the number of passes over its context, but not below zero |
| `SocketEffects.FiresInTime` | libs/uSockets/loop.c:82-103 | while callbacks do nothing, a socket whose counter is t > 0 fires in the t-th pass over its context and in no other; with counter zero it never fires |
| `SocketRounds.SweepAll` | libs/uSockets/loop.c:82-103 | the sweep over all contexts is one pass after the other, each over the whole list of its context, from the memory the one before left, to the end of that list |
| `SocketRounds.VisitedIff` | libs/uSockets/loop.c:82-103 | a pass of a sweep visits a socket if and only if that is open and in its context when the pass begins, and not unlinked before its turn |
| `SocketRounds.VisitedAgain` | libs/uSockets/loop.c:82-103 | a socket visited in one pass is visited in a later one if and only if a callback in between links it into that context, it is still there when that pass begins, and it is not unlinked before its turn |
| `SocketRounds.VisitedInOnePass` | libs/uSockets/loop.c:82-103 | a socket visited in one pass is not visited in a later one unless a callback in between links that socket into that context |
| `SocketRounds.VisitedTwice` | libs/uSockets/loop.c:82-103 | a callback that adopts its socket into a later context has it visited again in the same sweep |
| `XmlText.EscapeDecodes` | libs/tinyxml2.cpp:2564-2616 | reading escaped text gives the text, for every string without NUL and carriage return |
| `XmlText.EscapeNoEnd` | libs/tinyxml2.cpp:193-215 | escaped text contains no character at which reading would stop early |
| `XmlText.PlainDecodes` | libs/tinyxml2.cpp:267-365 | text without entity processing reads back unchanged |
| `XmlText.EscapeTaken` | libs/tinyxml2.cpp:267-365 | the same for decoding in place |
| `XmlLaws.EscapedIs` | libs/tinyxml2.cpp:129-135 | the printed text of each character: five entities in attributes, three of them in text, all others as they are |
| `XmlLaws.EntityDecodes` | libs/tinyxml2.cpp:327-340 | each of the five names reads as its character |
| `XmlLaws.LineEnds` | libs/tinyxml2.cpp:280-303 | carriage return and line feed, in either order or alone, read as one line feed; other characters stay |
| `XmlLaws.ReferenceDecodes` | libs/tinyxml2.cpp:456-551 | a decimal or hexadecimal reference below 2^32, in digits of either case and with any leading zeros, reads as its number in UTF-8 |
| `XmlLaws.Utf8Encodes` | libs/tinyxml2.cpp:403-453 | below 2^21 a number is encoded as section 3 of RFC 3629 says; beyond, nothing is written |
| `XmlLaws.NameCharacters` | libs/include/tinyxml2.h:571-591 | which characters start a name, go on with it, and are space |
| `XmlLaws.Markers` | libs/tinyxml2.cpp:2821-2863 | the text around comments, CDATA, declarations and unknown nodes |
| `XmlAmpersands.UnknownIs` | libs/tinyxml2.cpp:327-346 | an ampersand is unknown if and only if neither a number sign nor one of the five names with its semicolon follows |
| `XmlAmpersands.UnknownKept` | libs/tinyxml2.cpp:341-345 | unknown ampersands are read as ampersands if and only if one stands, each time, where the output has got to |
| `XmlAmpersands.UnknownLost` | libs/tinyxml2.cpp:341-345 | a text in which one is read as a letter |
| `XmlText.SmallRef` | libs/tinyxml2.cpp:456-551 | the shortest character references stand for values that fit where they stood |
| `XmlBuffer.GetStr` | libs/tinyxml2.cpp:267-365 | decodes in place: the write cursor never passes the read cursor, the bytes outside are untouched; the result for every text, including what an unknown entity leaves where the output has got to |
| `XmlBuffer.PrintString` | libs/tinyxml2.cpp:2564-2616 | the run-flushing loop prints the escaped string |
| `XmlBuffer.PrintedReadsBack` | libs/tinyxml2.cpp:2605-2612 | a printed string reads back as it was if and only if its last run is at most `INT_MAX` long |
| `XmlParser.SkipWhiteSpace` | libs/include/tinyxml2.h:553-564 | skips white space and nothing else |
| `XmlParser.ParseName` | libs/tinyxml2.cpp:218-238 | the end of the name at the cursor |
| `XmlParser.ParseText` | libs/tinyxml2.cpp:193-215 | the content before the first end marker |
| `XmlParser.ParseQuoted` | libs/tinyxml2.cpp:1385-1403 | equals sign, quote, value |
| `XmlParser.ParseOneAttribute` | libs/tinyxml2.cpp:1378-1403 | one attribute |
| `XmlParser.ParseTagEnd` | libs/tinyxml2.cpp:1885-1939 | attributes up to the end of the tag; a name that occurred is an error |
| `XmlParser.Identify` | libs/tinyxml2.cpp:678-745 | which kind of node stands at the cursor |
| `XmlParser.ParseUntil` | libs/tinyxml2.cpp:1169-1177 | comments, declarations, CDATA and unknown nodes last until their marker |
| `XmlParser.ParseTextAt` | libs/tinyxml2.cpp:1178-1193 | plain text keeps its leading white space and must be followed by a tag |
| `XmlParser.ParseElementAt` | libs/tinyxml2.cpp:1968-1993 | an element with its content, or an end tag for the level above; which end tags are accepted is stated by `DocumentRead` and `EndTagDecides` |
| `XmlParser.ParseDeep` | libs/tinyxml2.cpp:1010-1122 | the loop over a level agrees with the recursive definition of the grammar, nesting limit included |
| `XmlParser.Parse` | libs/tinyxml2.cpp:2450-2464 | the whole parser computes the recursive grammar, for every input; `AcceptedExactly` states what that grammar accepts |
| `XmlPrinter.Printer.OpenElement` | libs/tinyxml2.cpp:2631-2649 | start of a start tag |
| `XmlPrinter.Printer.PushAttribute` | libs/tinyxml2.cpp:2652-2660 | one attribute |
| `XmlPrinter.Printer.CloseElement` | libs/tinyxml2.cpp:2711-2736 | an end tag, or the short form if nothing came in between |
| `XmlPrinter.Printer.PushText` | libs/tinyxml2.cpp:2749-2762 | text or CDATA |
| `XmlPrinter.Printer.PushMarked` | libs/tinyxml2.cpp:2821-2863 | comments, declarations, unknown nodes |
| `XmlPrinter.Printer.Accept` | libs/tinyxml2.cpp:2036-2047 | visiting a node writes exactly its text and leaves stack and depth as they were |
| `XmlPrinter.PrintDocument` | libs/tinyxml2.cpp:748-759 | the printer writes the text of the tree |
| `XmlRoundTrip.AttributesParse` | libs/tinyxml2.cpp:1885-1939 | printed attributes parse to themselves |
| `XmlRoundTrip.NodeParses` | libs/tinyxml2.cpp:678-745 | a printed node parses to itself, unless it is nested too deeply, in front of anything |
| `XmlRoundTrip.DocumentRoundTrip` | libs/tinyxml2.cpp:1010-1122 | a printed document parses to the same tree if it is below the nesting limit and to an error if it is not |
| `XmlTokens.AttributesRead` | libs/tinyxml2.cpp:1885-1939 | attributes in any spelling (space anywhere, either quote, raw values) parse to their names and decoded values; an error if and only if a name occurs twice |
| `XmlTokens.TagRead` | libs/tinyxml2.cpp:1968-1993 | what a tag in any spelling makes of the level it stands in, in front of anything |
| `XmlTokens.MarkupRead` | libs/tinyxml2.cpp:1169-1177 | a marked node lasts until its marker first occurs, in front of anything; a declaration is refused where none may stand |
| `XmlReading.TokensTaken` | libs/tinyxml2.cpp:1010-1122 | from any state of a machine with a stack of open elements, parsing any tokens goes as the machine does, whatever follows |
| `XmlReading.DocumentRead` | libs/tinyxml2.cpp:1010-1122 | every text made of tags, marked nodes and character data parses to the tree the stack machine builds, and is refused if and only if the machine refuses: for an end tag with another name than the innermost open element, an attribute twice, a misplaced declaration, more than 98 open elements, an element left open, or character data at the end |
| `XmlSplitting.NodesSplit` | libs/tinyxml2.cpp:1010-1122 | whatever a level of the parser has read, on any input, is a sequence of tokens |
| `XmlSplitting.AcceptedExactly` | libs/tinyxml2.cpp:2450-2464 | for every text and every tree: the parser accepts the text as that tree if and only if the text is made of tokens of which the stack machine makes that tree |
| `XmlTags.EndTagDecides` | libs/tinyxml2.cpp:1085-1118 | a start tag, printed children and an end tag: refused in front of any text if the names differ, and accepted as that element if they agree and the nesting is not too deep |
| `XmlTags.NoEndTag` | libs/tinyxml2.cpp:1090-1094 | a start tag and printed children without an end tag are refused |
| `XmlTags.RepeatedAttribute` | libs/tinyxml2.cpp:1902-1912 | a tag with an attribute name twice is refused, whatever follows |
| `XmlTags.PrintedRead` | libs/tinyxml2.cpp:1010-1122 | a printed document is accepted, as itself, if and only if it is not nested too deeply and does not end in character data |

## Left out

- Hash map: hash functions (a key carries an arbitrary 64-bit hash), copying, moving, swapping, destruction, failing `calloc`, and the 64-bit wrap of `(mMask + 1) * 2` in `increase_size`, which needs a table of 2^63 buckets.
- Pool: alignment of what malloc returns, copying and swapping pools, and 64-bit wrap of block sizes; word size is 8 bytes.
- InjaLayout.ParseTemplate: covers templates whose code is shorter than 2^30 instructions, because operands have 30 bits.
- InjaRenderer.RenderTemplate: has the same limit on the size of the code.
- InjaParser.Parser.ParseExpression: reads an expression tree where the source reads its tokens, so the token grammar of the cited lines (precedence, brackets, argument lists) is not covered.
- inja: the lexer and the grammar of tokens (the parser reads statement tokens and expression trees), `default`, `exists`, callbacks without arguments, `include`, what misnested statements render, and pointer stability beyond 16 nested loops; numbers are mathematical.
- XmlRoundTrip.DocumentRoundTrip: covers documents that neither begin nor end with plain text at the top level, because leading white space there is skipped and text must be followed by a tag (`PrintedRead` has those that end with it).
- XML: text stands for the bytes before the terminating NUL; `ParseDeep` and its helpers decode content where the source decodes it on first use, and build values where it links nodes; error codes, line numbers, pretty printing, white-space collapsing, switched-off entities, the byte order mark on output and number conversions are not modelled.
- Sockets: creating or freeing a context in a callback, SSL, polls and system calls, and the float rounding of `us_socket_timeout`; counters are unbounded. A callback's operations are given in advance.
- Thread pool: a job that does not return, more than one listening thread, and enqueueing after shutdown.
- Chunked coding: providers that report failure, shutting down in the middle, transports that accept zero bytes for ever, and the progress callback.
- The interpreter itself and the other bundled libraries.
