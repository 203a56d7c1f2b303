# Verified model of the MAGIA tile software

MAGIA is a mesh of accelerator tiles. Every tile has a main core, a Spatz vector core, a
cluster of PULP cores, an event unit that gathers completion events, and control registers
through which the main core dispatches work. This project models the software of the tile, and
of its registers where a protocol depends on them, and proves what that software computes.

`dafny verify dfyconfig.toml` checks everything.

| module | what it models |
|---|---|
| `Rvv` | the vector instructions the kernels use, and the strip-length rule of section 6.3 of the RISC-V Vector Extension 1.0 as an arbitrary legal function of the requested length |
| `Linear` | chains of multiply-accumulates and inner products over strided memory, shared by the kernels |
| `SpatzMatmul` | the software-pipelined matrix product and its wrapper, over uninterpreted multiply and fused multiply-add |
| `SpatzDotp`, `SpatzGemv`, `GemvTrans` | the strip-mined dot product, the two-accumulator matrix-vector product, and the transposed matrix-vector task |
| `Digits`, `PrintfNumbers`, `Utoa` | one specification of digit strings, and the printers and the parser proved against it |
| `TinyPrintf` | the formatter: scanner, padding, sinks, and the specification of its output |
| `EventUnit` | the event unit and the waits on it, under any arrival of events |
| `PulpPopcount`, `PulpDispatch`, `PulpPolling` | the cluster dispatch protocol with its acknowledge and completion quorums, with blocking waits and with polling waits that time out |
| `SpatzHandshake` | the dispatch protocol of the vector core |
| `AmoRendezvous` | the all-to-neighbours atomic counters |
| `MeshReduce`, `CollectiveMask`, `MeshTest` | the two-phase reduction, the masks that select its tiles, and both together on a mesh |
| `Arith` | quotients and remainders |

## How to read it

A kernel or routine that works step by step is a method over arrays with its own loops, proved
against a function of its inputs; the lemmas then say what that function is. One parametrised
method stands for kernels that differ only in element width or in how far a loop over rows is
unrolled: `SpatzMatmul.FmatmulKernel` with row blocks of 2, 4 and 8 is
spatz/sw/spatz_utils/spatz_workers.h:270-616 and, for the other widths, 651-997 and 1598-1758;
`SpatzDotp.Fdotp` is also 76-149; `SpatzGemv.Gemv` is also 1815-1907. Vector registers are
sequences of lanes, and an instruction promises nothing about the lanes beyond the strip
length; where the dot product depends on them the tail is a parameter.

What a specification function gives is written out by lemmas beside it that do not use it: the
operands of every accumulation and the inner product of strided vectors, the number a text reads
back to, the argument of every call, the bits of every event.

A protocol is a state machine whose steps are single accesses, with any interleaving, any number
of cores and any number of rounds or calls. A spin or a sleep whose condition does not hold is
not a step, so "a run can stop only when" says that nobody waits for ever, and each protocol has
a bound on the length of its runs. The invariants are inductive over every step.

The event unit is followed up to an arbitrary moment `limit` by the waits that may sleep for
ever, so that each wait is over by then exactly when its events have come by then.

## Where the code does not do what it is for

Each of these is proved as an exact condition, with the failing inputs.

- The matrix kernels add two more terms for odd N, reading beyond B, and write rows beyond C when
  the row block does not divide M (`SpatzMatmul.KernelCellIsDotIff`, `SpatzMatmul.FitsExactly`).
- The matrix-vector kernels add one more column for odd N (`SpatzGemv.GemvIsProductIff`).
- The dot product asks for tail-agnostic strips but reads lanes that shorter strips have passed
  over; it is right when the first strip length divides the length (`SpatzDotp.TailAgnosticIff`).
- The transposed matrix-vector task does not advance its row pointer with the strip
  (`GemvTrans.TransposedIff`).
- The number parser compares a digit with the base by `>`, so a decimal width takes a following
  `a` or `A` for a tenth digit (`PrintfNumbers.StopsAtDigitsIff`, `TinyPrintf.DirectiveIsMeantIff`,
  `TinyPrintf.ScannedAsMeantIff`, `TinyPrintf.FiveAd`).
- A task of the vector core may read the argument of the next call once the host has left out one
  wait for the done event, even if it waits after every later call (`SpatzHandshake.OwnArgsIff`).
  spatz/README.md:250 calls it safe to write the argument once START is clear, which happens before the
  task reads it; spatz/README.md:198 has the function that passes it wait for START, which the code does
  not do.
- The atomic task wraps its windows at 16 whatever the number of tiles, so on any other mesh some
  tile spins for ever (`AmoRendezvous.AtomicTaskIff`).
- The masks of rows and columns are computed from the square root of the number of tiles, so on meshes
  that are not square they select other tiles but for a few shapes (`CollectiveMask.ColumnsRightIff`,
  `CollectiveMask.RowsRightIff`, `CollectiveMask.AllRightIff`, `CollectiveMask.NarrowMesh`).
- The reduction test waits, after merging a column, for what the width of the mesh would give. It merges
  whole columns and gets that exactly on square meshes; on a mesh 16 wide and 2 high it merges them and
  never ends, on one 2 wide and 4 high it ends with half of a column (`MeshTest.SumSpinIffSquare`,
  `MeshTest.ProductSpinIffSquare`, `MeshTest.NarrowMeshSum`).
- The polling wait for the cluster discards its timeout, and the cores of a round that was given up
  complete into the quorums of later ones: after one polling round no wait can be relied on, not even a
  blocking one (`PulpPolling.WaitSoundIff`). No call is lost or made twice
  (`PulpPolling.CallsSurviveTimeouts`, `PulpPolling.StopsOnlyWhenOver`).
- The address of a collective store leaves eight bits for the tile
  (`CollectiveMask.CollectiveStoreIff`).
- A wait with the largest 32-bit timeout never times out (`EventUnit.TimesOutIff`).

## Model

| member | source | states |
|---|---|---|
| `Linear.ChainOperands` | spatz/sw/spatz_utils/spatz_workers.h:308-340 | inside all later accumulations of a chain stands the one of pair k with exactly the k-th operands, and innermost the multiplication of the first pair |
| `Linear.InnerUnit` | spatz/sw/spatz_utils/spatz_workers.h:47-72 | with a unit vector on either side the inner product is the element at its place |
| `Linear.InnerIsLinear` | spatz/sw/spatz_utils/spatz_workers.h:47-72 | the inner product is additive and homogeneous |
| `Linear.ChainIsInner` | spatz/sw/spatz_utils/spatz_workers.h:308-340 | over the integers a chain of multiply-accumulates is the inner product |
| `SpatzMatmul.DotIsChain` | spatz/sw/spatz_utils/spatz_workers.h:289-340 | the first n terms of a cell are the chain over the elements of A from i*N on and every P-th element of B from j on |
| `SpatzMatmul.DotOperands` | spatz/sw/spatz_utils/spatz_workers.h:302-340 | in the free algebra accumulation k of cell (i, j) has the operands a[i*N+k] and b[k*P+j], and the multiplication at its heart a[i*N] and b[j] |
| `SpatzMatmul.OddCell` | spatz/sw/spatz_utils/spatz_workers.h:302-337 | for odd N a cell is the chain over N+1 elements of A and rows of B, and one more accumulation of a[i*N+N+1] and b[N*P+j] |
| `SpatzMatmul.IntegerProduct` | spatz/sw/spatz_utils/spatz_workers.h:255-267 | over the integers c[i*P+j] is the inner product of row i of A and column j of B |
| `SpatzMatmul.StepBlock` | spatz/sw/spatz_utils/spatz_workers.h:308-334 | one multiply (the first) or fused multiply-add per row with the row of B held and the prefetched scalars, which are replaced by the next column of A |
| `SpatzMatmul.LoadAndStep` | spatz/sw/spatz_utils/spatz_workers.h:303-334 | half a turn of the loop: the next row of B is loaded into the free buffer and the held one accumulated |
| `SpatzMatmul.AccumulateBlock` | spatz/sw/spatz_utils/spatz_workers.h:289-335 | the pipelined loop leaves every lane exactly one fused multiply-add short of its cell, whatever N is, with the double-buffered rows of B and the prefetch accounted for |
| `SpatzMatmul.PendingTerm` | spatz/sw/spatz_utils/spatz_workers.h:302-337 | what is pending on exit is the last term for even N and, for odd N, a term beyond the last computed from the row of B before it |
| `SpatzMatmul.ComputeBlock` | spatz/sw/spatz_utils/spatz_workers.h:285-342 | a block of rows ends with exactly its rows and its strip of columns of C written, each cell holding the kernel value, every other cell unchanged |
| `SpatzMatmul.ComputeStrip` | spatz/sw/spatz_utils/spatz_workers.h:285-342 | the row loop over one strip: its cells of C, and where its accesses to A, B and C end |
| `SpatzMatmul.FmatmulKernel` | spatz/sw/spatz_utils/spatz_workers.h:270-346 | every variant, for every legal strip-length rule, register width and row block, writes exactly the cells of the blocks it visits and computes the same value in each, and its accesses to A, B and C end at the same places: nothing depends on how the columns were cut |
| `SpatzMatmul.Fmatmul` | spatz/sw/spatz_utils/spatz_workers.h:257-267 | for even N and every M cell (i, j) at i*P+j holds the left-to-right chain over a[i*N..i*N+N] and b[j], b[j+P], ..., operation by operation; nothing after C is touched when the block of the variant picked divides M, for every N |
| `SpatzMatmul.RowsEndExact` | spatz/sw/spatz_utils/spatz_workers.h:285-285 | the row loop ends at the last row exactly when the block divides the rows |
| `SpatzMatmul.FitsExactly` | spatz/sw/spatz_utils/spatz_workers.h:285-335 | the ends of the accesses that the kernel reports lie inside B of NxP elements if and only if N is even, inside C of MxP if and only if the block divides M, and inside A of MxN if and only if both hold |
| `SpatzMatmul.WrittenIsProduct` | spatz/sw/spatz_utils/spatz_workers.h:255-267 | for even N the memory left by the kernel starts with the MxP product, however far the row blocks reach beyond it |
| `SpatzMatmul.DotAccumulations` | spatz/sw/spatz_utils/spatz_workers.h:308-340 | in the free algebra of the operations the product of length n holds n-1 accumulations |
| `SpatzMatmul.KernelCellIsDotIff` | spatz/sw/spatz_utils/spatz_workers.h:302-337 | over arithmetic that identifies no two different computations a cell is the left-to-right product if and only if N is even; odd N adds two further accumulations |
| `Rvv.StripNeverGrows` | spatz/sw/spatz_utils/spatz_workers.h:45-68 | under section 6.3 of the RISC-V Vector Extension 1.0 the strip length never grows |
| `Rvv.StripProgress` | spatz/sw/spatz_utils/spatz_workers.h:275-280 | a strip is never empty while work is left and never longer than the work or the register |
| `SpatzDotp.Fdotp` | spatz/sw/spatz_utils/spatz_workers.h:36-73 | for every length and strip rule, with undisturbed tails, the inner product of the two vectors, so a[k] when b is the unit vector at k and b[k] when a is; what was in the reduction register for length 0 |
| `SpatzDotp.StripsAdd` | spatz/sw/spatz_utils/spatz_workers.h:46-70 | the lanes used at the start add up to the products of all elements, by exchanging the sum over strips and lanes |
| `SpatzDotp.ReductionIsProducts` | spatz/sw/spatz_utils/spatz_workers.h:67-72 | the re-issued setting of the strip length covers every lane ever used |
| `SpatzDotp.ReductionIsInner` | spatz/sw/spatz_utils/spatz_workers.h:46-72 | what the kernel reduces to is the inner product of both vectors |
| `SpatzDotp.LaneStaysOverwritten` | spatz/sw/spatz_utils/spatz_workers.h:46-65 | a lane beyond the current strip is overwritten by tail-agnostic hardware and never written again |
| `SpatzDotp.ShortStripBreaks` | spatz/sw/spatz_utils/spatz_workers.h:36-73 | with a shorter later strip, hardware that overwrites tails gives a wrong sum of zeros |
| `SpatzDotp.UniformIff` | spatz/sw/spatz_utils/spatz_workers.h:46-65 | all strips have one length exactly when the first strip length divides the length of the vectors |
| `SpatzDotp.TailAgnosticIff` | spatz/sw/spatz_utils/spatz_workers.h:42-72 | under the tail setting the kernel asks for it is right for all inputs and all tail behaviours if and only if the strip length first answered divides the length |
| `SpatzGemv.Gemv` | spatz/sw/spatz_utils/spatz_workers.h:1769-1811 | rows below M_core receive the sum of the even-column and the odd-column chains in the order the kernel computes them, for every legal strip rule; nothing else changes |
| `SpatzGemv.KernelRowIsChains` | spatz/sw/spatz_utils/spatz_workers.h:1779-1804 | what row i receives is the sum of the chain over columns 0, 2, ... and the chain over columns 1, 3, ..., column k of the row standing at k*M+i, in the order the variant adds them |
| `SpatzGemv.StripOfRows` | spatz/sw/spatz_utils/spatz_workers.h:1777-1804 | one strip: both accumulators hold their chains of every second column |
| `SpatzGemv.ChainsAddUp` | spatz/sw/spatz_utils/spatz_workers.h:1779-1804 | over the integers the two chains add up to the row times the vector |
| `SpatzGemv.KernelRowIsProduct` | spatz/sw/spatz_utils/spatz_workers.h:1779-1804 | even N gives the product; odd N adds the column after the last times the element after the last |
| `SpatzGemv.GemvIsProductIff` | spatz/sw/spatz_utils/spatz_workers.h:1779-1804 | a row is the product for all inputs if and only if N is even |
| `SpatzGemv.GemvProduct` | spatz/sw/spatz_utils/spatz_workers.h:1815-1857 | for every even N, every M_core up to M and both orders of the final addition c[i] is the inner product of a[i], a[i+M], ... with b |
| `GemvTrans.VectorSetAll` | spatz/sw/tasks/matvectrans16_task.c:45-64 | sets exactly the first len elements, for every strip rule |
| `GemvTrans.VectorMemcpy` | spatz/sw/tasks/matvectrans16_task.c:66-86 | copies exactly len elements, also onto itself |
| `GemvTrans.VectorScale` | spatz/sw/tasks/matvectrans16_task.c:88-109 | scales exactly len elements, also in place |
| `GemvTrans.ScaleInto` | spatz/sw/tasks/matvectrans16_task.c:150-155 | the three branches on the bits of beta all leave beta times y |
| `GemvTrans.AddProduct` | spatz/sw/tasks/matvectrans16_task.c:157-178 | every strip adds alpha times the rows accumulated from the start of each row, not from the strip |
| `GemvTrans.OneStripResult` | spatz/sw/tasks/matvectrans16_task.c:157-178 | with one strip element j is alpha times the inner product of x with mat[j], mat[j+N], ... plus beta*y |
| `GemvTrans.LinalgGemvTrans` | spatz/sw/tasks/matvectrans16_task.c:113-181 | exactly what dst holds for every alpha, beta, dimension and strip rule, also with y and dst the same vector; when dim_N fits one strip, dst[j] is alpha times the inner product of x with mat[j], mat[j+N], ... plus beta*y[j] |
| `GemvTrans.TransposedIff` | spatz/sw/tasks/matvectrans16_task.c:160-178 | the Spatz task computes alpha*A^T*x + beta*y for all inputs if and only if dim_N fits one strip, or there is no row, or alpha is zero: the row pointer is not advanced with the strip |
| `Digits.A2dIs` | sw/utils/tinyprintf.h:353-363 | a character is digit d exactly when it stands at place d of 0123456789abcdef or of 0123456789ABCDEF, and no digit when in neither |
| `Digits.ValueConcat` | sw/utils/tinyprintf.h:365-379 | a digit weighs the base to the number of digits after it |
| `Digits.CanonicalValue` | sw/utils/tinyprintf.h:325-342 | the canonical digits of a value stand for it |
| `Digits.CanonicalDigits` | sw/utils/tinyprintf.h:325-342 | canonical digits are digits of the base, without leading zero but for "0" |
| `Digits.CanonicalCase` | sw/utils/tinyprintf.h:334-340 | the letters of a canonical string are all capital or all small, as asked |
| `Digits.FitsTwelve` | sw/utils/tinyprintf.h:439-439 | digits and terminator of every 32-bit value fit the 12-byte buffer in bases 8, 10 and 16 |
| `Digits.DigitCount` | sw/utils/tinyprintf.h:330-331 | a value has at most n digits exactly when it is below the n-th power of the base |
| `PrintfNumbers.HighestPower` | sw/utils/tinyprintf.h:328-331 | finds the power of the base that is 1 or at most the value and whose next power is above it, without overflowing 32 bits |
| `PrintfNumbers.Ui2a` | sw/utils/tinyprintf.h:325-342 | writes exactly the canonical digits and a terminator, for every 32-bit value and base 2 to 16 |
| `PrintfNumbers.A2u` | sw/utils/tinyprintf.h:365-379 | consumes exactly the characters up to its stopping point and returns their value in 32-bit arithmetic; some step leaves 32 bits exactly when the value does |
| `PrintfNumbers.PrintThenParse` | sw/utils/tinyprintf.h:325-379 | printing and parsing again returns the value and the terminator, for every 32-bit value and base 2 to 16, and no step of the parsing leaves 32 bits |
| `PrintfNumbers.ReadBack` | sw/utils/tinyprintf.h:365-379 | the parser stops at the end of a canonical string |
| `PrintfNumbers.StopsAtDigitsIff` | sw/utils/tinyprintf.h:370-375 | the parser stops at the first character that is no digit of the base if and only if the character there does not have the base itself as its digit value: the comparison is > where >= is meant, so a width swallows a following a |
| `PrintfNumbers.TakesTen` | sw/utils/tinyprintf.h:370-375 | on 5ad it takes the a for a tenth digit and reads sixty instead of five |
| `Utoa.DigitsBackwards` | sw/utils/magia_utils.h:68-72 | first phase: the canonical digits in reverse, written once each |
| `Utoa.ReverseInPlace` | sw/utils/magia_utils.h:76-81 | second phase: two pointers reverse the buffer in place |
| `Utoa.Utoa` | sw/utils/magia_utils.h:57-83 | the same canonical upper-case string as the other number printer, terminated; an empty string for a base outside 2 to 16 |
| `TinyPrintf.FieldLength` | sw/utils/tinyprintf.h:381-431 | a field has max(width, digits + sign + prefix) characters |
| `TinyPrintf.FieldKeepsText` | sw/utils/tinyprintf.h:397-430 | fill stands in exactly one of its three places; sign, prefix and digits stay in order |
| `TinyPrintf.Putchw` | sw/utils/tinyprintf.h:381-431 | emits exactly the field for every string, flags and width |
| `TinyPrintf.PutNumber` | sw/utils/tinyprintf.h:521-586 | a numeric directive emits the field of the canonical digits of its argument with its sign |
| `TinyPrintf.NumberIsPrinted` | sw/utils/tinyprintf.h:521-586 | read back: d and i print the two-complement number of the word in base 10 with its sign, u base 10, o base 8, x and X base 16 in small and capital letters, p as x behind 0x, without leading zeros, behind the marker of the alternate form, and filled to the width in one place |
| `TinyPrintf.OtherIsPrinted` | sw/utils/tinyprintf.h:587-599 | s prints its text filled to the width, c and a percent sign one character, anything else nothing |
| `TinyPrintf.PutDirective` | sw/utils/tinyprintf.h:518-599 | every directive character emits the text that NumberIsPrinted and OtherIsPrinted read back, and consumes its argument |
| `TinyPrintf.DirectiveIs` | sw/utils/tinyprintf.h:451-490 | a 0 among the flags or a precision sets zero fill, a # the alternate form, a - the left edge, and the digits between flags and precision the width |
| `TinyPrintf.ScanFlags` | sw/utils/tinyprintf.h:459-474 | flags are taken until another character, never beyond the terminator |
| `TinyPrintf.ScanWidth` | sw/utils/tinyprintf.h:476-479 | the width is the wrapped value of the digits the parser takes |
| `TinyPrintf.ScanPrecision` | sw/utils/tinyprintf.h:484-490 | a precision only turns on zero fill; its digits are skipped, never beyond the terminator |
| `TinyPrintf.ScanDirective` | sw/utils/tinyprintf.h:451-490 | flags, width and precision scanned one after the other are those of the specification |
| `TinyPrintf.DigitsEndInText` | sw/utils/tinyprintf.h:476-490 | scanning digits stays inside the format |
| `TinyPrintf.DirectiveIsMeantIff` | sw/utils/tinyprintf.h:459-490 | a directive has the width its decimal digits stand for, and the conversion after them, if and only if the width is not followed by a or A |
| `TinyPrintf.ScannedAsMeantIff` | sw/utils/tinyprintf.h:444-601 | a format is scanned as it is meant, item by item, if and only if no directive it goes through has a or A after its width; literal text may hold anything |
| `TinyPrintf.OutputIsMeant` | sw/utils/tinyprintf.h:444-601 | such a format prints what its directives are meant to print |
| `TinyPrintf.FiveAd` | sw/utils/tinyprintf.h:476-490 | %5ad prints a number in a field of at least sixty characters where d is meant |
| `TinyPrintf.LiteralRun` | sw/utils/tinyprintf.h:443-445 | up to the next percent sign a format prints itself |
| `TinyPrintf.ArgumentInTurn` | sw/utils/tinyprintf.h:433-603 | every conversion gets the argument after those the conversions before it have taken |
| `TinyPrintf.PlainDirective` | sw/utils/tinyprintf.h:451-599 | a percent sign and one conversion character print the conversion of the first argument |
| `TinyPrintf.MinusFive` | sw/utils/tinyprintf.h:344-351 | %d of the word of minus five prints -5 |
| `TinyPrintf.TfpFormat` | sw/utils/tinyprintf.h:433-603 | terminates for every format and emits exactly the concatenation of the pure specification; a format that ends inside a directive ends the output |
| `TinyPrintf.Sink.Putf` | sw/utils/tinyprintf.h:644-650 | a character is stored while there is room and always counted |
| `TinyPrintf.TfpVsnprintf` | sw/utils/tinyprintf.h:652-670 | the first min(length, size-1) characters of the output and a terminator, nothing beyond; returns the full length; size 0 writes nothing |
| `TinyPrintf.TfpVsprintf` | sw/utils/tinyprintf.h:695-703 | the whole output and a terminator, the same text as the bounded form with room enough |
| `EventUnit.Unit.WaitClear` | sw/utils/event_unit_utils.h:226-229 | the blocking load returns and clears the enabled events of the first moment that has any, and wakes by a given moment exactly when one is latched or raised by then |
| `EventUnit.Unit.WaitWfe` | sw/utils/event_unit_utils.h:226-229 | enables the events and sleeps: wakes by a given moment exactly when an enabled event is latched or raised by then |
| `EventUnit.Unit.WaitAllWfe` | sw/utils/event_unit_utils.h:434-440 | loses no event under any arrival schedule; is over by a given moment exactly when every required event has been latched or raised by then, at the first such moment; returns every enabled event seen |
| `EventUnit.Unit.ReadMore` | sw/utils/event_unit_utils.h:437-438 | one load of that loop keeps accumulated plus pending equal to everything seen |
| `EventUnit.NotYet` | sw/utils/event_unit_utils.h:434-440 | an enabled required event that is neither returned nor pending has not been seen |
| `EventUnit.SeenGrows` | sw/utils/event_unit_utils.h:434-451 | what has been seen by a moment is what had been seen before and what has been raised since |
| `EventUnit.Unit.WaitAllPolling` | sw/utils/event_unit_utils.h:441-451 | returns exactly the required events seen, clears none, stops within timeout/10 polls and at the first poll that sees them all |
| `EventUnit.RequiredBits` | sw/utils/event_unit_utils.h:426-430 | the events waited for are bits 10, 2, 3 and 24 |
| `EventUnit.Unit.MultiWaitAll` | sw/utils/event_unit_utils.h:423-452 | both modes of the wait for all, for every choice of required events |
| `EventUnit.Unit.WaitPolling` | sw/utils/event_unit_utils.h:210-223 | returns and clears the events of the first poll that sees one; gives up at the first poll at which the 32-bit counter has reached the timeout, and never polls on after it |
| `EventUnit.PollBudget` | sw/utils/event_unit_utils.h:219-221 | a timeout that the 32-bit counter can pass is up after exactly its tens of cycles |
| `EventUnit.QuietWait` | sw/utils/event_unit_utils.h:210-223 | a wait to which no wanted event comes gives up at that poll and not before |
| `EventUnit.TimesOutIff` | sw/utils/event_unit_utils.h:211-221 | a wait to which no wanted event comes ever gives up if and only if it has a timeout and the timeout is not the largest 32-bit value |
| `EventUnit.Unit.ClusterDoneInit` | sw/utils/event_unit_utils.h:259-265 | arming leaves only the done event enabled and only what was raised after the clear latched |
| `EventUnit.Unit.ClusterDoneWait` | sw/utils/event_unit_utils.h:267-270 | armed, the blocking wait wakes on the done event alone, and wakes if it is latched or raised; the polling wait is over after at most 100000 polls, and gives up after exactly that many that saw nothing |
| `PulpPopcount.Stage1Fields` | sw/utils/magia_pulp_utils.h:62-62 | after the first step every 2-bit field counts its two bits |
| `PulpPopcount.Stage2Fields` | sw/utils/magia_pulp_utils.h:63-63 | after the second every 4-bit field is the sum of its two 2-bit fields |
| `PulpPopcount.Stage3Fields` | sw/utils/magia_pulp_utils.h:64-64 | after the third every byte is the sum of its two 4-bit fields, with no carry between bytes |
| `PulpPopcount.CollectBytes` | sw/utils/magia_pulp_utils.h:65-65 | the product collects the four bytes in the top one |
| `PulpPopcount.PopcountCounts` | sw/utils/magia_pulp_utils.h:61-66 | the bit-parallel count equals the count one bit at a time, for every word |
| `PulpPopcount.PopcountSelects` | sw/utils/magia_pulp_utils.h:88-88 | the quorum written for a mask is the number of cores it selects |
| `PulpPopcount.HasIsBit` | sw/utils/magia_pulp_utils.h:87-90 | core k is selected exactly when bit k of the mask is set |
| `PulpDispatch.DispatchKeepsInv` | hw/tile/obi_slave_ctrl_cluster.sv:143-149 | the START write keeps the invariant: selected cores get their interrupt, both counters start at zero |
| `PulpDispatch.HostKeepsInv` | sw/utils/event_unit_utils.h:259-270 | every host access of arm, dispatch and wait keeps the invariant |
| `PulpDispatch.QuietCoreKeepsInv` | sw/kernel_pulp/pulp_crt0.S:151-174 | the handler steps that write no register keep the invariant |
| `PulpDispatch.AckKeepsInv` | hw/tile/obi_slave_ctrl_cluster.sv:150-175 | an acknowledgement keeps the counter and the START register exact: START clears with the last selected core and not before |
| `PulpDispatch.DoneKeepsInv` | hw/tile/obi_slave_ctrl_cluster.sv:133-169 | a completion keeps the counter exact: the done pulse fires with the last selected core and not before |
| `PulpDispatch.StepKeepsInv` | hw/tile/obi_slave_ctrl_cluster.sv:122-175 | every step of host, core, pulse or other event source keeps the invariant, for any number of cores and rounds |
| `PulpDispatch.SpinEndsAfterEveryAck` | sw/utils/magia_pulp_utils.h:87-92 | in every run the dispatch returns only after every selected core has taken the task and the argument of its own round |
| `PulpDispatch.WaitEndsAfterEveryDone` | sw/utils/event_unit_utils.h:267-270 | in every run the wait ends only on the done event of its own round, with every selected core finished and every core having made exactly the calls asked of it |
| `PulpDispatch.AskedCall` | sw/utils/magia_pulp_utils.h:87-92 | the calls asked of a core stand in the order of the rounds, the one of round r after as many as there are earlier rounds that select the core |
| `PulpDispatch.CallsWithLastArgument` | sw/utils/magia_pulp_utils.h:87-102 | in every run, when a wait ends, the call of every core for every round so far is the task of that round with the argument last passed, kept by rounds that pass none, or the reset value |
| `PulpDispatch.CoreHoldsLastArgument` | sw/utils/magia_pulp_utils.h:87-102 | in every run, when the dispatch returns, a selected core that has not finished holds that task and that argument |
| `PulpDispatch.FiresOncePerRound` | hw/tile/obi_slave_ctrl_cluster.sv:165-169 | in every run the quorum fires exactly once for every dispatch that has finished |
| `PulpDispatch.StopsOnlyWhenFinished` | sw/utils/magia_pulp_utils.h:87-92 | no event is missed: a run can stop only with every round finished and every call made |
| `PulpDispatch.RunsAreFinite` | sw/utils/magia_pulp_utils.h:87-92 | every run makes a bounded number of moves, however they interleave |
| `PulpDispatch.MaskMakesRound` | sw/utils/magia_pulp_utils.h:87-90 | a dispatch asks for the task and the argument given, of exactly the cores whose bits are set in the mask, and every non-empty mask of existing cores gets the right quorum |
| `PulpPolling.MoveKeepsFair` | sw/utils/cluster_utils.h:71-73 | every step, and every wait that times out, keeps the invariant: acknowledgements are exact, and completions of earlier rounds can only make the quorum fire early |
| `PulpPolling.CallsSurviveTimeouts` | sw/utils/magia_pulp_utils.h:87-92 | whatever timed out before, when the dispatch returns every core has made or is making exactly the calls asked of it so far, in order |
| `PulpPolling.StopsOnlyWhenOver` | sw/utils/cluster_utils.h:71-73 | with polling waits too a run can stop only when every round is over, with exactly the calls asked of every core made |
| `PulpPolling.RunsStayFinite` | sw/utils/magia_pulp_utils.h:87-92 | runs with timeouts are as bounded as those without |
| `PulpPolling.HoldingMove` | hw/tile/obi_slave_ctrl_cluster.sv:133-169 | while one core is kept in its call something else can move until the host has come to its wait |
| `PulpPolling.QuorumWithout` | hw/tile/obi_slave_ctrl_cluster.sv:165-169 | with a completion of an earlier round counted, the quorum fires without one of the cores of this round |
| `PulpPolling.LeavesEarly` | sw/utils/cluster_utils.h:71-73 | a run in which a round that polls, and every round after it, is left with a core still in its call |
| `PulpPolling.WaitSoundIff` | sw/utils/event_unit_utils.h:267-270 | the wait of a round ends, in every run, only when its cores have finished if and only if neither it nor any earlier round polls |
| `SpatzHandshake.ReadKeepsInv` | spatz/sw/kernel/spatz_crt0.S:160-165 | the argument a task reads is its own or, when the host has not waited after every call so far, perhaps that of the next call |
| `SpatzHandshake.StepKeepsInv` | sw/utils/magia_spatz_utils.h:65-78 | every step of host, worker and done pulse keeps the invariant |
| `SpatzHandshake.RunsEachCallOnce` | sw/utils/magia_spatz_utils.h:65-69 | in every run the tasks run are the tasks asked for, each once and in order; a call that names no task is never taken |
| `SpatzHandshake.StopsOnlyWhenFinished` | sw/utils/magia_spatz_utils.h:65-69 | a run can stop only when every call has returned and every task has run |
| `SpatzHandshake.RunsAreFinite` | sw/utils/magia_spatz_utils.h:65-69 | calls that all name a task finish within a bounded number of accesses |
| `SpatzHandshake.StayAhead` | sw/utils/event_unit_utils.h:384-396 | after one call without a wait every later wait can take the done event of the task before, so the host stays a call ahead |
| `SpatzHandshake.Overtaken` | sw/utils/magia_spatz_utils.h:71-78 | a run in which, some calls after one without a wait, a task reads the argument of the next call |
| `SpatzHandshake.ReadsLastArgument` | sw/utils/magia_spatz_utils.h:65-78 | when the host waits enough, in every run every task is run with the argument last passed when it was called |
| `SpatzHandshake.OwnArgsIff` | sw/utils/magia_spatz_utils.h:71-78 | every task reads its own argument in every run if and only if, before each call that changes the argument, the host has waited after every call so far |
| `AmoRendezvous.CountersAreExact` | sw/tests/amo_test.c:37-44 | in every run every counter is exactly the number of adds made to it and never exceeds the expected value |
| `AmoRendezvous.LeavesAfterEveryAdd` | sw/tests/amo_test.c:47-51 | in every run a hart leaves its spin only after every add aimed at it has been made |
| `AmoRendezvous.StopsOnlyWhenAllLeft` | sw/tests/amo_test.c:37-51 | no hart waits for ever: a run can stop only when all have left, every counter at the expected value |
| `AmoRendezvous.RunsAreFinite` | sw/tests/amo_test.c:37-51 | every run makes a bounded number of moves |
| `AmoRendezvous.EveryCounterEqually` | sw/tests/amo_test.c:39-43 | windows that wrap at the number of harts hit every counter once per round of adds, by exchanging the sum over harts and adds |
| `AmoRendezvous.SenderIsUnique` | sw/tests/amo_test.c:40-40 | exactly one hart reaches a given counter at a given distance |
| `AmoRendezvous.StarvedNeverLeaves` | spatz/sw/tasks/atomic_remote_task.c:63-63 | a hart at which too few adds are aimed never leaves its spin |
| `AmoRendezvous.BalancedIff` | spatz/sw/tasks/atomic_remote_task.c:46-63 | the adds aimed at every counter are as many as its hart waits for if and only if the windows wrap at the number of harts, or nothing is added, or one-counter windows do not wrap |
| `AmoRendezvous.RendezvousIff` | spatz/sw/tasks/atomic_remote_task.c:46-63 | every run that comes to its end has every hart past its spin if and only if that holds; otherwise one hart never leaves its spin in any run |
| `AmoRendezvous.RunOn` | sw/tests/amo_test.c:37-51 | every run can be run on to its end |
| `AmoRendezvous.AllToAll` | sw/tests/amo_test.c:27-51 | the program whose windows are all counters, for any number of harts: exact counters, no hart leaves early, at the end every hart has left with the expected value |
| `AmoRendezvous.AtomicTaskIff` | spatz/sw/tasks/atomic_remote_task.c:28-63 | the Spatz task with its window of 3 and its modulus of 16 works for 16 harts and for no other number |
| `MeshReduce.MergeFolds` | sw/tests/collective_tests/narrow_reduce_mesh.c:60-60 | however the network merges contributions, the result is their fold |
| `MeshReduce.FoldPermutation` | sw/tests/collective_tests/narrow_reduce_mesh.c:60-60 | the order in which contributions meet does not matter |
| `MeshReduce.ColumnsThenRow` | sw/tests/collective_tests/narrow_reduce_mesh.c:53-81 | folding every column and then the top row equals folding all tiles |
| `MeshReduce.TwoPhases` | sw/tests/collective_tests/narrow_reduce_mesh.c:53-95 | for any mesh, values, commutative and associative operation and any merging of each phase, tile 0 receives the fold over all tiles |
| `MeshReduce.ExpectedProduct` | sw/tests/collective_tests/narrow_reduce_mesh.c:134-136 | the loop computes the n-th power in 32 bits, the value the product spins wait for |
| `MeshReduce.SumPhases` | sw/tests/collective_tests/narrow_reduce_mesh.c:66-93 | with equal values the two sums are what the two spins wait for on a square mesh, and the total is value times tiles |
| `MeshReduce.ProductPhases` | sw/tests/collective_tests/narrow_reduce_mesh.c:130-162 | with equal values the column product is the power of the height and the row product that of the width, the total is the value to the number of tiles, and on a square mesh they are what the two spins wait for |
| `MeshReduce.PowersMeetIff` | sw/tests/collective_tests/narrow_reduce_mesh.c:134-136 | two powers of two are the same 32-bit word if and only if the exponents are equal or both at least 32 |
| `MeshReduce.MulLaws` | sw/tests/collective_tests/narrow_reduce_mesh.c:116-117 | 32-bit multiplication is commutative and associative |
| `CollectiveMask.SideMaskIsRoot` | sw/utils/magia_coll_utils.h:63-64 | the side mask is the whole square root of the number of tiles less one, for every power of two of tiles |
| `CollectiveMask.ReachesIff` | README.md:230-251 | a mask reaches exactly the tiles whose numbers agree with that of the destination on the bits outside the mask |
| `CollectiveMask.ColumnsRightIff` | sw/utils/magia_coll_utils.h:67-68 | on a mesh of 2^w by 2^h tiles the column mask reaches exactly the columns if and only if the mesh is square, or 2 wide and 1 high, or 16 wide and 2 high |
| `CollectiveMask.RowsRightIff` | sw/utils/magia_coll_utils.h:69-70 | the row mask reaches exactly the rows if and only if the mesh is square, or 1 wide and 2 high, or 2 wide and 4 high |
| `CollectiveMask.AllRightIff` | sw/utils/magia_coll_utils.h:65-66 | the full mask reaches every tile if and only if the number of tiles is a square |
| `CollectiveMask.NarrowMesh` | sw/utils/magia_coll_utils.h:67-68 | 2 wide and 4 high, the column mask sent to tile 0 reaches tiles 0 and 2, half of its column |
| `CollectiveMask.CollectiveStoreIff` | hw/tile/collective_gen.sv:49-59 | a collective store is recognised, and its address restored, exactly for the first 256 tiles |
| `MeshTest.ColumnMerged` | sw/tests/collective_tests/narrow_reduce_mesh.c:54-60 | where the column mask reaches whole columns, a column phase merges the values of a column, each once |
| `MeshTest.RowMerged` | sw/tests/collective_tests/narrow_reduce_mesh.c:77-81 | where the row mask reaches whole rows, the row phase merges the results of the top row |
| `MeshTest.SquareMeshReduces` | sw/tests/collective_tests/narrow_reduce_mesh.c:53-95 | on every square mesh, with the contributors of each phase those that its mask selects, tile 0 receives the fold over all tiles, for any values, commutative and associative operation and merging |
| `MeshTest.SumTestEnds` | sw/tests/collective_tests/narrow_reduce_mesh.c:66-93 | on a square mesh with equal values every column spin and the row spin of the sum test end, with the value times the number of tiles at tile 0 |
| `MeshTest.ProductTestEnds` | sw/tests/collective_tests/narrow_reduce_mesh.c:130-162 | the same for the product test, with the value to the number of tiles |
| `MeshTest.SumSpinIffSquare` | sw/tests/collective_tests/narrow_reduce_mesh.c:54-71 | a column phase of the sum test merges whole columns and leaves what its spin waits for if and only if the mesh is square; 2 wide and 1 high, or 16 wide and 2 high, whole columns are merged and the spin never ends |
| `MeshTest.ProductSpinIffSquare` | sw/tests/collective_tests/narrow_reduce_mesh.c:117-138 | the same for the product test |
| `MeshTest.NarrowMeshSum` | sw/tests/collective_tests/narrow_reduce_mesh.c:54-71 | 2 wide and 4 high, the column phase at tile 0 merges two of the four values of its column, and the spin ends on them |

## Left out

- IEEE rounding, NaN and flags: the matrix product is proved over uninterpreted operations, the kernels that reassociate over the integers.
- `fmatmul_v16b_2xVL`, `fmatmul_v16b_4xVL`: they load and store 32-bit elements through pointers to 16-bit ones, so they are no element-wise product.
- `matmul_2xVL`, `matmul_4xVL`, `matmul_8xVL`: they rest on a custom instruction whose meaning is not part of this model.
- `faxpy_v64b`, `faxpy_v32b`, `faxpy_v16b`: one multiply-add per element, in the strips that `GemvTrans.VectorScale` already covers.
- `cluster_chunk_offset`, `cluster_chunk_size`: one division each, which cuts a range into consecutive chunks; nothing modelled here depends on them.
- SpatzMatmul.FmatmulKernel: accesses are kept track of by where they end, not one by one.
- SpatzMatmul.Fmatmul: N of 0 is not modelled, because the kernels then store registers that were never written.
- SpatzGemv.Gemv: N of 0 is not modelled, for the same reason.
- SpatzDotp.Fdotp: the reduction of the hardware is a sum in lane order; other orders give the same integer.
- TinyPrintf.TfpFormat: the long, long long and size forms of the directives are switched off in this configuration; the count of characters is unbounded; an int of -2^31 prints as its digits with a sign; a width of 2^31 or more is taken as it is. The base and case that a `%#s` directive finds are those the previous numeric directive left, and are an arbitrary start value before the first.
- TinyPrintf.TfpVsnprintf: the returned length is the mathematical one, where the code converts it to int.
- TinyPrintf.TfpVsprintf: the caller provides the room, as the code demands.
- EventUnit.Unit.WaitClear: a blocked load is followed up to an arbitrary moment instead of for ever; a moment passes at every access.
- PulpDispatch.MaskMakesRound: an empty mask is not a round; the dispatch then returns at once and no done event ever comes.
- PulpDispatch.StepKeepsInv: the widths of the quorum and its counters are not modelled; they hold every count of existing cores. Boot, READY and the clock enable are left out: a run starts with every core asleep in its dispatcher.
- PulpPolling.MoveKeepsFair: a timeout may come at any poll that finds nothing, since a task may take any time; a poll that finds the event and the write that clears it are one step.
- SpatzHandshake.StepKeepsInv: exceptions in a task, READY and the exit code are left out; a run starts with the worker asleep and the done event enabled and clear; each task reads its argument once.
- SpatzHandshake.OwnArgsIff: calls that name no task are left out, because the host never returns from them.
- AmoRendezvous.CountersAreExact: counters start at zero on every tile before the first add. Each tile of the mesh test clears its own without a barrier, so this is an assumption on its callers, and it is needed that the expected value fits 32 bits.
- MeshReduce.TwoPhases: the routers are modelled as merging the contributions of a phase pairwise in any order; how they find each other is not part of this model. The barrier between the two tests is left out.
- CollectiveMask.SideMaskIsRoot: the logarithm and the square root are taken as exact before they are cut to whole numbers; meshes have sides that are powers of two and up to 4096 tiles, which is all a 32-bit address space holds.
- MeshTest.NarrowMeshSum: what the network does with a tile whose destination does not count it among its contributors is not part of this model.
- FractalSync: the hardware tree that gives its identifiers their meaning is not part of this model.
- iDMA, RedMulE and the instruction macros: register packing in front of hardware that is not part of this model.
- Printing to the host, cycle counters, delays: input and output or timing only.
