# GPGPU-Sim with selective coalescing, and its AES workloads: a verified model

This project models the parts of the repository whose correctness rests on more than one function.
The members in the table of the section "Model" are checked by the Dafny verifier.

* **The SIMT stack** (`Simt*.dfy`). `SimtStack` is the class
  `simt_stack` with its loops; `Updated` says in one expression what `update` does, and `SimtEntries` what
  that means for the lanes. A warp is then compared with independent scalar threads: each lane is given by
  its own sequence of PCs, and the stack must at every moment hold each live lane at its own PC
  (`SimtRefinement`, `SimtRun`), reconverge and return where it parted (`SimtRejoin`), and end with the
  threads (`SimtProgress`).
* **Memory accesses of a warp** (`Coalescing*.dfy`, `Atomic*.dfy`, `SharedMemory*.dfy`): coalescing by
  segments, the mode that disables it globally or at one source line, atomics, and shared-memory bank
  conflicts. `WarpInst` (`WarpInsts.dfy`) holds the access queue that the methods append to.
* **AES** (`AesSpec.dfy` is FIPS 197; `AesTheory.dfy` its algebra; `AesTables.dfy` ties both to the field
  and to entries of the tables; `AesWords.dfy`, `AesKeySchedule.dfy` and `AesCipher.dfy` are `aes.c`;
  `ByteKeySchedule.dfy` is the key schedule of `aes-op.cpp`). The table type `SBox` is any pair of byte
  functions; the theorems need only that they are inverse to each other, and `Te`/`Td` are computed from
  them as the comment in `aes.c` says. The `u32` of `aes.c` is an `unsigned long`, taken here as 64 bits
  wide: words are `bv64` and are proved to stay below 2^32; bytes are `bv8`.
* **The stream manager** (`Stream*.dfy`). The protocol is a state machine whose steps are the critical
  sections; the classes are proved to take those steps. `StreamService` has what is served next and in the end.
* **The assembler's layout** (`Layout.dfy`, `Assembler.dfy`) and **the generic address map**
  (`GenericAddress.dfy`).

`Ordered.dfy` has the ascending iteration of `std::map`, `LineUnits.dfy` and `Subwarps.dfy` the arithmetic of
memory lines and of parts of a warp. `dafny verify dfyconfig.toml` checks everything.

## What the code does that one might not expect

* *Stray lanes.* If a lane leaves an inner divergent branch straight for the reconvergence point of the
  enclosing one, although the inner branch is to reconverge elsewhere, `update` drops it from its group and its
  PC is lost (`StrayLaneLosesItsPc` is a run); the lane itself is not (`NoLaneLost`). `LockstepExactly` shows
  that this is the only way the stack and the scalar threads can part. In programs without calls it cannot
  happen if every divergent branch reconverges at its immediate post-dominator (`PostDominatorsSuffice`).
* *Calls.* A call entry keeps its caller's lanes unless a branch in the callee's own entry diverges with the
  null reconvergence PC (`CallsMatchExactly`, and the run `CalleeLosesItsCaller`).
* *Kernels without room.* `front` marks a kernel as under way before `do_operation` asks whether it can start. If
  it cannot, nothing ever starts or completes it, and its stream stops for good (`KernelWithoutRoom`,
  `StuckForever`); `RoomExactly` says when that happens, and `AllServed` that everything completes if it
  does not and finished kernels are reported.
* *Unaligned accesses.* Coalescing records only the chunk of the first byte, so an access that crosses a
  chunk may be cut off. `ServedOnce` gives the exact condition, `UnalignedIsLost` a case. First fit for
  atomics is optimal if lanes use the same bytes or none in common, as aligned ones do, but not in general
  (`UnalignedNotOptimal`).
* *Function alignment.* The comment says that functions start on an aligned address, but the code adds the
  remainder instead of its complement. It is right only for remainders 0 and 4 (`AlignedExactly`), which are
  the only ones there are, because instructions have 4 or 8 bytes (`ImageConsistent`).
* *Trailing labels.* A branch to a label with no instruction behind it makes the assembler read past the code;
  the model reports `TrailingLabel` instead.
* *AES_enc* records the table index of every look-up; in the last round each is tied to one output byte and one
  key byte (`LastRoundHits`).

What the environment decides is a parameter: lanes that have exited, their next PCs and the reconvergence PC
of an instruction; the source line of an instruction; the uid that `finished_kernel` returns, whether a kernel
can start and whether the instruction limit is hit.

## Model

| member | source | states |
|---|---|---|
| SimtStacks.SimtStack.Launch | gpgpusim_secure/src/abstract_hardware_model.cc:677-686 | the stack is one entry at the start PC with the launch mask, whatever was there before |
| SimtStacks.SimtStack.GroupByNextPc | gpgpusim_secure/src/abstract_hardware_model.cc:748-780 | the loops over lanes split the live lanes exactly by next PC; exited lanes are in no group |
| SimtStacks.SimtStack.Update | gpgpusim_secure/src/abstract_hardware_model.cc:734-869 | the in-place loop leaves the stack that the case-by-case step function `Updated` describes: pop, call, return, move on, reconverge, diverge; the rows from `EntriesAfter` to `CallReturned` say what that stack is without it |
| SimtEntries.EntriesAfter | gpgpusim_secure/src/abstract_hardware_model.cc:748-863 | unless a callee returns, everything below the top entry stays; the top entry is replaced by entries that each hold exactly the live lanes with one next PC, none of them at its own reconvergence point, above the old entry if that waits for them or makes a call |
| SimtEntries.ReturnEntries | gpgpusim_secure/src/abstract_hardware_model.cc:812-826 | a return pops the callee and resumes its caller where the lanes go on, or pops the caller too if it reconverges there |
| SimtEntries.ServiceOrder | gpgpusim_secure/src/abstract_hardware_model.cc:783-800 | of the two groups of a branch the fall-through lanes wait below the others, or else those at the lesser PC |
| SimtEntries.RunLeavesNoneAtRecvg | gpgpusim_secure/src/abstract_hardware_model.cc:816-858 | in every state of every run, calls included, no entry stands at its own reconvergence point |
| SimtProgress.ExitedIsPopped | gpgpusim_secure/src/abstract_hardware_model.cc:748-771 | an entry whose lanes have all exited is popped, and nothing else changes |
| SimtProgress.ExecutesOrPops | gpgpusim_secure/src/abstract_hardware_model.cc:734-869 | a step advances exactly the lanes that execute by one instruction of their threads, or, if there are none, pops the top entry |
| SimtProgress.RunsEnd | gpgpusim_secure/src/abstract_hardware_model.cc:734-869 | no run is longer than twice the number of instructions of all threads plus one, whatever the branches, calls and reconvergence points are |
| SimtProgress.RunsDrain | gpgpusim_secure/src/abstract_hardware_model.cc:862-863 | once all threads have exited, the warp can step if and only if its stack is not empty, each step pops one entry, and it is empty after exactly as many steps as it had entries |
| SimtRejoin.Reconverged | gpgpusim_secure/src/abstract_hardware_model.cc:835-858 | when the stack is back to its height before a divergent branch, it is the stack of then with the top entry at the reconvergence point: all its lanes are together and no outer entry has changed |
| SimtRejoin.CallReturned | gpgpusim_secure/src/abstract_hardware_model.cc:802-826 | when the entries of a callee are gone, either all its lanes have exited and the caller is as it was, or they have returned and the caller goes on at their address |
| SimtRefinement.UpdateKeepsInv | gpgpusim_secure/src/abstract_hardware_model.cc:734-869 | every step keeps the invariant: an entry that waits for reconvergence has an ancestor at that PC with all its live lanes and nothing in between; a call entry's live lanes cover its caller's |
| SimtRefinement.UpdatedPc | gpgpusim_secure/src/abstract_hardware_model.cc:734-869 | where one step leaves each live lane: at its own next PC, unless it strays, and lanes that did not execute stay put |
| SimtRefinement.UpdateRefines | gpgpusim_secure/src/abstract_hardware_model.cc:734-869 | after a step the highest entry holding each live lane carries that lane's own PC if and only if no lane strays from a divergent branch to the enclosing reconvergence point |
| SimtRefinement.UpdateKeepsLanes | gpgpusim_secure/src/abstract_hardware_model.cc:802-863 | whatever a step does, a lane that was on the stack and has not exited is on it afterwards, through the double pop of a return and through a stray branch |
| SimtExamples.StrayLaneLosesItsPc | gpgpusim_secure/src/abstract_hardware_model.cc:835-848 | a run of three steps from a launch at whose end a lane strays: its thread is at 100, but the highest entry that holds it waits at 60 |
| SimtExamples.CalleeLosesItsCaller | gpgpusim_secure/src/abstract_hardware_model.cc:802-863 | a run of two steps from a launch, a call and a branch without reconvergence PC, after which the call entry no longer holds its caller's lanes |
| SimtRefinement.CallLanesMatch | gpgpusim_secure/src/abstract_hardware_model.cc:802-826 | a call entry and the entry below it keep the same live lanes, if and only if no branch diverges in the callee's own entry without a reconvergence PC |
| SimtRun.LockstepExactly | gpgpusim_secure/src/abstract_hardware_model.cc:734-869 | over a whole run from `launch`, stack and scalar threads agree in every state if and only if no step lets a lane stray |
| SimtRun.NoLaneLost | gpgpusim_secure/src/abstract_hardware_model.cc:862-863 | on every run, strays or not, each launched lane that has not exited is in some mask, so the stack is empty only when all launched lanes have exited |
| SimtRun.WarpSimulatesThreads | gpgpusim_secure/src/abstract_hardware_model.cc:891-910 | while no lane strays, each issued instruction is the next one of every lane that executes it, and every live lane is held at its own PC |
| SimtRun.CallsMatchExactly | gpgpusim_secure/src/abstract_hardware_model.cc:802-826 | over a whole run, call entries always hold exactly their caller's live lanes if and only if no step diverges in a callee's own entry without a reconvergence PC |
| SimtProgram.JumpsToImmediate | gpgpusim_secure/src/abstract_hardware_model.cc:839-848 | if a strict post-dominator of a branch is one of its targets, it is the immediate post-dominator |
| SimtProgram.PostDominatorsSuffice | gpgpusim_secure/src/abstract_hardware_model.cc:734-869 | for a program without calls whose threads follow a control-flow graph: if every divergent branch reconverges at its immediate post-dominator, no lane strays on any run, and stack and threads agree in every state |
| SimtDepth.LaminarBound | gpgpusim_secure/src/abstract_hardware_model.cc:828-863 | a laminar family of distinct non-empty lane sets within n lanes has at most 2n - 1 members |
| SimtDepth.StepKeepsLayers | gpgpusim_secure/src/abstract_hardware_model.cc:802-863 | every step, calls and returns included, keeps the masks from one call entry to the next laminar and non-empty |
| SimtDepth.DepthWithCalls | gpgpusim_secure/src/abstract_hardware_model.cc:677-686 | on every run, with c call entries on the stack it holds at most (c + 1) * (2 * warpSize - 1) entries |
| SimtDepth.StepKeepsNested | gpgpusim_secure/src/abstract_hardware_model.cc:828-863 | without calls a step keeps the masks a laminar family of distinct non-empty sets |
| SimtDepth.DepthBound | gpgpusim_secure/src/abstract_hardware_model.cc:677-686 | on every run without calls the stack never holds more than 2 * warpSize - 1 entries |
| WarpInsts.WarpInst.ReduceAndSend | gpgpusim_secure/src/abstract_hardware_model.cc:574-628 | appends exactly one access: the transaction's block, halved while one half is unused, with the direction, space, lanes and bytes it stands for |
| WarpInsts.WarpInst.MemoryCoalescing | gpgpusim_secure/src/abstract_hardware_model.cc:401-497 | if coalescing is disabled, at this line in dynamic mode or else throughout, every lane sends each block it touches by itself and whole, which is one access for each active lane of a global instruction; in every other case every subwarp sends each block it touches once, shrunk as far as it goes; also across subwarps without active lanes |
| CoalescingOutcome.CoalescedByRanges | gpgpusim_secure/src/abstract_hardware_model.cc:420-496 | both modes cut the warp into ranges of lanes, single lanes or subwarps; each range sends exactly one access for each block it touches, in address order, for exactly the lanes and bytes that ask for it, with the instruction's direction and space |
| CoalescingOutcome.PiecesAddUp | gpgpusim_secure/src/abstract_hardware_model.cc:437-450 | global accesses are not split; local ones are, into words of four bytes that add up to the data |
| CoalescingTheory.CollectExact | gpgpusim_secure/src/abstract_hardware_model.cc:445-471 | the transactions do not depend on the order of lanes: one for each block, with exactly the chunks, bytes and lanes of its sub-accesses |
| CoalescingTheory.ReducedCovers | gpgpusim_secure/src/abstract_hardware_model.cc:574-628 | the emitted access is a block of 32, 64 or 128 bytes, aligned, inside the segment, covering every touched chunk |
| CoalescingTheory.ReducedMinimal | gpgpusim_secure/src/abstract_hardware_model.cc:574-628 | no smaller aligned block covers the touched chunks, and no other one of the same size |
| CoalescingCoverage.ServesExactly | gpgpusim_secure/src/abstract_hardware_model.cc:457-457 | an access covers a sub-access if and only if it stays in one 32-byte chunk or other lanes keep the access wide enough |
| CoalescingCoverage.ServedOnce | gpgpusim_secure/src/abstract_hardware_model.cc:415-496 | each sub-access of each active lane is served by exactly one access of the whole warp: always without coalescing, otherwise if and only if it stays in a chunk or is widened |
| CoalescingCoverage.AlignedServedOnce | gpgpusim_secure/src/abstract_hardware_model.cc:415-496 | naturally aligned accesses are served exactly once in both modes |
| CoalescingCoverage.UnalignedIsLost | gpgpusim_secure/src/abstract_hardware_model.cc:457-457 | 16 bytes at address 24: no access serves the lane |
| CoalescingModes.ModesTouchTheSame | gpgpusim_secure/src/abstract_hardware_model.cc:420-496 | with and without coalescing the accesses mark exactly the bytes the active lanes ask for and name exactly the active lanes |
| CoalescingModes.SecureCount | gpgpusim_secure/src/abstract_hardware_model.cc:420-496 | coalescing never sends more accesses than the secure mode, which sends exactly one for each active lane of a global access, whatever the addresses |
| AtomicCoalescing.PlaceLane | gpgpusim_secure/src/abstract_hardware_model.cc:524-553 | the search and the bit loops put the lane in the first transaction of its block without a common byte, or in a new one |
| WarpInsts.WarpInst.CoalesceAtomic | gpgpusim_secure/src/abstract_hardware_model.cc:499-572 | names each active lane in exactly one new access; each access is for lanes of one half-warp in one block and for exactly their bytes, and they go by half-warps and ascending blocks |
| AtomicTheory.ListGrouped | gpgpusim_secure/src/abstract_hardware_model.cc:513-553 | the transactions of a block are a partition of its lanes into groups without common bytes |
| AtomicTheory.FirstFitCount | gpgpusim_secure/src/abstract_hardware_model.cc:513-553 | if no two lanes overlap in part, a block gets exactly as many transactions as there are lanes at its most contended address |
| AtomicTheory.FirstFitOptimal | gpgpusim_secure/src/abstract_hardware_model.cc:513-553 | if no two lanes overlap in part, no way to serve a block without byte conflicts takes fewer transactions than first fit |
| AtomicTheory.AlignedNoPartialOverlap | gpgpusim_secure/src/abstract_hardware_model.cc:513-553 | naturally aligned lanes never overlap in part |
| AtomicTheory.UnalignedNotOptimal | gpgpusim_secure/src/abstract_hardware_model.cc:513-553 | partial overlaps matter: four words at 0, 9, 3, 6 fit in two transactions but first fit takes three |
| AtomicWarp.AtomicLanesOnce | gpgpusim_secure/src/abstract_hardware_model.cc:499-572 | each active lane is named by exactly one access of the warp |
| AtomicWarp.AtomicBytesApart | gpgpusim_secure/src/abstract_hardware_model.cc:499-572 | the bytes of two lanes of one access never overlap |
| AtomicWarp.AtomicServed | gpgpusim_secure/src/abstract_hardware_model.cc:499-572 | the access that names a lane covers its bytes if and only if they lie in one 32-byte chunk or another lane of the access keeps it wide enough; aligned lanes always |
| AtomicWarp.HalfCount | gpgpusim_secure/src/abstract_hardware_model.cc:555-571 | if no two lanes of a half-warp overlap in part, its number of accesses is the sum over its blocks of the greatest contention at one address |
| SharedMemory.CountLanes | gpgpusim_secure/src/abstract_hardware_model.cc:274-287 | the counts for each bank and word are those of the active lanes of the subwarp |
| SharedMemory.DetectBroadcast | gpgpusim_secure/src/abstract_hardware_model.cc:289-312 | the nested search finds the first bank, and in it the first word, accessed more than once, or none |
| SharedMemory.BankConflicts | gpgpusim_secure/src/abstract_hardware_model.cc:269-349 | the loops compute the sum over subwarps of the cost of the most expensive bank, in either broadcast mode |
| SharedMemoryLanes.SubwarpCostIs | gpgpusim_secure/src/abstract_hardware_model.cc:314-348 | a subwarp costs as much as its most expensive bank, in terms of lanes: one access for each word with full broadcast; one for each lane with limited broadcast, except that the lanes of the broadcast word share one |
| SharedMemoryLanes.DetectedIsBroadcast | gpgpusim_secure/src/abstract_hardware_model.cc:289-312 | the broadcast word is the least word wanted by two lanes in the least such bank, and there is none only if no two lanes want one word |
| SharedMemoryLanes.OneWordForAll | gpgpusim_secure/src/abstract_hardware_model.cc:269-349 | lanes that all want one word cost one access in both modes |
| SharedMemoryLanes.ConsecutiveWords | gpgpusim_secure/src/abstract_hardware_model.cc:269-349 | consecutive words, no more than there are banks, cost one access in both modes |
| SharedMemoryLanes.SameBankStride | gpgpusim_secure/src/abstract_hardware_model.cc:269-349 | words a multiple of the number of banks apart cost one access for each active lane in both modes |
| SharedMemoryBounds.SingleAccess | gpgpusim_secure/src/abstract_hardware_model.cc:337-348 | with full broadcast a subwarp takes a single access if and only if no two lanes want different words of one bank |
| SharedMemoryBounds.BankBounds | gpgpusim_secure/src/abstract_hardware_model.cc:314-348 | for every bank in use: 1 <= number of distinct words = cost with full broadcast <= cost with limited broadcast <= number of lanes |
| SharedMemoryBounds.TotalBounds | gpgpusim_secure/src/abstract_hardware_model.cc:350-350 | the source's assertion and more: 1 <= full-broadcast total <= limited-broadcast total <= active lanes |
| AesTheory.InvMixOfMix | AES_gpgpusim/aes.c:53-65 | InvMixColumns undoes MixColumns on every column |
| AesTheory.MixOfInvMix | AES_gpgpusim/aes.c:53-65 | MixColumns undoes InvMixColumns on every column |
| AesTheory.InvMixColumnAdd | AES_gpgpusim/aes.c:866-884 | InvMixColumns is linear over xor, which is why it may be applied to the round keys |
| AesTheory.EqInvCipherIsInvCipher | AES_gpgpusim/aes.c:866-884 | the equivalent inverse cipher on the transformed schedule is the inverse cipher on the original one (FIPS 197 section 5.3.5) |
| AesTheory.DecryptAfterEncrypt | AES_gpgpusim/aes.c:1140-1325 | the inverse cipher undoes the cipher for every block, schedule and pair of inverse boxes |
| AesTheory.EncryptAfterDecrypt | AES_gpgpusim/aes.c:1331-1516 | the cipher undoes the inverse cipher |
| AesTables.ShiftRowsMoves | AES_gpgpusim/aes.c:1239-1262 | byte (r, c) after ShiftRows is byte (r, c + r mod 4) before it, and InvShiftRows takes it back |
| AesTables.XTimeReduces | AES_gpgpusim/aes.c:53-65 | the doubling behind all table formulas is multiplication by x modulo x^8 + x^4 + x^3 + x + 1 |
| AesTables.MixIsMatrix | AES_gpgpusim/aes.c:53-58 | MixColumns is the circulant matrix 02 03 01 01 over GF(2^8) with the product defined from x^8 + x^4 + x^3 + x + 1 |
| AesTables.InvMixIsMatrix | AES_gpgpusim/aes.c:59-65 | InvMixColumns is the matrix 0e 0b 0d 09 |
| AesTables.EncryptionEntries | AES_gpgpusim/aes.c:67-333 | with the first entries of the S-box the formulas give the literal first entries of Te0 to Te4 |
| AesTables.DecryptionEntries | AES_gpgpusim/aes.c:398-664 | likewise for Td0 to Td4 |
| AesWords.IndexInTable | AES_gpgpusim/aes.c:1239-1262 | the unmasked index `w >> 24` stays within the 256-entry table exactly for words below 2^32 |
| AesWords.EncWordIsRound | AES_gpgpusim/aes.c:1239-1262 | four Te look-ups and the key word are one column of SubBytes, ShiftRows, MixColumns and AddRoundKey |
| AesWords.DecWordIsRound | AES_gpgpusim/aes.c:1430-1460 | four Td look-ups and the key word are one column of an equivalent inverse round |
| AesWords.LastWordIsRound | AES_gpgpusim/aes.c:1295-1324 | the masked Te4 look-ups are one column of the last round, without MixColumns |
| AesWords.ScheduleWord | AES_gpgpusim/aes.c:762-834 | the word operations of the expansion are the recurrence of FIPS 197 section 5.2 for 4, 6 and 8 key words |
| AesWords.InvMixWordIsInvMixColumn | AES_gpgpusim/aes.c:865-884 | `Td[Te4[..] & 0xff]` computes InvMixColumns of a key word, because the boxes are inverse |
| AesKeySchedule.SetEncryptKey | AES_gpgpusim/aes.c:738-834 | fills words 0..4(Nr+1)-1 with the FIPS 197 section 5.2 expansion for 128, 192 and 256 bits and leaves the others; -1 for null, -2 for other sizes, key untouched then |
| AesKeySchedule.ScheduleIsExpandedKey | AES_gpgpusim/aes.c:738-834 | those words, read as round keys, are the FIPS 197 key schedule |
| AesKeySchedule.ReverseRounds | AES_gpgpusim/aes.c:852-858 | the swap loop reverses the order of the round keys in place |
| AesKeySchedule.MixInnerRounds | AES_gpgpusim/aes.c:859-884 | the moving-pointer loop applies InvMixColumns to every round key but the first and last |
| AesKeySchedule.SetDecryptKey | AES_gpgpusim/aes.c:839-885 | builds exactly the schedule of the equivalent inverse cipher; same error results |
| AesCipher.Encrypt | AES_gpgpusim/aes.c:1140-1325 | the two-rounds-per-iteration loop computes the FIPS 197 section 5.1 cipher of the old input, for 10, 12 and 14 rounds and any overlap of the buffers, and writes nothing else |
| AesCipher.Decrypt | AES_gpgpusim/aes.c:1331-1516 | likewise the equivalent inverse cipher |
| AesCipher.EncryptRecording | AES_gpgpusim/aes.c:899-1134 | the same ciphertext as `Encrypt`, and hits[16r + k] is the table index of look-up k in round r; other entries are untouched; the hits may share a buffer with the input, or with the output outside the output block |
| AesCipher.LastRoundHits | AES_gpgpusim/aes.c:1090-1134 | out[k] = S[hits[16(Nr-1) + k]] xor byte k of the last round key |
| AesCipher.DecryptInvertsEncrypt | AES_gpgpusim/aes.c:1331-1516 | for every key of every size and every block, AES_decrypt under its schedule undoes AES_encrypt under its own, and the other way round |
| AesCipher.EncryptDecrypt | AES_gpgpusim/aes.c:839-885 | the same through memory: both key set-ups, encryption in place and decryption in place give the block back |
| ByteKeySchedule.KeyExpand | AES_gpgpusim/aes-op.cpp:140-178 | fills all eleven rows with the forward schedule of the key |
| ByteKeySchedule.InvKeyExpand | AES_gpgpusim/aes-op.cpp:194-239 | computes row 0 of the backwards schedule from the last round key |
| ByteKeySchedule.PrevOfNext | AES_gpgpusim/aes-op.cpp:194-239 | one backwards step undoes one forward step, and the reverse, for any byte substitution |
| ByteKeySchedule.BackwardsScheduleInverts | AES_gpgpusim/aes-op.cpp:140-239 | inv_key_expand of round key 10 of key_expand(k) is k, and every block r is round key 10 of the key inv_key_expand finds for it |
| ByteKeySchedule.SchedulesAgree | AES_gpgpusim/aes-op.cpp:148-176 | row i is round key i of the FIPS 197 expansion of the key |
| ByteKeySchedule.RowsAreWords | AES_gpgpusim/aes-op.cpp:148-176 | column j of row i, packed big-endian, is word 4i + j that AES_set_encrypt_key leaves in rd_key for the same 128-bit key |
| StreamManagers.CUstream.Push | gpgpusim_secure/src/stream_manager.cc:69-75 | appends to the queue and nothing else |
| StreamManagers.CUstream.RecordNextDone | gpgpusim_secure/src/stream_manager.cc:77-85 | pops the front of a started stream and clears the pending flag |
| StreamManagers.StreamManager.Accept | gpgpusim_secure/src/stream_manager.cc:387-404 | appends the operation to the queue of the stream it names, or, if it names none or launches block, to that of stream zero as one of its own, and touches no other stream; nothing changes when the limit is hit |
| StreamManagers.StreamManager.NextOperation | gpgpusim_secure/src/stream_manager.cc:258-291 | stream zero is served from the moment all concurrent streams are empty until it is empty itself, otherwise the first concurrent stream that is idle and has work; its front operation gets under way, a kernel in the grid map; a no-op only if there is none to start |
| StreamService.FrontServes | gpgpusim_secure/src/stream_manager.cc:258-291 | the same of the abstract machine, in terms of its queues |
| StreamManagers.StreamManager.DoOperation | gpgpusim_secure/src/stream_manager.cc:114-185 | copies, events and functionally simulated kernels complete at the front of their stream; a timed kernel enters the simulator if there is room; a kernel without room changes nothing |
| StreamManagers.StreamManager.RegisterFinishedKernel | gpgpusim_secure/src/stream_manager.cc:222-237 | pops the front of the stream that the grid map names, clears its pending flag and erases the entry; no other stream changes |
| StreamManagers.StreamManager.AddStream | gpgpusim_secure/src/stream_manager.cc:293-299 | appends the stream to the end of the list |
| StreamManagers.StreamManager.DestroyStream | gpgpusim_secure/src/stream_manager.cc:301-316 | removes exactly that drained stream from the list |
| StreamManagers.StreamManager.Operation | gpgpusim_secure/src/stream_manager.cc:200-211 | one turn of the GPU thread: register, choose, perform, as the abstract step |
| StreamInvariant.AcceptKeepsInv | gpgpusim_secure/src/stream_manager.cc:375-417 | a host push keeps the protocol invariant |
| StreamInvariant.RegisterKeepsInv | gpgpusim_secure/src/stream_manager.cc:222-237 | a finished kernel always passes the checks, and registering it keeps the invariant |
| StreamInvariant.ServiceKeepsInv | gpgpusim_secure/src/stream_manager.cc:258-291 | choosing and performing an operation keeps the invariant, and the assertions of do_operation hold |
| StreamInvariant.StepKeepsInv | gpgpusim_secure/src/stream_manager.cc:200-316 | every critical section, in any order, keeps the invariant |
| StreamInvariant.StepExtendsHistories | gpgpusim_secure/src/stream_manager.cc:69-85 | what was pushed or completed on a stream stays so: histories only grow |
| StreamInvariant.RunsAreSafe | gpgpusim_secure/src/stream_manager.cc:258-291 | in every state of every run: a stream-zero operation in flight excludes all others; completed operations are a prefix of the pushed ones and the queue is the rest; queued operations name their stream; the grid map holds exactly the kernels in flight, so every finished kernel can be registered |
| StreamService.AllServed | gpgpusim_secure/src/stream_manager.cc:200-291 | if every kernel finds room and finished kernels are reported, every queued operation completes within four rounds of service each, plus one |
| StreamService.RoomExactly | gpgpusim_secure/src/stream_manager.cc:153-162 | all kernels under way stay inside the simulator if and only if none is chosen while there is no room; one that is, is stuck |
| StreamService.StuckForever | gpgpusim_secure/src/stream_manager.cc:153-162 | a stuck kernel stays in front of its stream in every later state, and the stream completes nothing more |
| StreamService.KernelWithoutRoom | gpgpusim_secure/src/stream_manager.cc:153-162 | a run of two steps that ends with a stuck kernel |
| Assembler.FunctionInfo.Assemble | gpgpusim_secure/src/cuda-sim/cuda-sim.cc:184-243 | the loops produce the layout `Assembled`, the instruction buffer, the PCs and the label addresses, or report the first label that does not resolve; a second call changes nothing |
| Assembler.FunctionInfo.CodeFound | gpgpusim_secure/src/cuda-sim/cuda-sim.cc:205-227 | after the first loop each instruction is in the function's buffer at PC - m_start_PC, and its PC is recorded |
| Assembler.FunctionInfo.LabelFound | gpgpusim_secure/src/cuda-sim/cuda-sim.cc:208-211 | the recorded label offset decides the resolution: absent if the label is missing, the end of the code if nothing follows its last definition, else the offset of the next instruction |
| Layout.OffsetFits | gpgpusim_secure/src/cuda-sim/cuda-sim.cc:190-194 | the layout never overruns the buffer of 8 * (instructions + 1) entries |
| Layout.AssemblesExactly | gpgpusim_secure/src/cuda-sim/cuda-sim.cc:229-243 | a function assembles if and only if the last definition of every label it branches to is followed by an instruction |
| Layout.FirstProblem | gpgpusim_secure/src/cuda-sim/cuda-sim.cc:229-243 | otherwise the report names the first branch that does not resolve, and tells a label without definition from one without an instruction behind it |
| Layout.AlignedExactly | gpgpusim_secure/src/cuda-sim/cuda-sim.cc:199-203 | the padding aligns a start address if and only if the remainder modulo 8 is 0 or 4 |
| Layout.ImageConsistent | gpgpusim_secure/src/cuda-sim/cuda-sim.cc:196-228 | after any sequence of functions the table has one slot for each address below the next PC, and the next function starts aligned |
| Layout.RangesDisjoint | gpgpusim_secure/src/cuda-sim/cuda-sim.cc:196-228 | functions occupy disjoint address ranges |
| Layout.FoundAtItsPc | gpgpusim_secure/src/cuda-sim/cuda-sim.cc:205-227 | the table entry at an address is instruction k of function f if and only if that address is its PC |
| GenericAddress.SharedRoundTrip | gpgpusim_secure/src/cuda-sim/cuda-sim.cc:284-324 | shared-to-generic and generic-to-shared are inverse to each other for legal multiprocessors, and the address is classified as shared |
| GenericAddress.LocalRoundTrip | gpgpusim_secure/src/cuda-sim/cuda-sim.cc:326-345 | the same for the local window of each thread |
| GenericAddress.SharedTiles | gpgpusim_secure/src/cuda-sim/cuda-sim.cc:295-318 | an address is in the shared window of one multiprocessor only, if it is a shared address, and in none otherwise |
| GenericAddress.LocalTiles | gpgpusim_secure/src/cuda-sim/cuda-sim.cc:332-339 | likewise for the local windows; whichspace and isspace_global agree |
| GenericAddress.LocalOwner | gpgpusim_secure/src/abstract_hardware_model.h:341-352 | every local address belongs to a legal thread of a legal multiprocessor |

## Left out

- Sub-accesses that cross a segment: the source asserts that there are none, and `Coalescing.Valid` requires it, together with addresses below 2^32.
- The texture and constant path of generate_mem_accesses, where all accesses share one byte mask.
- The reconvergence points: the dominator and post-dominator analysis is not part of this model. They are inputs, and `SimtProgram` states what they have to be.
- SimtProgram.PostDominatorsSuffice: covers programs without calls, because in a callee the reconvergence PC of a branch may be the return address, which lies in another function's graph.
- The divergence cycle of a stack entry.
- AesCipher.EncryptRecording: requires that the hit entries do not overlap the 16 output bytes; where they do, the last-round entries overwrite ciphertext that is already stored.
- StreamManagers.StreamManager.DestroyStream: requires a drained stream, because on another one the source waits for it in a loop while it holds the lock that the GPU thread needs to drain it.
- Streams: fairness between concurrent streams. `AllServed` bounds the service of what is queued while nothing is pushed.
- The waiting loops of push, and stop_all_running_kernels; a push is its critical section.
- The literal S-box and T tables beyond their first entries: any inverse pair of boxes stands for the former, the formula in the comment for the latter.
- The FULL_UNROLL variants and the other macro branches of aes.c.
- shift_rows_full and inv_shift_rows of aes-op.cpp: the first overwrites bytes before reading them and the second never wraps columns, so neither is the FIPS 197 permutation, and nothing is claimed of them.
- Wrap-around of the program counter while assembling more than 2^32 bytes of code.
- Multiprocessor and thread numbers outside the configured ranges, for which address windows overlap other regions.
- Printing, statistics and cycle counters.
