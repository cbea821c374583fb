# Spacer verification

A Dafny model of the parts of Spacer on which its memory sharing rests, with proofs of what they promise.

- **Merger** (`DksmModel`, `DksmEngine`, `DksmVisit`, `DksmTable`, `DksmExact`, `DksmRuns`, `DksmTheorems`, `DksmPlain`,
  `DksmReuse`, `DksmSharing`): the kernel's daemonless same-page merger. Frames with reference counts, the page tables
  of many processes, the table of descriptors (which hold no reference, so a frame may be freed and reused behind them).
  The walk callback with its bucket loop is a class proved equal to one function; runs interleave advertisements, stops,
  mappings, sharing, unmapping, writes and pins in any order. Checksum and bucket hash are parameters: every result
  holds for any choice, so also with collisions. `DksmPlain` compares the machine with a memory of virtual pages that
  has contents and protections of its own and never looks at the machine.
- **Binary rewriter** (`Bytes`, `RewriterModel`, `RewriterPieces`, `RewriterEmitter`, `X86`, `RewriterMeaning`,
  `RewriterSimulation`, `RewriterJumpBack`, `RewriterJumps`, `RewriterIdentity`, `RewriterExamples`): the pass that
  replaces address-dependent instructions by branches into an indirection section. Its meaning is given by a machine
  with fetch, stack and branches in which every other instruction is a parameter.
- **Flag advice** (`MadviseModel`, `MadviseWalk`): the walk of `madvise` over memory areas with merging and splitting.
- **Layout** (`LayoutModel`, `LayoutOrder`, `LayoutPlan`, `LayoutOnce`, `LayoutTight`, `LayoutManager`): the aligner's
  allocator of section addresses.
- **Minimised file and loader** (`Utf8`, `Format`, `FormatBytes`, `FormatTheorems`, `LoaderModel`, `Loader`,
  `Delivery`): the file written by the aligner and read by the monitor, and the guest image built from it and from the
  pool of shared objects.
- **Monitor parts** (`FindFreq`, `Bus`, `MergePatch`, `Uri`, `Rings`, `IoUring`, `Init`).

Code that changes state is a class or a loop proved against a function; the theorems are about these functions and about
all runs of them. Definitions that several theorems rest on are also told in other terms, by the fields, bytes and
offsets of the source (`DksmExact`, `RewriterPieces`, `FormatBytes`, `LayoutTight`). Where a promise fails for some
inputs, the lemma states the exact condition:

- a jump-back site runs in place exactly when it is the first user of its key (`JumpBackExactly`); two equal pushes
  never get past the second one (`SecondPushNeverLeft`);
- rewriting makes texts equal exactly when each differing byte lies in an eligible instruction of five bytes or more
  (`RewritingMakesIdentical`, with a short jump as the counterexample `ShortDifferenceStays` and a move of seven bytes
  as the example `LongDifferenceGoes`);
- a rewritten five-byte jump arrives at its target with one more return address on the stack (`JumpBecomesCall`);
- the merged machine stays plain memory, at every point and after any write, exactly when the run is quiet
  (`QuietRunExactly`): new pages get free frames, and each merge is safe and keeps the protection of the entry it moves.
  Safe means that no other page maps the frame merged into writable, nor at all if the moved entry becomes writable.
  Neither follows from the code. Descriptors hold no reference and the page allocator does not ask the merger: in
  `ReuseLeaksWrites` a tracked frame is freed, mapped writable and merged into, and one process then reads what another
  writes. The moved entry gets the protection of its area: in `DemotionRefusesWrite` a writable page merged with its own
  frame refuses the next write;
- code is page-aligned exactly when the start address is (`LayoutSound`);
- the minimised file survives exactly for ASCII section names: the writer records the length of a name in characters,
  the reader takes that many bytes (`RoundTrip`, `AccentLost`);
- a bus range is judged rightly on every bus exactly when its end does not wrap (`JudgedRightly`);
- a path is collapsed exactly when it is shorter than the loop's first bound or needs no change (`SanitizeUri`).

## Model

| member | source | states |
|---|---|---|
| `DksmEngine.Dksm.constructor` | DKSM/linux-5.15.74/mm/dksm.c:450-475 | a fresh merger has an empty table of fixed size, zero counters and is stopped |
| `DksmEngine.Dksm.ReplacePage` | DKSM/linux-5.15.74/mm/dksm.c:54-109 | moves one page table entry to the kept frame with its reference, exactly when an address is located and its entry equals the one visited; otherwise changes nothing |
| `DksmEngine.Dksm.RemoveDescriptor` | DKSM/linux-5.15.74/mm/dksm.c:111-116 | takes exactly one descriptor out of its bucket and counts it |
| `DksmEngine.Dksm.Examine` | DKSM/linux-5.15.74/mm/dksm.c:183-235 | the verdict on one descriptor (skip, drop, refuse, merge) and that every reference taken is given back on every path |
| `DksmEngine.Dksm.ScanOne` | DKSM/linux-5.15.74/mm/dksm.c:183-235 | one turn of the loop that deletes while iterating |
| `DksmEngine.Dksm.ScanBucket` | DKSM/linux-5.15.74/mm/dksm.c:181-235 | the whole loop leaves the bucket without its stale descriptors up to the first merge, with the entry moved if there was one |
| `DksmEngine.Dksm.PageCmpAndMerge` | DKSM/linux-5.15.74/mm/dksm.c:118-246 | the callback equals `Visit` on the whole machine; it hashes exactly present user pages of small anonymous frames, merges exactly when a descriptor of equal content exists and the entry can be moved, counts any other page as failed and changes no other entry |
| `DksmEngine.Dksm.RunStore` | DKSM/linux-5.15.74/mm/dksm.c:268-307 | stopping empties the table and zeroes the counters, starting changes nothing else, anything but 0 and 1 is refused, and afterwards the merger runs exactly if 1 was written |
| `DksmEngine.Dksm.Madvise` | DKSM/linux-5.15.74/mm/dksm.c:388-448 | walking an area is the run of its slots up to the first failure |
| `DksmModel.JudgeMeaning` | DKSM/linux-5.15.74/mm/dksm.c:190-231 | a descriptor is merged into only when its frame is live and holds exactly the page's content, whatever the checksum says |
| `DksmModel.PartialStep` | DKSM/linux-5.15.74/mm/dksm.c:183-235 | what one more descriptor does to the half-purged bucket |
| `DksmModel.ScanningStep` | DKSM/linux-5.15.74/mm/dksm.c:183-235 | the cursor stays put on a deletion and advances otherwise, and counters follow |
| `DksmModel.TurnAdvances` | DKSM/linux-5.15.74/mm/dksm.c:183-235 | a turn leads from the scan at one position to the scan at the next, or to the merge |
| `DksmVisit.RetargetConserves` | DKSM/linux-5.15.74/mm/dksm.c:89-101 | moving an entry keeps every reference count equal to mappings plus pins |
| `DksmVisit.VisitTransparent` | DKSM/linux-5.15.74/mm/dksm.c:118-246 | one visit keeps reference conservation, what every process reads everywhere, and revives no frame |
| `DksmVisit.MergeFrees` | DKSM/linux-5.15.74/mm/dksm.c:89-101 | a merge frees a frame exactly when the moved entry was its only mapping, it is not pinned and not the frame merged into |
| `DksmTable.VisitTable` | DKSM/linux-5.15.74/mm/dksm.c:181-243 | after a visit the table holds only descriptors it held before and the new one |
| `DksmTable.VisitCounts` | DKSM/linux-5.15.74/mm/dksm.c:181-243 | the size counter moves with the number of descriptors; refused pages only count as failed |
| `DksmExact.RefusedVisit` | DKSM/linux-5.15.74/mm/dksm.c:136-174 | the visit of an absent, non-user, non-anonymous or huge page, or without memory for a descriptor, only counts a failure |
| `DksmExact.HashedExactly` | DKSM/linux-5.15.74/mm/dksm.c:136-181 | every other page is scanned |
| `DksmExact.OthersStay` | DKSM/linux-5.15.74/mm/dksm.c:54-167 | whatever address is located, no visit changes an entry that is not user or whose frame is huge or not anonymous |
| `DksmExact.MergesExactly` | DKSM/linux-5.15.74/mm/dksm.c:136-231 | a visit merges if and only if the page is taken, the entry located equals the one visited and a descriptor in its bucket has the content; it goes to the first such, moving one entry and one reference and nothing else |
| `DksmExact.PurgeExactly` | DKSM/linux-5.15.74/mm/dksm.c:184-208 | purging takes out exactly the descriptors under the checksum whose frame was freed or changed, and keeps the order of the others |
| `DksmExact.TableExactly` | DKSM/linux-5.15.74/mm/dksm.c:176-243 | without a merge the purged bucket gets the new descriptor at its head and each refused replacement counts as failed; with a merge the bucket is purged up to the twin |
| `DksmRuns.StepKeepsInv` | DKSM/linux-5.15.74/mm/dksm.c:54-246 | every event keeps the references conserved and every present entry on a live frame |
| `DksmRuns.PinUndone` | DKSM/linux-5.15.74/mm/dksm.c:190-203 | a reference taken from outside and given back leaves the machine as it was |
| `DksmRuns.Run` | DKSM/linux-5.15.74/mm/dksm.c:118-448 | so does every run |
| `DksmTheorems.MergerStepsInvisible` | DKSM/linux-5.15.74/mm/dksm.c:190-231 | in every run, stale descriptors included, no step of the merger changes what any process reads |
| `DksmTheorems.MergeKeepsExclusive` | DKSM/linux-5.15.74/mm/dksm.c:54-109 | a visit leaves every writable frame with one mapping exactly when its merge, if any, is safe: no other page maps the frame merged into writable, nor at all if the moved entry becomes writable |
| `DksmTheorems.StepKeepsExclusive` | DKSM/linux-5.15.74/mm/dksm.c:118-246 | of all events, frames reused while still tracked included, only an unsafe merge ends the exclusiveness of writable frames |
| `DksmPlain.VisitInvisibleExactly` | DKSM/linux-5.15.74/mm/dksm.c:54-109 | a visit leaves contents and protections of every page as they were if and only if its merge, if any, keeps the protection of the entry it moves |
| `DksmPlain.StepFollowsExactly` | DKSM/linux-5.15.74/mm/dksm.c:118-246 | an event does to the machine what it does to plain memory if and only if a merge keeps the protection and a new page gets a free frame |
| `DksmPlain.MergingFollowsPlainMemory` | DKSM/linux-5.15.74/mm/dksm.c:54-246 | over every quiet run the machine equals the plain memory that saw the same events and knows nothing of frames, tracking or merging |
| `DksmPlain.WritesFollowExactly` | DKSM/linux-5.15.74/mm/dksm.c:54-109 | the next write of any process stays private if and only if writable frames are exclusive |
| `DksmPlain.SafeMergeExactly` | DKSM/linux-5.15.74/mm/dksm.c:118-246 | after a visit every write stays private if and only if its merge, if any, was safe |
| `DksmPlain.SafeRunExactly` | DKSM/linux-5.15.74/mm/dksm.c:54-246 | at every point of a run the next write would stay private if and only if all its merges are safe |
| `DksmPlain.QuietRunExactly` | DKSM/linux-5.15.74/mm/dksm.c:54-246 | at every point of a run the machine is plain memory, and would be after any write, if and only if the run is quiet |
| `DksmReuse.ReuseLeaksWrites` | DKSM/linux-5.15.74/mm/dksm.c:190-231 | a concrete run that offers only read-only pages, reuses a tracked frame writable and ends with a reader seeing the writer's bytes, against plain memory |
| `DksmReuse.DemotionRefusesWrite` | DKSM/linux-5.15.74/mm/dksm.c:89-95 | a concrete run whose merges are safe, after which a write that plain memory takes is refused, because the moved entry took the protection of its area |
| `DksmTheorems.StepAdds` | DKSM/linux-5.15.74/mm/dksm.c:181-243 | a step keeps pages scanned equal to pages merged plus descriptors added |
| `DksmTheorems.RunAccounts` | DKSM/linux-5.15.74/mm/dksm.c:287-304 | in every run the size counter is the number of descriptors, scanned is merged plus added since the last stop, and a stopped merger has no descriptor and zero counters |
| `DksmSharing.RunKeepsHashed` | DKSM/linux-5.15.74/mm/dksm.c:176-182 | in every run each descriptor sits in the bucket of its checksum |
| `DksmSharing.LookupMissesNothing` | DKSM/linux-5.15.74/mm/dksm.c:176-243 | looking in one bucket finds a twin exactly when a scan of all descriptors would |
| `DksmSharing.TrackingKeepsSharing` | DKSM/linux-5.15.74/mm/dksm.c:236-243 | a page that found no twin had new content, so recording it keeps contents and frames in step |
| `DksmSharing.MergingKeepsSharing` | DKSM/linux-5.15.74/mm/dksm.c:183-235 | a merge keeps all advertised pages of equal content on one frame |
| `DksmSharing.AgainKeepsSharing` | DKSM/linux-5.15.74/mm/dksm.c:183-243 | a page accepted before keeps its frame when offered again, whatever address `replace_page` finds |
| `DksmSharing.StepKeepsSharing` | DKSM/linux-5.15.74/mm/dksm.c:118-304 | so does every event: refused slots and advertisements while stopped change nothing, a stop forgets all pages |
| `DksmSharing.RunKeepsSharing` | DKSM/linux-5.15.74/mm/dksm.c:118-304 | so does every run in which newly accepted pages can be replaced and accepted ones are neither unmapped nor written |
| `DksmSharing.OneFramePerContent` | DKSM/linux-5.15.74/mm/dksm.c:176-243 | then frames in use are as many as distinct contents |
| `DksmSharing.OptimalSharing` | DKSM/linux-5.15.74/mm/dksm.c:176-243 | from an empty table, after any such run, whatever was refused and however often the merger stopped, two pages accepted since the last stop share a frame if and only if their contents are equal |
| `Bytes.LittleEndianRoundTrip` | firecracker/src/loader/src/binary.rs:16-29 | a number that fits its field is read back |
| `Bytes.FromLittleEndianRoundTrip` | firecracker/src/loader/src/binary.rs:16-29 | and every field is the writing of its number |
| `Bytes.LittleEndianAt` | firecracker/src/loader/src/binary.rs:16-29 | the byte at offset `i` of a field is the number divided by 256 to the `i`, modulo 256 |
| `Bytes.FromLittleEndianIsSum` | firecracker/src/loader/src/binary.rs:16-29 | the number read is the sum of its bytes weighted by these powers |
| `Bytes.Int32RoundTrip` | aligner/binary_utils.py:80-90 | a displacement that fits 32 signed bits is read back |
| `RewriterEmitter.SectionInd.AddInsBytes` | aligner/binary_utils.py:80-90 | appends the branch to the target from the current address, or fails when it does not fit |
| `RewriterEmitter.SectionInd.AddIndBytes` | aligner/binary_utils.py:108-141 | the trampoline of a five-byte instruction, by opcode |
| `RewriterEmitter.SectionInd.AddIndBytesBiggerJMP` | aligner/binary_utils.py:143-153 | the trampoline that jumps back, for moves to the stack pointer |
| `RewriterEmitter.SectionInd.AddIndBytesBigger` | aligner/binary_utils.py:155-165 | the trampoline that returns |
| `RewriterEmitter.Section.ProcessInstruction` | aligner/aslr/binary_rewriter_version.py:92-193 | one instruction: a trampoline on the first use of its key, the recorded one afterwards, and a site of the original length |
| `RewriterEmitter.Section.Disassemble` | aligner/aslr/binary_rewriter_version.py:195-248 | the loop over the section equals the functional pass, failures included; at every old offset stands a branch to the trampoline of the key, padded, if the instruction is eligible, has five bytes or more and a byte at a differing offset, and otherwise the instruction itself |
| `RewriterModel.TextLength` | aligner/aslr/binary_rewriter_version.py:195-248 | the rewritten text is as long as the original |
| `RewriterModel.SiteInText` | aligner/aslr/binary_rewriter_version.py:92-193 | every instruction stands at its old offset, unchanged or as a branch to its trampoline with padding |
| `RewriterModel.TrampolineInSection` | aligner/aslr/binary_rewriter_version.py:108-166 | the trampoline recorded for a key is in the section, emitted for an instruction with that key |
| `RewriterPieces.TrampolineLands` | aligner/binary_utils.py:108-165 | the bytes of a trampoline by opcode: calls and jumps go on to the instruction's target, a push of a constant and a move to the stack pointer run and jump five bytes past the start of their site, all others run and return |
| `RewriterPieces.PieceExactly` | aligner/aslr/binary_rewriter_version.py:92-193 | which instructions are replaced, by which opcode, that the branch leads to the trampoline and that the rest is padding |
| `RewriterPieces.UsesCounted` | aligner/aslr/binary_rewriter_version.py:108-166 | a key is recorded exactly if an instruction with it was rewritten, with the number of them |
| `RewriterMeaning.CallSite` | aligner/binary_utils.py:116-120 | a call through a trampoline pushes the original return address and reaches the original target |
| `RewriterMeaning.PlainSite` | aligner/binary_utils.py:155-165 | a site with a returning trampoline runs the instruction once and continues after the padding |
| `RewriterMeaning.JumpBackSite` | aligner/binary_utils.py:143-153 | a jump-back trampoline continues five bytes into the place it was emitted for |
| `RewriterSimulation.StepSimulated` | aligner/aslr/binary_rewriter_version.py:92-248 | every step of the original is matched by steps of the rewritten code to the same state |
| `RewriterSimulation.RewritingPreservesMeaning` | aligner/aslr/binary_rewriter_version.py:92-248 | along any run the rewritten code passes through the same states: registers, stack, memory and program counter, however many sites share a trampoline |
| `RewriterSimulation.RewritingAddsNothing` | aligner/aslr/binary_rewriter_version.py:92-248 | whatever state the rewritten code reaches lies on the way between two successive states of the original run, or after its last |
| `RewriterJumpBack.SharedJumpBackGoesToFirst` | aligner/aslr/binary_rewriter_version.py:139-193 | from a jump-back site exactly one state follows in three steps: the instruction done, control five bytes into the first instruction with the same key |
| `RewriterJumpBack.JumpBackExactly` | aligner/aslr/binary_rewriter_version.py:139-193 | a jump-back site runs its instruction and continues at itself if and only if it is the first user of its key, and then it is simulated |
| `RewriterJumps.JumpBecomesCall` | aligner/binary_utils.py:123-127 | from a rewritten five-byte jump exactly one state follows in two steps: control at the target with a return address pushed, where the original jump pushes none |
| `RewriterExamples.SecondPushNeverLeft` | aligner/aslr/binary_rewriter_version.py:110-131 | for two equal pushes the original passes the second one and the rewritten code never reaches that state |
| `RewriterExamples.SharedReturn` | aligner/aslr/binary_rewriter_version.py:110-131 | programs with two sites, of five bytes and of seven, and one returning trampoline meet every condition of the simulation theorem |
| `RewriterExamples.StoresSupported` | aligner/binary_utils.py:155-165 | stores to absolute addresses outside the stack, below or above it, are among the supported instructions |
| `RewriterIdentity.DiffCompareBytes` | aligner/aslr/binary_rewriter_version.py:250-277 | the loop computes the union of the differences between neighbours |
| `RewriterIdentity.DiffsAreDisagreements` | aligner/aslr/binary_rewriter_version.py:250-277 | that union is the set of offsets at which not all sections agree |
| `RewriterIdentity.EqualTexts` | aligner/aslr/binary_rewriter_version.py:195-248 | two passes over alike sections stay in step and their texts are equal exactly when kept instructions are |
| `RewriterIdentity.RewritingMakesIdentical` | aligner/aslr/binary_rewriter_version.py:195-323 | the rewritten texts of all unikernels are equal if and only if every differing byte lies in a rewritten instruction, that is if and only if every instruction with a differing byte is eligible and has five bytes or more |
| `RewriterExamples.ShortDifferenceStays` | aligner/aslr/binary_rewriter_version.py:187-191 | two unikernels that differ in a two-byte instruction keep different texts |
| `RewriterExamples.LongDifferenceGoes` | aligner/aslr/binary_rewriter_version.py:187-193 | two unikernels that differ in a seven-byte instruction get equal texts |
| `MadviseModel.AdviceIdempotent` | DKSM/linux-5.15.74/mm/madvise.c:70-136 | advising twice is advising once, which makes skipping over a merged area sound |
| `MadviseModel.FlagAfterAdvice` | DKSM/linux-5.15.74/mm/madvise.c:70-136 | for every flag, which advice sets it, which clears it, and that all other advice leaves it |
| `MadviseModel.RefusedAdvice` | DKSM/linux-5.15.74/mm/madvise.c:92-119 | for every kind of area, which advice it refuses |
| `MadviseModel.AtSplice` | DKSM/linux-5.15.74/mm/madvise.c:143-172 | replacing a stretch of areas shows the new stretch inside and the old areas outside |
| `MadviseWalk.AddressSpace.VmaMerge` | DKSM/linux-5.15.74/mm/madvise.c:143-150 | a merge gives exactly the range the new flags, in every shape of overlap with the neighbours |
| `MadviseWalk.AddressSpace.SplitVma` | DKSM/linux-5.15.74/mm/madvise.c:154-172 | a cut is not seen at any address and respects the map count |
| `MadviseWalk.AddressSpace.MadviseBehavior` | DKSM/linux-5.15.74/mm/madvise.c:70-189 | one area: flags of exactly the range change; it is refused exactly for the advice the area forbids, and a failure changes no flag |
| `MadviseWalk.CallSeen` | DKSM/linux-5.15.74/mm/madvise.c:1212-1224 | what is skipped after a merge already has the advised flags |
| `MadviseWalk.CallAdvances` | DKSM/linux-5.15.74/mm/madvise.c:1212-1224 | so moving to the end of the resulting area keeps the walk on track |
| `MadviseWalk.RangeExact` | DKSM/linux-5.15.74/mm/madvise.c:1153-1163 | a range is refused exactly when its start is off a page boundary or its end does not fit; otherwise it ends at the least page boundary not below start plus length |
| `MadviseWalk.AddressSpace.Walk` | DKSM/linux-5.15.74/mm/madvise.c:1187-1225 | every mapped address up to the stop is advised and every other unchanged; the walk ends with success exactly when it met no hole |
| `MadviseWalk.AddressSpace.DoMadvise` | DKSM/linux-5.15.74/mm/madvise.c:1138-1233 | malformed ranges are refused unchanged; otherwise a pointwise update from the start to the first page boundary not below start plus length, with the result code of the walk |
| `LayoutModel.RoundTo` | aligner/utils.py:38-41 | the least multiple not below the argument, zero for base zero |
| `LayoutModel.TableIsNeeded` | aligner/unikernels.py:28-34 | the gathered table holds for each name the largest sizes and the number of users |
| `LayoutModel.NeededCovers` | aligner/unikernels.py:28-34 | these sizes cover every user, and the count is the number of unikernels exactly for libraries of all |
| `LayoutTight.SizesAttained` | aligner/unikernels.py:28-34 | each size reserved for a library is the size some unikernel has for it |
| `LayoutTight.ClassByUsers` | aligner/ukManager.py:69-81 | a library is common exactly if all unikernels have it, in a subset exactly if several but not all do, individual exactly if one of several does |
| `LayoutOrder.ApplicationsFirst` | aligner/ukManager.py:61-67 | in the order of individual libraries applications come first, then test libraries, then the others, each group by text |
| `LayoutOrder.FirstDifference` | aligner/ukManager.py:78-81 | text order: the first different character decides and a prefix comes first |
| `LayoutOrder.MostUsedFirst` | aligner/ukManager.py:370-371 | in the order of the libraries of several unikernels those of more come first |
| `LayoutOrder.Sort` | aligner/ukManager.py:370-371 | a permutation in order in which elements that the order does not tell apart keep the order they had |
| `LayoutPlan.CommonStacked` | aligner/ukManager.py:83-137 | common libraries are page-aligned and in order |
| `LayoutPlan.PrivateStacked` | aligner/unikernels.py:80-125 | so are the other libraries of each unikernel |
| `LayoutPlan.RoundStacked` | aligner/ukManager.py:139-148 | a round of private libraries lies between the counter before and after it for every unikernel |
| `LayoutPlan.NoSharedPage` | aligner/ukManager.py:83-148 | no page holds bytes of two sections |
| `LayoutPlan.LayoutSound` | aligner/ukManager.py:359-396 | every unikernel's sections are aligned, in order and below the shared data exactly when the start is aligned; data and bss areas hold the largest unikernel, with a spare page after dead code was removed |
| `LayoutPlan.EveryLibraryPlaced` | aligner/ukManager.py:69-148 | each library of each unikernel has a section of exactly the size reserved for it, and one common address when all use it |
| `LayoutOnce.PlacedOnce` | aligner/ukManager.py:69-148 | a unikernel has exactly one section for each of its libraries and none for any other, whatever order the classes are placed in |
| `LayoutTight.LongestAttained` | aligner/ukManager.py:139-148 | after a round the counter is where some unikernel ends |
| `LayoutTight.DataAttained` | aligner/ukManager.py:359-396 | the data area is as large as the data of some unikernel |
| `LayoutTight.BssAttained` | aligner/ukManager.py:359-396 | so is the bss area |
| `LayoutTight.CommonPacked` | aligner/ukManager.py:83-137 | between two common sections there is less than a page |
| `LayoutTight.PrivatePacked` | aligner/unikernels.py:80-125 | so it is between two private sections of a round |
| `LayoutTight.LayoutPacked` | aligner/ukManager.py:359-396 | in every round some unikernel fills the addresses from the counter before to the counter after with gaps of less than a page, data follows within a page, and the data and bss areas are less than a page larger than some unikernel needs |
| `LayoutManager.Unikernel.UpdateLocCounter` | aligner/unikernels.py:80-125 | the loop places a unikernel's own libraries of a class |
| `LayoutManager.UkManager.ProcessFolder` | aligner/ukManager.py:50-56 | the loops gather the table of all libraries |
| `LayoutManager.UkManager.ProcessMaps` | aligner/ukManager.py:69-81 | the table is split by number of users, the libraries of one unikernel with applications first |
| `LayoutManager.UkManager.ProcessCommonToAll` | aligner/ukManager.py:119-137 | the loop places common libraries |
| `LayoutManager.UkManager.ComputeCommonLoc` | aligner/ukManager.py:83-113 | one common library takes its code and constants from the counter, which then moves to a page boundary |
| `LayoutManager.UkManager.ComputeLoc` | aligner/ukManager.py:139-148 | every unikernel starts at the same page and the counter ends at the longest |
| `LayoutManager.UkManager.UpdateLinkFileSpacer` | aligner/ukManager.py:359-396 | the link scripts hold the planned sections, with the libraries of most unikernels first among those of several, or the pass fails without unikernels or libraries |
| `LayoutManager.UkManager.Align` | aligner/aligner.py:81-92 | gathering, classifying, ordering and placing together give the layout of the theorems |
| `Utf8.DecodeIsInverse` | firecracker/src/loader/src/binary.rs:101-102 | an accepted name is the text whose encoding was read |
| `Utf8.DecodeExactly` | firecracker/src/loader/src/binary.rs:101-102 | bytes are accepted as a text if and only if they are its encoding |
| `Utf8.Samples` | firecracker/src/loader/src/binary.rs:101-102 | characters of one to four bytes, and that overlong, surrogate, truncated and stray bytes are refused |
| `Utf8.AsciiLength` | aligner/helpers/elf_minimizer.py:27-28 | bytes and characters are equally many exactly for ASCII text |
| `Format.Extract` | aligner/helpers/elf_minimizer.py:21-34 | sections of zeros are left out, numbers too big for their field fail, others become one record |
| `Format.ProcessFileAslr` | aligner/helpers/elf_minimizer.py:36-57 | the writer's loop produces the counted records, nothing, or an overflow |
| `Format.BinaryLoader.ReadEntry` | firecracker/src/loader/src/binary.rs:95-118 | the cursor reads one section or panics |
| `Format.BinaryLoader.ReadUkFile` | firecracker/src/loader/src/binary.rs:85-130 | the reader's loop appends the parsed sections; only a missing minimal file is tolerated |
| `FormatBytes.RecordBytes` | aligner/helpers/elf_minimizer.py:27-31 | the bytes of a record at their offsets: two of name length, the name, eight of size, eight of address, low bytes first, then the data |
| `FormatBytes.KeptExactly` | aligner/helpers/elf_minimizer.py:23-25 | exactly the sections with a non-zero byte are kept, in order |
| `FormatBytes.FileBytes` | aligner/helpers/elf_minimizer.py:50-57 | the file is the number of kept sections in one byte and then each record right after the one before |
| `FormatBytes.OverflowExactly` | aligner/helpers/elf_minimizer.py:27-56 | writing fails exactly when a kept section's name, size or address, or the number of sections, does not fit its field |
| `FormatBytes.ReadFields` | firecracker/src/loader/src/binary.rs:95-118 | what is read at each offset, where the next record begins, and that a record cut short or with an ill-encoded name is an error |
| `FormatTheorems.ParsePrinted` | firecracker/src/loader/src/binary.rs:95-118 | a record with an ASCII name is read back whole wherever it stands |
| `FormatTheorems.NameLost` | aligner/helpers/elf_minimizer.py:27-28 | with another name the section is never read back |
| `FormatTheorems.RoundTrip` | aligner/helpers/elf_minimizer.py:21-57 | a file written for one to 255 non-zero sections gives them back in order and is consumed whole if and only if their names are ASCII |
| `FormatTheorems.AccentLost` | aligner/helpers/elf_minimizer.py:27-28 | a section named by one accented letter is written and not read back |
| `FormatTheorems.ParsedIsPrinted` | firecracker/src/loader/src/binary.rs:85-130 | a file read to its end with ASCII names and no zero section is the one written for its sections |
| `LoaderModel.SeenAfterMap` | firecracker/src/loader/src/uk_loader.rs:51-69 | a mapping shows the object on its pages and changes no other |
| `LoaderModel.SeenAfterStore` | firecracker/src/loader/src/uk_loader.rs:19-31 | without shared mappings a write changes one byte of the guest and nothing of the pool |
| `LoaderModel.SharedWriteReachesPool` | firecracker/src/loader/src/uk_loader.rs:57-65 | through a shared mapping the same write would change the object for every guest |
| `LoaderModel.SeenAfterCopy` | firecracker/src/loader/src/uk_loader.rs:19-31 | a copy changes exactly its bytes and not the pool |
| `Loader.LoaderInfo.ShmMmap` | firecracker/src/loader/src/uk_loader.rs:51-69 | maps the object privately, or stops for a missing object or empty length |
| `Loader.LoaderInfo.MoveSecAslr` | firecracker/src/loader/src/uk_loader.rs:72-100 | maps every listed section but unaligned ones and the data section, whose address it returns; stops exactly when a section to be mapped is empty or has no object under its name with the prefix |
| `Loader.LoaderInfo.Memcpy` | firecracker/src/loader/src/uk_loader.rs:24-29 | copies byte by byte, exactly when every target byte is accessible |
| `Loader.LoaderInfo.MoveAll` | firecracker/src/loader/src/uk_loader.rs:19-31 | copies every private section, exactly when all target bytes are accessible, and leaves the pool as it was although it may write it |
| `Loader.LoaderInfo.Load` | firecracker/src/vm-memory/src/lib.rs:99-102 | both passes give the image of the theorem below or stop, and never change the pool |
| `Loader.PoolUntouched` | firecracker/src/loader/src/uk_loader.rs:51-100 | wherever the private sections lie, copying them never reaches the pool, because every mapping made is private |
| `Loader.ImageComplete` | firecracker/src/loader/src/uk_loader.rs:19-100 | whatever the order of the lists, each shared section shows its object, each private one its bytes, all other addresses what they showed before, and the pool is unchanged |
| `Loader.DisjointExactly` | firecracker/src/loader/src/uk_loader.rs:51-69 | two mappings are apart exactly when no address lies on pages of both |
| `Loader.ImageExactly` | firecracker/src/loader/src/uk_loader.rs:72-100 | sections on a page boundary other than .data show the object named lib, or aslr_lib when asked for, and the section; zero to the end of its last page; all pages of no such section are as before |
| `Loader.DataStartExactly` | firecracker/src/loader/src/uk_loader.rs:73-82 | the data address returned is that of the last .data section on a page boundary, zero without one |
| `Delivery.WrittenIsShown` | firecracker/src/loader/src/uk_loader.rs:19-31 | every kept section with an ASCII name, written, read back and moved, appears at region plus vma byte for byte |
| `Delivery.Deliver` | firecracker/src/vm-memory/src/lib.rs:99-102 | writer, reader and loader run one after the other do this or stop exactly when the loader does |
| `FindFreq.Advance` | firecracker/src/cpuid/src/brand_string.rs:227-288 | each character keeps what the machine has recognised and that no match begins earlier |
| `FindFreq.Exhausted` | firecracker/src/cpuid/src/brand_string.rs:227-290 | at the end of the text nothing was missed |
| `FindFreq.Characters` | firecracker/src/cpuid/src/brand_string.rs:227-288 | the byte classes of the machine are the characters of the expression |
| `FindFreq.FindFreq` | firecracker/src/cpuid/src/brand_string.rs:202-294 | a slice is found exactly when the text contains a match, and it is the leftmost and first to end |
| `Bus.LookupIsSearch` | firecracker/src/devices/src/bus.rs:87-105 | the lookup through one neighbour agrees with a search of all ranges |
| `Bus.NothingReplaced` | firecracker/src/devices/src/bus.rs:130-132 | the branch that reports a replaced device is never taken, on any bus that insertions can produce |
| `Bus.RefusedExactly` | firecracker/src/devices/src/bus.rs:108-128 | for a representable range, refused means empty or overlapping |
| `Bus.WrappedRangeAccepted` | firecracker/src/devices/src/bus.rs:122 | a range whose end wraps is accepted over a device on some bus |
| `Bus.JudgedRightly` | firecracker/src/devices/src/bus.rs:108-128 | a non-empty range is judged rightly on every bus if and only if it is representable |
| `Bus.InsertKeepsValid` | firecracker/src/devices/src/bus.rs:108-135 | accepting a representable range keeps ranges ordered and disjoint and adds just it |
| `Bus.AddressBus.ScanBack` | firecracker/src/devices/src/bus.rs:87-95 | the reverse loop finds the greatest base not above the address |
| `Bus.AddressBus.Get` | firecracker/src/devices/src/bus.rs:97-105 | offset and device for the address; on a valid bus none exactly when no range holds it |
| `Bus.AddressBus.Insert` | firecracker/src/devices/src/bus.rs:108-135 | every insertion keeps the order and a refused one changes nothing; on a valid bus a representable range is accepted exactly when non-empty and disjoint from all, and the bus stays valid |
| `Bus.ReachableValid` | firecracker/src/devices/src/bus.rs:81-135 | on every bus reached by representable requests lookups agree with a search |
| `MergePatch.JsonPatch` | firecracker/src/mmds/src/lib.rs:73-97 | the recursive loop, in any order of members, is the merge of section 2 of RFC 7396 |
| `MergePatch.MergeIdempotent` | firecracker/src/mmds/src/lib.rs:73-97 | applying a patch twice is applying it once |
| `MergePatch.MergeIntoNothing` | firecracker/src/mmds/src/lib.rs:88-91 | a document without null members, patched into nothing, is that document |
| `MergePatch.DiffReaches` | firecracker/src/mmds/src/lib.rs:73-97 | every document without null members is reached from every other by one patch |
| `Uri.ReplaceShortens` | firecracker/src/mmds/src/lib.rs:104-107 | a pass shortens the text exactly when it contains a double slash |
| `Uri.ReplaceKeepsCollapse` | firecracker/src/mmds/src/lib.rs:106 | a pass does not change what the text collapses to |
| `Uri.SanitizeUri` | firecracker/src/mmds/src/lib.rs:100-110 | the loop ends with every run of slashes collapsed, exactly for texts shorter than 2^32 - 1 bytes or without double slash; segments, first and last byte never change |
| `Rings.AppendIsEnqueue` | firecracker/src/io_uring/src/queue/submission.rs:86-121 | under wrapping positions and masked slots, appending to a ring that is not full overwrites nothing queued |
| `Rings.AdvanceIsDequeue` | firecracker/src/io_uring/src/queue/completion.rs:78-98 | moving the head removes the oldest entries |
| `IoUring.PushKeeps` | firecracker/src/io_uring/src/lib.rs:174-199 | a push keeps the accounting and adds one operation, or nothing when refused |
| `IoUring.PushExactly` | firecracker/src/io_uring/src/lib.rs:174-199 | each refusal exactly for its reason, in the source's order; what is accepted goes to the end of the queue |
| `IoUring.PopKeeps` | firecracker/src/io_uring/src/lib.rs:207-219 | a pop returns the oldest completion and its subtraction never clamps |
| `IoUring.SubmitKeeps` | firecracker/src/io_uring/src/queue/submission.rs:123-154 | a submission moves entries to the kernel and loses none |
| `IoUring.CompleteKeeps` | firecracker/src/io_uring/src/lib.rs:182-184 | a completion always finds room |
| `IoUring.IoRing.Push` | firecracker/src/io_uring/src/lib.rs:174-199 | the method is that step: each refusal exactly for its reason in the source's order, otherwise the operation goes to the end of the queue |
| `IoUring.IoRing.Pop` | firecracker/src/io_uring/src/lib.rs:207-219 | the method is that step: the oldest completion leaves the queue, nothing exactly when it is empty |
| `IoUring.IoRing.Submit` | firecracker/src/io_uring/src/queue/submission.rs:123-154 | the method is that step for any answer of the system call, and nothing when there is nothing to do |
| `IoUring.NothingLost` | firecracker/src/io_uring/src/lib.rs:174-219 | over every interleaving with the kernel the counter is queued plus in flight plus unfetched, at most the completion queue, and each accepted operation is fetched once or outstanding |
| `Init.Cell.Enter` | firecracker/src/logger/src/init.rs:54-67 | a closure may run exactly when none is running and none has succeeded; the two errors tell which, and the cell stays safe |
| `Init.Cell.Leave` | firecracker/src/logger/src/init.rs:69-75 | afterwards no closure runs and one has succeeded exactly if this one did; the cell stays safe |
| `Init.Cell.CallInit` | firecracker/src/logger/src/init.rs:50-78 | an undisturbed call leaves no closure running, changes nothing when refused and is refused once one has succeeded |
| `Init.Cell.IsInitialized` | firecracker/src/logger/src/init.rs:80-84 | true exactly when one closure has succeeded |
| `Init.RunKeepsSafe` | firecracker/src/logger/src/init.rs:50-78 | in every interleaving the cell says exactly whether a closure runs and whether one has succeeded |
| `Init.InitialisedOnce` | firecracker/src/logger/src/init.rs:50-84 | at most one closure runs at a time and at most one succeeds; after that no closure starts and nothing changes |

## Left out

- The rewriter's RIP-relative trampolines, relative conditional branches and instructions with stack-relative operands:
  outside the shapes for which the scheme preserves meaning.
- Five-byte jumps (0xe9) are rewritten by the model as by the source, but the simulation theorem does not cover them:
  `JumpBecomesCall` says what they turn into.
- The 0x9000-byte prefix of `.text`, the constants after `int1`, the fixed libvfscore patch and the dictionary of
  emitted instructions.
- Decoding, operand text and the address filters: an instruction list is given, with a flag for what the filters admit.
- The `optimized_suit` variants, which the source always switches off.
- Whether a jump-back site that is not the first user may still reach its successor by way of other code: it does not
  run in place, and what the code it lands in does is its own matter.
- Page faults: a write to a page without write permission does not take place, in plain memory as in the machine, so
  copy-on-write handling is not part of this model.
- Merger: lazy setup and its allocation failures, counter wrap-around, sysfs output, swap, reverse maps, splitting of
  huge pages, TLB and notifier calls; the page walk is a list of slots.
- `madvise`: advice other than flag updates, locking, and the error translation of the foreign advice handlers; the
  pointer to the previous area is an index.
- Aligner: link script text, relinking, object copying, and the group, snapshot and non-compact modes; rounding is exact
  where the source divides in floating point; the layout results hold for any order of the libraries.
- Aligner input: section sizes are given and the library files of one unikernel have distinct names; the table entry of
  a library is a value of its own, where the source lets it share an object with the first unikernel that has it.
- Loader: the branch without address randomisation, which maps one file; protection bits; writes behind the end of a
  shared object; names with an inner NUL; the
  list of shared sections comes from a serialised file whose decoder is not part of this model.
- Loader.LoaderInfo.MoveAll: copies the bytes of a section, which the reader makes as long as its size.
- JSON values are trees; the update in place and aliasing of the source are not modelled.
- Bus: devices are opaque, addresses of a request are 64-bit, and the sum of base and length wraps as in a release
  build.
- io_uring: memory access errors of the rings, registration and setup; a ring has fewer than 2^32 slots, their number
  divides 2^32.
- One-time initialisation: a closure that never returns simply never finishes; memory ordering is sequential.
- Brand strings apart from the frequency search; HTTP, routing, jailer, metrics, generated bindings and CPUID tables.
- Measurement and plotting scripts and the other loaders of the repository.
