# Verified models of the hitoshizuku kernel core

This project models eight parts of the kernel in Dafny and proves what they promise. Each part follows the
code, including its edge cases; where the code and its documentation differ, the code is followed and the
difference is stated under "Where the code and its promise differ".

- **Page tables** (`general/src/page_walk.rs` over the abstract `PagingArch` of `general/src/paging.rs`).
  Physical memory is a map from table address to entries. The reachable tables form a tree without sharing,
  and allocation hands out fresh pages. Every operation is a statement about the translation function
  "virtual address to leaf or nothing". Files `PagingArch`, `PageWalk`, `PageMap`, `PageUnmap`, `PageCheck`,
  `PagePromote`, `PageBatch` hold the specification; `PageOutcome` says from the memory before a call when it
  succeeds and with which error it fails; `PageEngine` holds the class that works in place; `PageWitness` shows in the four-level shape that the differences listed below occur.
- **Firmware CPU topology** (`kernel/src/sched.rs`). Per-CPU socket, cluster and core paths become groups,
  groups become a collapsed tree of scheduling domains, and the scheduler accepts the tree. Files `Topology*`
  and `Laminar`.
- **Exec commit** (`kernel/src/exec.rs`). A two-phase protocol with a point of no return, as atomic steps of
  any number of concurrent commits with the rest of the kernel running in between. Files `ExecProtocol`,
  `ExecSafety`, `ExecSteps`, `ExecRuns`, `ExecProgress`, `ExecDethread`, `ExecGuard`.
- **System-call filters** (`general/src/seccomp.rs`). The classic BPF check, the interpreter, the data block
  and the filter chain. Words are numbers, and what an instruction does is stated bit by bit and by remainders.
  Files `Seccomp`, `SeccompMeaning`, `SeccompInterpreter`, `SeccompState`.
- **ELM guard** (`general/src/elm_guard.rs`). The context stack with its lock-free mirror, the frame stack
  with execution domains and one-shot recovery exits, and the per-CPU fault rings at the level of single loads
  and stores. Files `ElmContext`, `ElmGuard`, `ElmGuardRuns`, `FaultRing`, `FaultRingRuns`,
  `FaultRingScan`.
- **Initial user stack** (`kernel/src/user.rs`, read back in `kernel/src/exec.rs`), laid out as in section
  3.4.1 of the System V ABI AMD64 supplement. Files `StackImage`, `StackRoundTrip`, `UserStack`.
- **Memory segments** (`kernel/src/start.rs`). File `Segments`.
- **Accounting encoders** (`kernel/src/acct.rs`). Files `CompT`, `Binary32`.

`Outcomes` holds the shared option, result and error types; `Arithmetic`, `Bits` and `Bytes` hold shared facts
about quotients, the bits of numbers and little-endian numbers.

## Where the code and its promise differ

- A dry-run unmap predicts the real one exactly when the range is no longer than the translated space; a
  longer range meets pages it has already cleared (`PageUnmap.DryRunExact`, `PageWitness.DryRunCanMislead`).
- A batch map answers `Misaligned` for pages of the last leaf table of the 64-bit space, where mapping page
  by page would go on (`PageBatch.BatchStatic` gives the condition on the range, `PageWitness.TopTableRefused`
  a page).
- The permission check refuses a leaf that ends exactly at the top of the 64-bit space
  (`PageCheck.ValidateExact`, `PageWitness.TopLeafRefused`).
- The root scheduling domain has the fixed capacity of twelve full CPUs; it equals the sum of its children
  exactly when all twelve CPUs are listed at full scale (`TopologyTree.RootCapacity`).
- After waiting for siblings, the phase and the generation can no longer differ from what was published, so
  the early return at `kernel/src/exec.rs:881-883` is never taken (`ExecSafety.RecheckingKept`).
- Passing the last 64-bit generation stops the kernel (`ExecRuns.PanicOnlyAtTheEnd`).
- The filter check reads an unconditional jump as unsigned and the interpreter reads it as signed. They agree
  on every program of at most 2^31 + 1 instructions and on no longer length (`Seccomp.LongProgramsJumpOut`).
  A filter is admitted with at most 4096 instructions (`SeccompState.NewFilter`), so no installed filter shows it.
- The stack size estimate always falls short of the layout, by one word and the padding: 8 to 31 bytes
  (`UserStack.BudgetShort`).
- A string with an interior NUL reads back only up to it (`StackRoundTrip.UpToNul`).
- A normal segment list is the only one for its addresses exactly when its last end lies below the top or it
  covers the whole space; any other has a partner with another normal form (`Segments.CanonicalExact`,
  `Segments.SaturationNotCanonical`).
- A segment that starts at the last address covers nothing. It stays in the result unless one from below
  reaches the top, and two of them merge into an empty one (`Segments.NormalizeSegments`,
  `Segments.MergedToNothing`).

## Model

| member | source | states |
|---|---|---|
| `PagingArch.FourLevelsLawful` | arch/src/x86_64/paging.rs:193-195 | the four-level shape of x86_64, Sv48 and LoongArch meets every assumption made about an architecture |
| `PagingArch.FourLevelIndex` | arch/src/riscv64/paging.rs:352-356 | in that shape the entry indices are the nine-bit groups above the page offset |
| `PageMap.MapEffect` | general/src/page_walk.rs:293-359 | a successful map adds exactly one leaf's worth of translation with the requested frame and rights; a failed one changes no translation although tables may have been linked; the tree and the freshness of remaining pages are kept |
| `PageMap.Descended` | general/src/page_walk.rs:306-339 | the walk to the target level links only zeroed fresh tables, keeps the tree and every translation, and ends in the table on the path |
| `PageMap.LeafPlaced` | general/src/page_walk.rs:341-358 | a leaf is written exactly when the slot is empty and the architecture encodes it, and then changes exactly the paths through that slot; otherwise nothing changes |
| `PageOutcome.MapOutcome` | general/src/page_walk.rs:293-359 | mapping succeeds if and only if no larger page is in the way, the slot is free, the allocator grants as many pages as tables are missing and the architecture encodes the leaf; otherwise the first obstacle on that way gives the error, and the allocator is asked for missing tables only |
| `PageOutcome.DescendOutcome` | general/src/page_walk.rs:306-339 | the same for the walk to the target level, from any table on the path |
| `PageWalk.FindAgree` | general/src/page_walk.rs:94-120 | two memories that agree on the tables along a path give the same lookup |
| `PageWalk.WriteEffect` | general/src/page_walk.rs:94-120 | one entry write changes the lookup of exactly the paths through that entry |
| `PageUnmap.DryRunPredicts` | general/src/page_walk.rs:141-176 | if the dry run succeeds on a range within the translated space, the real run succeeds, every address of the range becomes unmapped and every other keeps its leaf, for any mix of page sizes |
| `PageUnmap.DryRunExact` | general/src/page_walk.rs:141-176 | after a successful dry run the real run succeeds if and only if the range is no longer than the translated space |
| `PageOutcome.UnmapExact` | general/src/page_walk.rs:141-176 | a dry run succeeds if and only if the range is aligned, ends below the top and every address of it is mapped by a page of a supported size inside it; otherwise the error is what is wrong with the first such address |
| `PageOutcome.ClearExact` | general/src/page_walk.rs:141-176 | the real run succeeds if and only if the dry run does and the range is no longer than the translated space |
| `PageUnmap.ClearRunKeepsTree` | general/src/page_walk.rs:141-176 | unmapping, whether or not it fails on the way, keeps the tables a tree |
| `PageUnmap.UnmapKeepsSound` | general/src/page_walk.rs:141-176 | unmapping keeps the invariant every other operation relies on |
| `PageUnmap.MapUnmap` | general/src/page_walk.rs:94-359 | mapping an aligned page and unmapping it restores the earlier translation of every address |
| `PageCheck.ValidateExact` | general/src/page_walk.rs:236-271 | the check succeeds if and only if every byte of the range lies in a leaf that grants all requested rights and does not end at the top of the space; otherwise the error is what is wrong with the first byte that does not |
| `PageCheck.CheckExact` | general/src/page_walk.rs:253-270 | the same for the loop from any address on |
| `PagePromote.PromoteEffect` | general/src/page_walk.rs:500-570 | on success translation changes only inside the target page; on every error, including the one raised after reclaim, no address changes translation |
| `PageOutcome.PromoteExact` | general/src/page_walk.rs:500-570 | past the entry checks promotion succeeds if and only if a table hangs in the slot, nothing is mapped through it and the architecture encodes the leaf; otherwise the first of these that fails gives the error |
| `PageOutcome.EmptyMeans` | general/src/page_walk.rs:572-598 | the emptiness test accepts exactly the subtrees through which nothing is mapped and in which no last-level entry poses as a table |
| `PagePromote.PromoteReclaims` | general/src/page_walk.rs:500-626 | on success each table of the old subtree is freed exactly once, none of them is still reachable, every other table still is, and the returned number counts the refusals |
| `PagePromote.SubtreeSeated` | general/src/page_walk.rs:600-626 | reclaim lists tables of the subtree only, each once |
| `PagePromote.SubtreeComplete` | general/src/page_walk.rs:600-626 | reclaim misses no table of the subtree |
| `PagePromote.CutKeepsTree` | general/src/page_walk.rs:555-557 | replacing a table entry leaves a tree without the tables below it |
| `PagePromote.EmptyFindsNothing` | general/src/page_walk.rs:572-598 | a subtree that the emptiness test accepts translates nothing |
| `PagePromote.PromoteKeepsSound` | general/src/page_walk.rs:500-626 | promotion keeps the invariant every other operation relies on |
| `PagePromote.UnreachableIsFresh` | general/src/page_walk.rs:293-359 | pages that are not reachable, those just freed among them, may be allocated next |
| `PageBatch.BatchExact` | general/src/page_walk.rs:368-490 | once the up-front checks pass, the batch ends in the same tables, allocation sequence, count and error as page-by-page mapping if and only if it does not enter the last leaf table |
| `PageBatch.BatchStatic` | general/src/page_walk.rs:451-460 | where page-by-page mapping succeeds, the batch ends the same if and only if its last page lies below the last leaf table |
| `PageBatch.StopsAtTop` | general/src/page_walk.rs:451-460 | a batch that enters the last leaf table has mapped exactly the pages below it, has walked to that table, and answers `Misaligned` |
| `PageBatch.BatchRefines` | general/src/page_walk.rs:368-490 | below the last leaf table the batch refines calling the single-page map until one fails |
| `PageBatch.BelowTop` | general/src/page_walk.rs:451-460 | a range that ends below the last leaf table never enters it |
| `PageBatch.RefusedMeans` | general/src/page_walk.rs:368-411 | the up-front checks let exactly the aligned, canonical runs of smallest pages with valid rights through, and which error each other batch gets |
| `PageBatch.LeafTableReused` | general/src/page_walk.rs:412-464 | a page in the region of a leaf table reached before is walked to that same table without allocating |
| `PageEngine.PageTables.constructor` | general/src/page_walk.rs:94-120 | an empty root is a sound tree that translates nothing |
| `PageEngine.PageTables.FindLeaf` | general/src/page_walk.rs:94-120 | the loop computes the recursive lookup |
| `PageEngine.PageTables.WalkAndMap` | general/src/page_walk.rs:293-359 | the method's new tables, supply and error are those of the specification, and it succeeds or fails exactly as the memory and the allocator say |
| `PageEngine.PageTables.WalkAndMapPages` | general/src/page_walk.rs:368-490 | the loop that walks the upper levels once per leaf table computes the batch specification |
| `PageEngine.PageTables.UnmapRangeEntries` | general/src/page_walk.rs:141-176 | both modes of the loop compute the specification; the dry run writes nothing |
| `PageEngine.PageTables.ValidateRangePermissions` | general/src/page_walk.rs:236-271 | the loop computes the check and changes nothing |
| `PageEngine.PageTables.SubtreeIsEmpty` | general/src/page_walk.rs:572-598 | the recursion decides emptiness |
| `PageEngine.PageTables.Reclaim` | general/src/page_walk.rs:600-626 | frees the subtree in post-order and returns the saturating number of refusals |
| `PageEngine.PageTables.ReplaceEmptyTableWithLeaf` | general/src/page_walk.rs:500-570 | the method's tables, freed pages and result are those of the specification, and the engine stays valid for further mapping |
| `PageEngine.PageTables.Restock` | general/src/page_walk.rs:293-339 | each call may bring its own allocator, as long as it hands out only pages that are not reachable |
| `PageWitness.DryRunCanMislead` | general/src/page_walk.rs:141-176 | in a fully mapped space every aligned range longer than the space passes the dry run and fails the real one |
| `PageWitness.FourLevelsMislead` | arch/src/x86_64/paging.rs:158-167 | so it does in the four-level shape with one-gigabyte leaves |
| `PageWitness.TopLeafRefused` | general/src/page_walk.rs:253-270 | with every byte mapped and all rights granted, every range inside the last leaf is refused |
| `PageWitness.TopTableRefused` | general/src/page_walk.rs:451-460 | in the four-level shape the first page of the last leaf table is mapped on its own and refused by the batch |
| `TopologyGroups.ChainPrefix` | kernel/src/sched.rs:1287-1327 | a key other than a CPU's own determines everything above it |
| `TopologyGroups.AddGroup` | kernel/src/sched.rs:1178-1199 | the linear search adds to, refuses or creates exactly the group the specification names |
| `TopologyGroups.AddedStep` | kernel/src/sched.rs:1178-1199 | adding the next key of a CPU's chain keeps one exact group per key and never meets a parent or depth mismatch |
| `TopologyGroups.BuildGroups` | kernel/src/sched.rs:1286-1327 | for distinct ids the mismatch refusal is unreachable, and there is exactly one group per key, whose mask is exactly the CPUs below it |
| `TopologySort.SortGroups` | kernel/src/sched.rs:1329-1333 | the groups come out ordered by depth and then key, as a permutation |
| `TopologySort.ReorderedGroups` | kernel/src/sched.rs:1329-1333 | reordering keeps the one-group-per-key property |
| `Laminar.Bound` | kernel/src/sched.rs:1250-1251 | a family of non-empty, pairwise nested or disjoint subsets of n elements has at most 2n - 1 members |
| `TopologyDomains.DomainCapacity` | kernel/src/sched.rs:1230-1244 | the sum over the span, exactly when every CPU is listed and the sum is neither zero nor too large |
| `TopologyDomains.GroupsCompatible` | kernel/src/sched.rs:1286-1327 | any two groups have nested or disjoint masks |
| `TopologyDomains.ParentKnown` | kernel/src/sched.rs:1338-1345 | when a group is resolved its parent has been, so the missing-parent refusal is unreachable |
| `TopologyDomains.NewSpan` | kernel/src/sched.rs:1346-1349 | a group that is neither everything nor its parent's span has a span no domain has yet |
| `TopologyDomains.CollapseStep` | kernel/src/sched.rs:1346-1348 | collapsing a repeated span keeps every group resolved to a domain with exactly its CPUs |
| `TopologyDomains.PushStep` | kernel/src/sched.rs:1349-1367 | pushing a domain keeps the tree, the distinct spans and the resolution |
| `TopologyDomains.DomainCount` | kernel/src/sched.rs:1335-1368 | at most 2n - 2 domains for n CPUs, however deep the paths |
| `TopologyTree.Room` | kernel/src/sched.rs:1350-1363 | the table is never full, no level passes a byte and no sum overflows, so E2BIG and EOVERFLOW are unreachable |
| `TopologyTree.BuildDomains` | kernel/src/sched.rs:1335-1368 | the whole loop never fails: parents precede children, spans are strict subsets of their parents', pairwise distinct and nested or disjoint, and every group resolves to a domain with its mask |
| `TopologyTree.FinishedTree` | kernel/src/sched.rs:1335-1368 | no domain lies between a domain and its parent, and every CPU has its own domain unless it is the only one |
| `TopologyTree.NewDomain` | kernel/src/sched.rs:1350-1364 | the exact conditions of every refusal, and the domain otherwise |
| `TopologyTree.ChildrenCover` | kernel/src/sched.rs:1335-1368 | the children of a domain of several CPUs partition it |
| `TopologyTree.CapacityConserved` | kernel/src/sched.rs:1230-1244 | a domain of more than one CPU has the capacity of its children together |
| `TopologyTree.TopCapacity` | kernel/src/sched.rs:1230-1244 | the top domains together have the capacity of all firmware CPUs |
| `TopologyTree.RootCapacity` | libs/sched/src/cpu.rs:217-225 | the root's fixed capacity is that sum if and only if all twelve CPUs are listed at full scale |
| `TopologyCompile.ScaleOrdered` | kernel/src/sched.rs:1216-1226 | scaled capacities keep the order of the ratings and lie between one and the scale |
| `TopologyCompile.ScaleExact` | kernel/src/sched.rs:1216-1226 | the scaled capacity is the largest number not above the exact proportion, but at least one |
| `TopologyCompile.CapacityFair` | kernel/src/sched.rs:1201-1228 | every listed CPU weighs the full scale when none is rated, and its share of the best rating otherwise |
| `TopologyCompile.ScaleTop` | kernel/src/sched.rs:1208-1226 | the best-rated CPU gets the whole scale, for every 32-bit rating |
| `TopologyCompile.CapacitiesScaled` | kernel/src/sched.rs:1201-1228 | every accepted CPU gets a capacity within the scale |
| `TopologyCompile.PublishedAccepted` | libs/sched/src/cpu.rs:348-418 | whatever the collapse builds passes every check of the scheduler's constructor |
| `TopologyCompile.PublishedMirrors` | kernel/src/sched.rs:1369-1384 | the published domains have the spans, parents, levels and capacities of the compiled ones, behind the root |
| `TopologyCompile.SelectCpus` | kernel/src/sched.rs:1254-1268 | keeps the representable entries in order and fails exactly on a repeated id among them |
| `TopologyCompile.RepeatsMeans` | kernel/src/sched.rs:1254-1268 | the refusal of repeated ids means that two usable entries name the same CPU |
| `TopologyCompile.SpansExact` | kernel/src/sched.rs:1286-1368 | the domain spans are exactly the sets of CPUs that share a socket, a cluster or a core with some CPU, and the single CPUs, apart from the set of all CPUs |
| `TopologyCompile.CompileCpus` | kernel/src/sched.rs:1285-1368 | groups, order and collapse together never fail and give exactly those spans |
| `TopologyCompile.FirmwareTopology` | kernel/src/sched.rs:1251-1384 | a repeated usable id is the only error; nothing is built exactly when the entries say nothing; everything else gives an accepted domain tree that mirrors the compiled one, with every CPU weighed in proportion to the best rating |
| `ExecSafety.StepKept` | kernel/src/exec.rs:823-1081 | every step of a commit keeps the invariant, moves towards its end, and has the stated effect when it ends |
| `ExecSafety.RecheckingKept` | kernel/src/exec.rs:869-888 | after the wait the phase is still Transitioning and the generation the observed one, and this check never returns an error |
| `ExecSafety.LeaseFailKept` | kernel/src/exec.rs:890-978 | at each failing check the listed drops release every lease before the call that never returns, or the old image goes on |
| `ExecSafety.InstallOneKept` | kernel/src/exec.rs:165-176 | an install step adds exactly its part in order, releases the descriptor lease after the first, and condemns the group on failure |
| `ExecSafety.PublishKept` | kernel/src/exec.rs:857-860 | publishing keeps the invariant, with this commit as the publisher |
| `ExecSteps.CheckingExact` | kernel/src/exec.rs:202-241 | the first check lets exactly the admissible commits through, singles out every other thread of the group and the leader to be replaced, and records the group as found; which error each other commit gets |
| `ExecSteps.NativeCheckingExact` | kernel/src/exec.rs:469-477 | the same for a native commit: the one thread of a running group |
| `ExecSteps.StepGoes` | kernel/src/exec.rs:857-1081 | past the first check a commit gives up exactly for the listed reasons, with the listed errors, by returning or by never returning; no step changes what the caller has fixed or publication has recorded |
| `ExecSafety.OthersFit` | kernel/src/exec.rs:823-1081 | a step of one commit disturbs no other |
| `ExecRuns.RunInv` | kernel/src/exec.rs:823-1081 | the invariant holds after every interleaving of commits and kernel events |
| `ExecRuns.ThreeOutcomes` | kernel/src/exec.rs:128-190 | a finished commit returned an error having replaced nothing and told no thread to exit; or replaced the ten parts in the listed order against its own generation, with every other thread of the group found at publication told to exit and gone; or diverges with the group Terminating and those threads told to exit; it holds nothing |
| `ExecRuns.NeverStuck` | kernel/src/exec.rs:823-1081 | when all commits have ended the phase is not Transitioning and the lock is free |
| `ExecRuns.OnePerGeneration` | kernel/src/exec.rs:142-154 | of the commits prepared against one generation at most one succeeds |
| `ExecRuns.GenerationCounts` | libs/sched/src/group.rs:304-311 | the generation rises by exactly the number of successful commits |
| `ExecRuns.NothingHeld` | kernel/src/exec.rs:857-978 | no exec lock and no file-system, signal or descriptor lease is held while siblings are awaited or at a call that never returns |
| `ExecRuns.Exclusive` | kernel/src/exec.rs:857-888 | while a commit is between publication and its end no other is, and nobody joins the group |
| `ExecRuns.DethreadsAll` | kernel/src/exec.rs:243-276 | in every reachable state from the wait on a commit has told exactly the other threads found at publication to exit, and past the wait they are all gone |
| `ExecRuns.LeadsAfterWait` | kernel/src/exec.rs:278-282 | in every reachable state a commit between Linux images that has waited leads its group until it ends |
| `ExecRuns.SuccessEffect` | kernel/src/exec.rs:981-1081 | success publishes one generation, with every prepared part in place over the parts found at publication, every other thread told to exit and none left, and its own thread the leader |
| `ExecRuns.FailureEffect` | kernel/src/exec.rs:156-162 | an error leaves the generation, every part, the threads and the phase as they were |
| `ExecRuns.LeaderChanges` | kernel/src/exec.rs:278-280 | only a commit that told threads to exit takes over the leader's identity |
| `ExecRuns.InstalledAt` | kernel/src/exec.rs:981-1048 | after the install steps exactly the prepared parts of that thread have their new values |
| `ExecRuns.CondemnedForGood` | kernel/src/exec.rs:142-154 | once Terminating, the group stays so and no later commit changes anything |
| `ExecRuns.PanicOnlyAtTheEnd` | libs/sched/src/group.rs:304-311 | the kernel stops if and only if a commit would pass the last generation |
| `ExecRuns.RankFalls` | kernel/src/exec.rs:823-1081 | every step of a commit brings it closer to its end |
| `ExecRuns.NoDeadlock` | kernel/src/exec.rs:823-1081 | unless all commits have ended one can move, or one waits for a sibling that still lives, or its take-over is refused because others than the old leader are left |
| `ExecProgress.StepsBounded` | kernel/src/exec.rs:823-1081 | in every run every commit takes at most 24 steps |
| `ExecProgress.RunAlone` | kernel/src/exec.rs:823-1081 | from any point on its way a commit of the only thread, left alone and with nothing refused, takes all its steps and succeeds |
| `ExecProgress.CommitAlone` | kernel/src/exec.rs:823-1081 | a prepared commit of the only thread succeeds in exactly 24 steps and leaves the group ready for the next |
| `ExecProgress.TwoCommits` | kernel/src/exec.rs:142-154 | from every first state of a single thread there is a run in which two commits succeed, against two generations |
| `ExecDethread.CommitDethreads` | kernel/src/exec.rs:243-282 | in a group of any size a prepared commit succeeds once every other thread has exited and all but the leader have left, in whatever order; its thread is then the only member and the leader |
| `ExecDethread.TakesOver` | libs/sched/src/operation.rs:489-590 | with the siblings dead and only the old leader left beside it, the thread becomes the leader and the only member |
| `ExecGuard.Guard.RevalidateBeforePonr` | kernel/src/exec.rs:142-154 | which of the three checks refuses, and that nothing changes |
| `ExecGuard.Guard.DriveInstallSteps` | kernel/src/exec.rs:165-176 | all ten steps in order, or those before the first failure and a condemned group |
| `ExecGuard.Guard.FinishExecCommit` | kernel/src/exec.rs:179-190 | one generation further and Running, or Terminating and unchanged; the stop at the last generation changes nothing |
| `ExecGuard.InstallRun` | kernel/src/exec.rs:165-176 | the install steps one after the other are a run of the protocol, up to the last or the first failure |
| `ExecGuard.DriveRefines` | kernel/src/exec.rs:165-176 | the loop under the lock ends in the phase, generation and replaced parts of the state that run ends in, failure included |
| `Seccomp.ValidateProgram` | general/src/seccomp.rs:264-340 | accepts exactly the programs all of whose instructions are valid where they stand, and answers EINVAL to every other |
| `SeccompMeaning.ValidMeans` | general/src/seccomp.rs:264-340 | an instruction is valid if and only if its class, size, mode, operation, operand and jump targets, read off as numbers, are admissible |
| `Seccomp.ExecuteFine` | general/src/seccomp.rs:352-451 | a checked instruction moves the counter strictly forward inside the program, returns its own value or kills the thread; no jump out of range, no scratch index out of bounds |
| `Seccomp.RunSafe` | general/src/seccomp.rs:346-454 | a checked program takes at most as many steps as it has instructions and answers KILL_THREAD or the value of one of its RET instructions |
| `SeccompMeaning.StepMeans` | general/src/seccomp.rs:352-451 | a step does what its instruction says on numbers: loads read little-endian bytes or zero, arithmetic is modulo 2^32, division by zero kills, jumps go where the comparison says |
| `SeccompMeaning.RunAnswers` | general/src/seccomp.rs:346-454 | the answer of a checked program is the one an execution of those steps from the first instruction concludes with |
| `Seccomp.AbsoluteLoadsFit` | general/src/seccomp.rs:278-290 | checked absolute loads of a known size never take the short-read fallback |
| `Seccomp.LongProgramsJumpOut` | general/src/seccomp.rs:307-313 | for every longer length a checked program exists whose first jump leaves the range |
| `SeccompInterpreter.RunBpf` | general/src/seccomp.rs:346-454 | the register loop computes the step semantics and answers as the numeric meaning of the program says |
| `Seccomp.LoadWord` | general/src/seccomp.rs:456-479 | a load yields a 32-bit word, zero where it would run past the data |
| `SeccompState.EncodeData` | general/src/seccomp.rs:58-73 | the buffer holds every field at its offset in little-endian order |
| `SeccompState.LoadsReadFields` | general/src/seccomp.rs:456-479 | word loads give back each field, the 64-bit ones in two halves |
| `SeccompState.VerdictExact` | general/src/seccomp.rs:153-170 | the chain answers with the first decisive result, else the last logged one, else permission |
| `SeccompState.DecisiveMeans` | general/src/seccomp.rs:153-170 | which results are decisive, by the value of their upper half |
| `SeccompState.LaterFiltersCannotUndo` | general/src/seccomp.rs:153-170 | filters installed later neither undo a decisive answer nor turn another into permission |
| `SeccompState.NewFilter` | general/src/seccomp.rs:204-212 | accepts exactly the non-empty, short enough, valid programs, and answers EINVAL to every other |
| `SeccompState.FilterChain.RunChain` | general/src/seccomp.rs:153-170 | the loop over the filters computes that answer |
| `SeccompState.FilterChain.PushFilter` | general/src/seccomp.rs:140-144 | appends a filter and enters filter mode |
| `SeccompState.FilterChain.SetStrict` | general/src/seccomp.rs:146-150 | drops all filters and enters strict mode |
| `SeccompState.FilterChain.ForkClone` | general/src/seccomp.rs:175-183 | the child has the same filters in an object of its own |
| `ElmContext.ContextStack.Push` | general/src/elm_guard.rs:191-203 | adds a context and keeps the mirror in agreement, or refuses a full stack |
| `ElmContext.ContextStack.Suspend` | general/src/elm_guard.rs:233-244 | adds an empty level and clears the mirror |
| `ElmContext.ContextStack.Pop` | general/src/elm_guard.rs:205-231 | removes the innermost level for its own token and changes nothing for any other |
| `ElmContext.ContextStack.CurrentContextCell` | general/src/elm_guard.rs:255-259 | the mirror names the cell of the innermost context in every reachable state |
| `ElmContext.ContextStack.Perform` | general/src/elm_guard.rs:191-259 | every properly nested use restores the stack, the array and the mirror |
| `ElmGuard.GuardStack.Enter` | general/src/elm_guard.rs:343-374 | opens a clean frame, whatever used the place before |
| `ElmGuard.GuardStack.Configure` | general/src/elm_guard.rs:376-417 | sets the bounds of the top frame only, refuses exactly the malformed ones, and then leaves the host ranges before the first bad one |
| `ElmGuard.GuardStack.EnterDomain` | general/src/elm_guard.rs:419-437 | enters a domain in the caller's own top frame unless that leads out of the interrupt domain, and keeps the way back |
| `ElmGuard.GuardStack.EnterCurrentDomain` | general/src/elm_guard.rs:499-515 | the same for whoever runs in the top frame |
| `ElmGuard.GuardStack.LeaveDomain` | general/src/elm_guard.rs:484-492 | restores the kept domain if its frame is on top, and changes nothing otherwise |
| `ElmGuard.GuardStack.Arm` | general/src/elm_guard.rs:621-640 | registers an aligned exit in a configured top frame that has none, and changes nothing else |
| `ElmGuard.GuardStack.Disarm` | general/src/elm_guard.rs:642-652 | withdraws the exit of the top frame, reports whether there was one, and changes nothing else |
| `ElmGuard.GuardStack.Consume` | general/src/elm_guard.rs:791-843 | takes exactly the exit of the top frame and leaves the reason there, or changes nothing |
| `ElmGuard.GuardStack.RecoverFault` | general/src/elm_guard.rs:654-675 | recovers exactly the faults inside the top frame's code, in code or interrupt domain, with an exit armed |
| `ElmGuard.GuardStack.RecoverRequested` | general/src/elm_guard.rs:681-695 | recovers exactly the requested cancellations and timeouts when the code is interrupted |
| `ElmGuard.GuardStack.RecoverExplicit` | general/src/elm_guard.rs:698-708 | recovers for the three admitted reasons |
| `ElmGuard.GuardStack.RequestAbort` | general/src/elm_guard.rs:553-583 | leaves the reason in exactly the open frames of the cell |
| `ElmGuard.GuardStack.RequestTimeout` | general/src/elm_guard.rs:585-600 | leaves a timeout in the top frame exactly when its deadline has passed |
| `ElmGuard.GuardStack.Drop` | general/src/elm_guard.rs:456-476 | wipes the top frame and changes nothing out of order |
| `ElmGuardRuns.RunAll` | general/src/elm_guard.rs:342-708 | whatever is done in whatever order, the stack and its answers are those of a run of the same operations |
| `ElmGuardRuns.AlwaysValid` | general/src/elm_guard.rs:122-143 | in every state of every run the frames from the depth on are clear, and an open frame has no bounds yet or its code inside its image, a stack and non-empty host ranges |
| `ElmGuardRuns.RecoveryOrigin` | general/src/elm_guard.rs:791-808 | every recovery takes an exit armed earlier in the frame now on top, as it was armed, not taken, withdrawn or closed in between |
| `ElmGuardRuns.OneShot` | general/src/elm_guard.rs:791-808 | no arming serves two recoveries |
| `ElmGuardRuns.RecoversExactly` | general/src/elm_guard.rs:654-708 | a fault or abort is recovered if and only if it is of the right kind and an exit stands in the top frame |
| `ElmGuardRuns.InterruptStays` | general/src/elm_guard.rs:74-79 | once in the interrupt domain a frame stays there until that domain is left or the frame closed |
| `ElmGuardRuns.InterruptRefuses` | general/src/elm_guard.rs:74-79 | until then whoever runs in it is refused every other domain, and nothing changes |
| `ElmGuardRuns.RecoveringRun` | kernel/src/elm/native.rs:215-235 | for every guarded call there is a run in which a fault in its code returns to its gate |
| `FaultRing.AdvanceOk` | general/src/elm_guard.rs:876-905 | every single store of a push keeps its CPU's ring in order |
| `FaultRing.ReadKept` | general/src/elm_guard.rs:907-930 | as long as the mark is unchanged, what a reader has copied is what was pushed |
| `FaultRing.EventInv` | general/src/elm_guard.rs:791-930 | every interleaved step keeps the invariant |
| `FaultRingRuns.ReadersSeeWholePushes` | general/src/elm_guard.rs:907-930 | a reader returns only complete pushes of that CPU |
| `FaultRingRuns.KeepsLast` | general/src/elm_guard.rs:876-905 | between pushes each CPU holds exactly its last sixteen snapshots, or all when fewer |
| `FaultRingRuns.NothingUncounted` | general/src/elm_guard.rs:809-834 | snapshots held plus snapshots dropped are all recoveries |
| `FaultRingRuns.LastSnapshot` | general/src/elm_guard.rs:845-863 | with nothing going on meanwhile, the loop over all slots returns one with the largest sequence |
| `FaultRingRuns.NewestIsLast` | general/src/elm_guard.rs:845-855 | that is the last sequence handed out, with the values pushed under it |
| `FaultRingScan.ScannerCanStep` | general/src/elm_guard.rs:845-863 | a scan that runs while others push and read is never stuck |
| `FaultRingScan.ScanSelectsWholePush` | general/src/elm_guard.rs:845-863 | whatever is pushed meanwhile, what a scan has selected is one whole push |
| `FaultRingScan.ScanMissesNothingRetained` | general/src/elm_guard.rs:845-863 | a finished scan selects a snapshot no older than any that stayed in its slot from beginning to end |
| `StackImage.SpAligned` | kernel/src/user.rs:583-657 | the final stack pointer is a multiple of sixteen for every input |
| `StackRoundTrip.CaptureRoundTrip` | kernel/src/exec.rs:293-345 | reading back the laid-out stack returns exactly the auxiliary pairs before the terminator, for every argument and environment list |
| `StackRoundTrip.CaptureWords` | kernel/src/exec.rs:293-345 | the reader finds the pairs behind any argument list and any environment list without a zero |
| `StackRoundTrip.ArgumentRoundTrip` | kernel/src/user.rs:555-565 | memory holds the argument count at the stack pointer, then a pointer to every argument's string in order, then a zero |
| `StackRoundTrip.EnvironmentRoundTrip` | kernel/src/user.rs:566-570 | behind them memory holds a pointer to every environment string in order, then a zero |
| `StackRoundTrip.StackRoundTrips` | kernel/src/user.rs:511-672 | read from memory alone, the laid-out stack gives back the count, both string lists and the auxiliary vector |
| `StackRoundTrip.VectorRoundTrip` | kernel/src/user.rs:572-600 | the vector read from memory holds every key once, the numbers given for the image, the pointer to the sixteen fixed bytes and the pointer to the path up to its first NUL |
| `StackRoundTrip.UpToNul` | kernel/src/user.rs:660-672 | a string reads back whole if and only if it has no NUL |
| `UserStack.BudgetShort` | kernel/src/user.rs:525-550 | the layout is one word and the padding longer than the estimate, for every input |
| `UserStack.AdmittedFits` | kernel/src/user.rs:525-550 | below a high enough top every admitted layout fits |
| `UserStack.PushStrings` | kernel/src/user.rs:557-570 | strings pushed from last to first, and where each starts |
| `UserStack.LayoutUserStack` | kernel/src/user.rs:511-658 | planning and writing give the same pointer and refusals; planning changes nothing; writing puts the image between that pointer and the top and nothing elsewhere |
| `UserStack.PrepareStack` | kernel/src/user.rs:402-470 | plan, map and write never disagree; all writes lie in the planned range; the result is aligned, and memory alone gives back the count, every string and the auxiliary vector |
| `UserStack.CaptureAuxv` | kernel/src/exec.rs:293-345 | the two loops compute the reader on any memory |
| `Segments.NormalizeSegments` | kernel/src/start.rs:56-79 | for every input: the result is spaced and covers the same addresses, is absent exactly when every segment is empty, is normal unless a segment starts at the last address and none from below reaches it, and has an empty segment exactly when two do |
| `Segments.MergedToNothing` | kernel/src/start.rs:69-76 | two segments at the last address normalise to an empty one |
| `Segments.SameShape` | kernel/src/start.rs:56-79 | two normal lists that cover the same addresses have the same starts and ends |
| `Segments.CanonicalExact` | kernel/src/start.rs:56-79 | a normal list is the only one for its addresses if and only if its last end lies below the top or it starts at zero |
| `Segments.NormalUnique` | kernel/src/start.rs:56-79 | two normal lists that cover the same addresses are equal, unless an end saturates |
| `Segments.CompareNormalForms` | kernel/src/start.rs:56-79 | two inputs without saturation normalise to equal lists if and only if they cover the same addresses; two normal lists only if they are equal |
| `Segments.SaturationNotCanonical` | kernel/src/start.rs:69-76 | every normal list that reaches the top has a partner with the same addresses and another normal form |
| `Segments.Sweep` | kernel/src/start.rs:87-103 | the two-index sweep yields a normal list of exactly the common addresses |
| `Segments.IntersectSpaced` | kernel/src/start.rs:87-104 | the result is exactly what the sweep produced: the last normalisation changes nothing |
| `Segments.IntersectSegments` | kernel/src/start.rs:81-105 | exactly the set intersection, absent exactly when that is empty, for every two inputs |
| `CompT.EncodeCompT` | kernel/src/acct.rs:192-208 | the fewest shifts that fit, rounding on the last digit, with carry and saturation |
| `CompT.Accurate` | kernel/src/acct.rs:192-208 | below saturation the code decodes within half of eight to the number of shifts, and less than half too low |
| `CompT.Nearest` | kernel/src/acct.rs:192-208 | for every value no code decodes nearer, and of two as near the larger is chosen |
| `CompT.UnitOfCode` | kernel/src/acct.rs:200-207 | that unit is never larger than the one of the exponent in the code |
| `CompT.Saturated` | kernel/src/acct.rs:192-208 | from an exact threshold on the largest code is given |
| `CompT.CodeMonotone` | kernel/src/acct.rs:192-208 | larger values never get smaller codes |
| `Binary32.NsToF32Bits` | kernel/src/acct.rs:156-189 | the bits encode the exponent and the rounded significand of the seconds, below infinity, for every 64-bit count; the overflow branch is dead |
| `Binary32.Nearest` | kernel/src/acct.rs:156-189 | no binary32 number is nearer and one as near is not larger: round to nearest, ties away from zero (section 4.3.1 of IEEE 754-2019) |
| `Binary32.PatternMonotone` | kernel/src/acct.rs:156-189 | longer times never get smaller bit patterns |

## Left out

- Memory fences, volatile access, TLB flushes and weak-memory effects: steps are sequentially consistent, and the page-table lock is assumed.
- Page-table entries are modelled decoded; the encodings of x86_64, RISC-V and LoongArch are not part of this model, and neither is `protect_range_entries`.
- Exec commit is a state machine on values, not an object updated in place: what matters there is interference between steps, and each step is a function of the state. `ExecGuard` has the in-place form of what runs under one lock.
- What `revalidate`, the leases, the install steps and the sibling wait ask of other subsystems is a choice made by the environment; the number and identity of threads, deaths, joins, departures and group exit are arbitrary events. The leader changes by a take-over, or is lost while no commit between Linux images refers to it.
- Sibling threads are a set; the order in which they are told to exit is not modelled.
- `ptrace_notify_exec`, drop-notification suppression and profiling hooks of the exec commit.
- Reprogramming the timer for a guard's deadline, the memory range checks and the registry of tasks behind `request_abort`: the model is the stack of one task.
- ElmGuardRuns.RunAll: an operation is one step; a request from another task falls between two operations, not inside one.
- FaultRing.EventInv: the dropped counter and the ring positions are unbounded numbers; the 64-bit wrap of the dropped counter is not modelled.
- The fault ring is modelled as steps on values, one load or store each, because its property is about interleaving; depth and phase are not narrowed to 32 bits in a snapshot.
- SeccompInterpreter.RunBpf: requires a checked program, because an unchecked one may jump back for ever.
- FaultRingRuns.LastSnapshot: scans one state; `FaultRingScan` has the scan as steps between those of everybody else.
- UserStack.LayoutUserStack: requires that a layout within the estimate fits below the top, because the cursor is not checked for underflow.
- Signal frames, namespaces, time adjustment, syscall dispatch, device and file-system bring-up.
