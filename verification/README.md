# Algorithmic cores of a Bitcoin node, modelled and proved in Dafny

Seven self-contained parts of the node are modelled here, each as close to the form of the code as possible: objects
become classes whose methods update fields, loops stay loops, in-place arrays stay arrays, and what is proved of them
is stated about whole inputs, whole runs or all interleavings.

- **Cluster linearization** (`FeeFrac`, `Sets`, `Graph`, `DepGraph`, `Diagram`, `Chunking`, `LinearizationChunking`,
  `MergeLinearizations`, `Components`, `AncestorCandidateFinder`, `SearchBound`, `Search`, `SearchCandidateFinder`,
  `Linearize`, `Reversal`, `PostLinearize*`). A linearization is judged by its feerate diagram. Diagrams are compared through a
  dual: one is nowhere below another exactly when, at every price per unit of size, its best running total is at
  least as high. All statements about merging, linearizing and post-linearizing are proved through that.
- **Address manager** (`AddrMan*`). Two bucket tables, an id map, an address map, a random order, reference counts and
  per-network counts have to agree. The invariant is kept by every operation, the manager's own check of itself never
  finds anything wrong, and writing and reading restores everything that is kept, or under other netgroups what comes
  first.
- **UTXO cache** (`Coins*`). A stack of write-back caches over a database shows a plain map.
- **Check queue** (`CheckQueue`). A master and any number of workers, as atomic steps in any interleaving.
- **Headers sync** (`HeadersSync*`). The two downloads of a peer's headers, over whole runs of messages.
- **Big integers and the block index** (`BaseUint*`, `Compact*`, `SkipHeight`, `BlockIndex`,
  `BlockChain`). Arithmetic on 32-bit limbs of any width, compact targets, block work, skip lists, forks and locators.
- **Encodings** (`Radix`, `Base58`, `BitConversion`, `Field`, `Checksum`, `Interpolation`, `Gf32`, `Gf32Field`,
  `HrpString`, `Bech32`, `Bech32Example`, `Codex*`). Base58 as a change of radix, checksums as remainders over any
  field with x + x = 0, Lagrange interpolation over any such field, and their instances over GF(32) for Bech32 and Bech32m
  (BIP 173, BIP 350) and codex32 (BIP 93).

Hashes, commitment bits, difficulty rules, block pins, netgroups and the properties of network addresses are left to
the environment: they are function-valued parameters about which nothing is assumed beyond what a row says. Random
choices are nondeterministic. Times are parameters. Integers are unbounded except where widths matter (limbs,
remainders, compact targets), where they are written out.

`dafny verify dfyconfig.toml` checks the whole project.

## Model

| member | source | states |
|---|---|---|
| DepGraphs.DepGraph.AddTransaction | src/cluster_linearize.h:133-146 | The first free position is taken, the other feerates stay, and ancestor and descendant sets remain the reachability relation of all dependencies ever added, restricted to the used positions |
| DepGraphs.DepGraph.RemoveTransactions | src/cluster_linearize.h:157-171 | Positions go, feerates of the others stay, and what depended through a removed transaction still does |
| DepGraphs.DepGraph.AddDependencies | src/cluster_linearize.h:177-198 | Exactly the edges from the parents to the child join the relation, and both kinds of sets stay its transitive closure and mutually inverse |
| DepGraphs.DepGraph.Remap | src/cluster_linearize.h:89-111 | Rebuilding from reduced parents at mapped positions gives an isomorphic graph |
| DepGraphs.GetReducedParents | src/cluster_linearize.h:208-219 | The parents that are not ancestors of other parents |
| DepGraphs.ReducedParentsMinimal | src/cluster_linearize.h:200-219 | Of the subsets of the reduced parents only all of them regenerate the ancestors |
| Components.FindConnectedComponent | src/cluster_linearize.h:265-280 | The least set closed under neighbours that holds the first transaction |
| Components.IsConnected | src/cluster_linearize.h:286-289 | True exactly for sets with no proper nonempty closed subset |
| Merging.AppendTopo | src/cluster_linearize.h:301-311 | The selection is appended in a topological order, sorted as the source sorts it |
| Diagrams.DiagramDuality | src/cluster_linearize.h:366-389 | A concave diagram is nowhere below another of the same extent exactly when its best running total is no lower at every price |
| Chunkings.ChunkLinearization | src/cluster_linearize.h:373-389 | The chunk feerates fall, conserve total fee and size, and form the least concave diagram above all running totals |
| Chunkings.ChunkDiagramIsLeastConcaveMajorant | src/cluster_linearize.h:373-389 | The chunk diagram passes above every running total and below every concave diagram of the same extent that does |
| Chunkings.ChunkingUnique | src/cluster_linearize.h:373-389 | There is only one way to cut a linearization into tight chunks of falling feerate |
| Chunkings.FirstChunkBest | src/cluster_linearize.h:373-389 | No prefix has a higher feerate than the first chunk, and no shorter one as high |
| Chunkings.AtLeastAsGoodIffOutprices | src/cluster_linearize.h:366-389 | One linearization's chunk diagram is nowhere below another's exactly when its running totals outprice the other's |
| LinearizationChunkings.LinearizationChunking.constructor | src/cluster_linearize.h:440-448 | The chunks are those of the linearization |
| LinearizationChunkings.LinearizationChunking.BuildChunks | src/cluster_linearize.h:411-436 | The chunks become those of what remains |
| LinearizationChunkings.LinearizationChunking.MarkDone | src/cluster_linearize.h:461-481 | What remains loses the subset, and the chunks, skipped or rebuilt, are those of chunking it from scratch |
| LinearizationChunkings.LinearizationChunking.IntersectPrefixes | src/cluster_linearize.h:492-516 | The intersection of the subset with the shortest prefix of chunks for which its feerate is not below the subset's, and the subset itself if there is no shorter one |
| LinearizationChunkings.MoveToFront | src/cluster_linearize.h:483-516 | Moving such an intersection to the front never lowers the diagram anywhere |
| Merging.MergeLinearizations | src/cluster_linearize.h:1302-1337 | A topological permutation at least as good as both inputs |
| AncestorFinders.AncestorCandidateFinder.constructor | src/cluster_linearize.h:543-567 | The kept feerate of each transaction is that of its ancestor set |
| AncestorFinders.AncestorCandidateFinder.MarkDone | src/cluster_linearize.h:575-586 | The same, for the ancestors that remain |
| AncestorFinders.AncestorCandidateFinder.FindCandidateSet | src/cluster_linearize.h:605-618 | A remaining ancestor set that no other beats |
| SearchFinders.SearchCandidateFinder.constructor | src/cluster_linearize.h:669-692 | Everything remains, in a copy of the graph sorted by feerate |
| SearchFinders.SearchCandidateFinder.MarkDone | src/cluster_linearize.h:992-998 | What remains loses the set |
| SearchFinders.SearchCandidateFinder.FindCandidateSet | src/cluster_linearize.h:717-986 | A topological subset no worse than the given one; with fewer than the allowed iterations, none has a higher feerate; and there are never more iterations than 2^(n-1) for n transactions |
| Searching.FindCandidate | src/cluster_linearize.h:717-986 | The branch-and-bound search itself: with fewer than the allowed splits, whatever the order of the queue, bound pruning, the filter on potential and the jump ahead lose no better set; and it never takes more than 2^(n-1) splits for n transactions, so that with more allowed the result is optimal |
| SearchBounds.OneRelated | src/test/fuzz/cluster_linearize.cpp:653-657 | A transaction that is related to another does not double the number of topological subsets, the empty one included |
| SearchBounds.FewDownsets | src/test/fuzz/cluster_linearize.cpp:653-657 | A connected set of n transactions has at most 2^(n-1) topological subsets that are not empty |
| Searching.SplitLoad | src/cluster_linearize.h:860-945 | A split separates the topological sets of a family, so what is left to split is at least one less |
| Linearizing.Linearize | src/cluster_linearize.h:1019-1094 | A topological permutation at least as good as the old one; if reported optimal, at least as good as every linearization; and reported optimal whenever the iterations allowed are at least n^2/64 and n/4 + ... + 1/4, each rounded up, and 2^n + 1 |
| Linearizing.EnoughForNext | src/cluster_linearize.h:1055-1070 | With enough iterations, half of what is left after setting up a search is more than it takes, and what it leaves is enough for one transaction less |
| PostLists.MergeRepresents | src/cluster_linearize.h:1243-1256 | The entries changed by a merge turn a linked list that stands for groups of transactions into one that stands for the groups with two neighbours merged |
| PostLists.SwapRepresents | src/cluster_linearize.h:1257-1269 | The three links changed by a swap turn it into one that stands for the groups with two neighbours swapped |
| PostLinearizing.Settle | src/cluster_linearize.h:1229-1270 | Merging and swapping in the list does to the groups what moving the last group towards the front does |
| PostPasses.PassGrouped | src/cluster_linearize.h:1213-1271 | After a pass the groups have falling feerates and are a topological order that outprices the one before |
| PostLinearizing.WriteBack | src/cluster_linearize.h:1273-1294 | Following the links backwards writes the groups in the direction of the pass, and fills the array |
| PostLinearizing.PostlinearizedConnected | src/cluster_linearize.h:1096-1111 | Every chunk of the result is connected |
| PostLinearizing.PostLinearize | src/cluster_linearize.h:1113-1295 | The linked-list passes in place give a topological permutation nowhere worse than the input, and every chunk is connected |
| PostGuarantees.TreesAreOptimal | src/cluster_linearize.h:1102-1111 | If every transaction has at most one child, or every one at most one parent, the result is at least as good as every linearization |
| PostGuarantees.MovedLeafIsHarmless | src/cluster_linearize.h:1102-1111 | Moving a leaf to the end and post-linearizing gives nothing worse than before the move |
| PostGuarantees.ReplacedLeafIsHarmless | src/cluster_linearize.h:1102-1111 | The same if in addition the leaf's fee is raised |
| AddrMans.AddrMan.constructor | src/addrman.cpp:109-125 | An empty manager of which everything agrees |
| AddrMans.AddrMan.Create | src/addrman.cpp:416-430 | One more entry with a new id, in no table but counted, at the end of the random order, everything else agreeing |
| AddrMans.AddrMan.SwapRandom | src/addrman.cpp:432-454 | Two positions of the random order change places, with the entries' own record of them, and nothing else |
| AddrMans.AddrMan.Delete | src/addrman.cpp:456-471 | An entry in no table goes, everything still agrees, the tables stay and other entries change at most their position |
| AddrMans.AddrMan.ClearNew | src/addrman.cpp:473-489 | The slot is empty, everything still agrees, and only the entry that was there has changed or, with its last reference, gone |
| AddrMans.AddrMan.DropRefs | src/addrman.cpp:495-507 | Visiting the buckets in turn always ends with no reference left, whether or not it stops early |
| AddrMans.AddrMan.MakeTried | src/addrman.cpp:491-548 | The entry is in its slot of the tried table and nowhere in the new one, an evicted entry is in its place in the new table, no record has changed, at most the entry displaced there has gone, and everything agrees |
| AddrMans.AddrMan.AddSingle | src/addrman.cpp:550-624 | True exactly if the address is routable, new or with news, and its slot free or held by an entry to be replaced. Then its entry, recorded as told, is in that slot and at most the entry there has gone; otherwise no entry comes or goes. Nothing else changes, and everything agrees |
| AddrManRecords.TimesTold | src/addrman.cpp:568-578 | Hearing of a known address never makes it older, nor newer than it is said to be less the penalty; what is recorded then lags by no more than an hour, or a day if it was last seen more than a day ago; services are only added |
| AddrManRecords.WhoGetsASlot | src/addrman.cpp:550-624 | A routable address that is not known gets its slot if that is free; a known one gets another only if seen later than recorded, not tried, and with fewer than eight |
| AddrManRecords.OnlyTerribleDeleted | src/addrman.cpp:601-620 | Hearing of an address deletes no entry but a terrible one |
| AddrManRecords.TerribleExactly | src/addrman.cpp:69-92 | When an entry is terrible and when not, case by case, in seconds |
| AddrMans.AddrMan.Add | src/addrman.cpp:681-691 | The addresses are heard of one after another, each as AddSingle says, and the result is whether one of them was accepted |
| AddrMans.AddrMan.Good | src/addrman.cpp:626-679 | True exactly if the entry was not in the tried table and need not wait; then it has moved as MakeTried says. Otherwise it waits if it has to and no more than nine others do. The success is recorded, no failures are counted any more, the rest of the record stays, and everything agrees |
| AddrMans.AddrMan.Attempt | src/addrman.cpp:693-711 | The attempt is recorded, and counted as a failure unless one has been since the last success; nothing else changes and everything agrees |
| AddrMans.AddrMan.Connected | src/addrman.cpp:910-927 | The time of a known address moves if it is more than twenty minutes old; nothing else changes and everything agrees |
| AddrMans.AddrMan.SetServices | src/addrman.cpp:929-943 | The services of a known address are replaced; nothing else changes and everything agrees |
| AddrMans.AddrMan.ResolveOne | src/addrman.cpp:951-998 | A collision is settled exactly if the entry has gone or is invalid, or its rival has succeeded lately or may be replaced; and in the last case it has moved as Good says |
| AddrMans.AddrMan.ResolveCollisions | src/addrman.cpp:945-1006 | The collisions there were are resolved in ascending order, each from the state the one before has led to as ResolveOne says, and fairly as AllFair says; collisions only become fewer and everything agrees |
| AddrManCollisions.AllFair | src/addrman.cpp:945-1006 | Over all collisions: a slot has another entry only if the one it had was without success for four hours and untried for a minute, and either tried in the last four hours or the newcomer without success for forty minutes. An entry waits no longer if its rival succeeded in the last four hours, or it has had no success for forty minutes and its rival was not tried in the last minute. It waits on if it is valid, alone and not gone, its rival without success for four hours, and that was tried in the last minute or neither in four hours nor given forty minutes |
| AddrMans.AddrMan.SelectTriedCollision | src/addrman.cpp:1008-1034 | The entry found is the one of the tried table that some waiting entry would evict: the slot looked up is never empty. If there is none, there is no collision or one has been forgotten whose entry has gone |
| AddrMans.AddrMan.GetAddr | src/addrman.cpp:845-884 | Different known addresses that suit the network and quality asked for, no more than either limit allows, and if fewer then all that suit; only the random order changes, and everything agrees |
| AddrMans.SampleSize | src/addrman.cpp:849-856 | The largest number within both limits and the number of entries |
| AddrManChecks.CheckAddrman | src/addrman.cpp:1096-1199 | The code is zero exactly if entries, random order, both tables, reference counts, key and network counts pass what is checked of them |
| AddrManChecks.CheckEntries | src/addrman.cpp:1110-1147 | Zero exactly if every entry passes, and then the sets, counts and tallies collected are those of all entries |
| AddrManChecks.CheckTried | src/addrman.cpp:1149-1168 | Nothing wrong and nothing left exactly if each slot has a tried entry that belongs there, and each tried entry has one |
| AddrManChecks.CheckNew | src/addrman.cpp:1170-1186 | Nothing wrong and nothing left exactly if each slot has an entry that belongs there, and each entry as many slots as it says |
| AddrManChecks.CheckCounts | src/addrman.cpp:1187-1196 | Zero exactly if there are counts for enough networks and each is the number of entries |
| AddrManChecks.InvPasses | src/addrman.cpp:1096-1199 | The check finds nothing wrong with a state in which everything agrees |
| AddrManRuns.Run | src/addrman.cpp:1081-1094 | After each of any operations with times after the epoch the check returns zero, everything agrees, no id is given out again, no slot of the tried table is emptied, and entries are evicted only as the next rows say |
| AddrManRuns.NeverLooksUpNothing | src/addrman.cpp:1026-1033 | At every point of a run, an entry that waits for a slot of the tried table waits for one that holds a tried entry |
| AddrManRuns.StaysTaken | src/addrman.cpp:491-548 | A slot of the tried table taken at one point of a run is taken at every later one |
| AddrManRuns.OnlyStaleEntriesLeave | src/addrman.cpp:945-1006 | If successes wait for entries to be tested, an entry leaves its slot of the tried table at no point of any run but when collisions are resolved while it has had no success in four hours and no attempt in a minute, and either was tried in the last four hours or the entry that takes the slot has had no success in forty minutes |
| AddrManRuns.WaitsAsLongAsItShould | src/addrman.cpp:945-1006 | Whenever in a run collisions are resolved, entries are settled and wait on as AllFair says |
| AddrManFiles.Serialize | src/addrman.cpp:133-228 | What is written lists the new entries, the tried entries, and per bucket the places of its entries, and the counts written are the numbers of entries |
| AddrManRestores.AllPlaced | src/addrman.cpp:348-376 | Placing the entries bucket by bucket gives every one its old slots back, although a slot taken earlier would send it elsewhere |
| AddrManUnserialize.Unserialize | src/addrman.cpp:231-399 | Accepting means that the check passes. What a consistent manager has written is always accepted, whatever the netgroups and asmap it is read under, everything agrees, no record has changed, and those survive that the next rows say; with the same netgroups and asmap and all entries valid everything is restored |
| AddrManUnserialize.TriedSurvivors | src/addrman.cpp:293-314 | Whatever it is read under, exactly the tried entries that are the first valid ones for their slots survive |
| AddrManUnserialize.NewSurvivors | src/addrman.cpp:348-388 | Read under another asmap, exactly the new entries survive that are the first valid ones, in the order of the slots they were in, for the slot that their source leads to |
| AddrManUnserialize.SaveAndMove | src/addrman.cpp:133-399 | Written and read under any other netgroups, the file is accepted and the two rows above hold of the new manager |
| AddrManUnserialize.SaveAndLoad | src/addrman.cpp:133-399 | Both tables, reference counts, kept fields and all counts come back, up to a renaming of ids |
| CoinsCaches.AddFlagsListed | src/coins.h:132-144 | Flagging an entry appends it to the list of flagged entries, unless it is there |
| CoinsCaches.SetCleanListed | src/coins.h:180-187 | Cleaning an entry takes it from the list, and the links stay those of the rest |
| CoinsCaches.EraseListed | src/coins.h:172-187 | Erasing a flagged entry takes it from the list |
| CoinsBatches.NextAndMaybeErase | src/coins.h:284-298 | The entry is erased or cleaned, and the cursor is at the next flagged one |
| CoinsBatches.BatchWrite | src/coins.cpp:186-252 | Each flagged entry of the child is merged into the parent, which then shows what the child showed, and neither error is possible |
| CoinsBatches.BatchWriteDb | src/txdb.cpp:108-167 | The database holds what the child showed |
| CoinsViews.CoinsStack.Push | src/coins.cpp:37-42 | A new cache on top shows what is below it |
| CoinsViews.CoinsStack.Pop | src/coins.cpp:37-42 | Dropping the top, its changes included, leaves the views below as they are |
| CoinsViews.CoinsStack.FetchCoin | src/coins.cpp:48-64 | No view changes; not found means that the view has no such coin |
| CoinsViews.CoinsStack.GetCoin | src/coins.cpp:66-70 | What the view has, and no view changes |
| CoinsViews.CoinsStack.AddCoin | src/coins.cpp:72-111 | The view has the coin unless it is unspendable, the views below stay, and no error is thrown |
| CoinsViews.CoinsStack.SpendCoin | src/coins.cpp:133-153 | The view loses the coin, which is handed out, and the views below stay |
| CoinsViews.CoinsStack.Uncache | src/coins.cpp:278-291 | No view changes; an entry without flags is gone from the top cache, and nothing else changes there |
| CoinsViews.CoinsStack.WriteToCache | src/coins.cpp:186-252 | Writing the top into the cache below leaves every view below that one and what the top shows as they were, and the view below shows the latter |
| CoinsViews.CoinsStack.WriteToDb | src/txdb.cpp:108-167 | The same into the database |
| CoinsViews.CoinsStack.Flush | src/coins.cpp:254-263 | The view below shows what the top showed, the top is empty, and no error is thrown |
| CoinsViews.CoinsStack.Sync | src/coins.cpp:265-276 | The view below shows what the top showed, the top is clean, and no error is thrown |
| CoinsViews.CoinsStack.SanityCheck | src/coins.cpp:319-350 | The check of flags, linked list and memory use always passes |
| CoinsSanity.SanityCheck | src/coins.cpp:319-350 | It passes for every cache with legal flags and a list of exactly the flagged entries |
| CheckQueues.NextInv | src/checkqueue.h:72-137 | Every step of any thread keeps the invariant |
| CheckQueues.NothingLost | src/checkqueue.h:72-137 | In every interleaving the count of checks to do is the queue plus all batches in flight, and every check given to Add since Complete last returned is queued, in flight or retired |
| CheckQueues.AddedIsGiven | src/checkqueue.h:172-182 | In every run, what is recorded as added is the concatenation of what the Add steps since the last return of Complete were given |
| CheckQueues.OutcomesAreRight | src/checkqueue.h:72-137 | Every session is one return of Complete, at which all checks given to Add since the return before have been retired; the outcome is nothing exactly if all of them pass, and otherwise that of one of them |
| CheckQueues.NeverStuck | src/checkqueue.h:72-137 | While the master waits, some thread can make progress |
| CheckQueues.EffortFalls | src/checkqueue.h:72-137 | Each step of progress reduces a measure of the work left |
| CheckQueues.EffortNeverRises | src/checkqueue.h:72-137 | While Complete has not returned, no step of any thread adds to the measure, a spurious wake-up neither, and each step of progress reduces it |
| CheckQueues.CompleteReturns | src/checkqueue.h:166-182 | In every run, with spurious wake-ups anywhere: while the master is in Complete there is a step of progress to make, and it has left Complete at some point of every stretch that has more such steps than the measure at its start |
| HeadersSyncs.HeadersSyncState.ValidateAndProcessSingleHeader | src/headerssync.cpp:179-221 | The state after one header in PRESYNC, accepted or not, is that of the transition the run results are about |
| HeadersSyncs.HeadersSyncState.ValidateAndStoreHeadersCommitments | src/headerssync.cpp:140-177 | The same for a message, with the switch to REDOWNLOAD |
| HeadersSyncs.HeadersSyncState.ValidateAndStoreRedownloadedHeader | src/headerssync.cpp:223-294 | The same for one header in REDOWNLOAD |
| HeadersSyncs.HeadersSyncState.PopHeadersReadyForAcceptance | src/headerssync.cpp:296-310 | The same for releasing headers from the buffer |
| HeadersSyncs.HeadersSyncState.Finalize | src/headerssync.cpp:52-64 | The same for giving up all memory |
| HeadersSyncs.HeadersSyncState.ProcessNextHeaders | src/headerssync.cpp:69-138 | The same for a whole message |
| HeadersSyncRuns.ReleasesRedownloadedChain | src/headerssync.cpp:69-138 | Over any messages, what is released is a prefix of the redownloaded headers, a chain from the known block in which each header passes the difficulty rule after its true predecessor and, until the work suffices, the pins; nothing is released in PRESYNC |
| HeadersSyncRuns.EarlyReleasesAreDeep | src/headerssync.cpp:16-20 | A header released before the work suffices has at least 23 verified commitments above it |
| HeadersSyncRuns.PreviousIsTip | src/headerssync.cpp:240-256 | The buffer is empty only before the first header, so the difficulty is compared with that of the true predecessor |
| HeadersSyncRuns.HonestPeerSucceeds | src/headerssync.cpp:140-294 | A peer that twice serves a chain that is linked, permitted, pinned, within the commitments allowed and has the work, cut into any nonempty messages that are full until the work suffices, succeeds: each PRESYNC message succeeds and asks for more until REDOWNLOAD begins with the commitments of what was served, and in REDOWNLOAD each succeeds until the sync is complete and all that was served is released |
| HeadersSyncRuns.HonestRedownload | src/headerssync.cpp:69-138 | The same of the second download, after any run that led to REDOWNLOAD whose messages had headers that follow one another, and of any chain that continues what was accepted |
| HeadersSyncRuns.HonestPresyncMessage | src/headerssync.cpp:69-177 | One message of such a chain in PRESYNC succeeds, asks for more, and leads to REDOWNLOAD exactly if the work suffices |
| HeadersSyncRuns.OnlyFullGoesOn | src/headerssync.cpp:69-138 | A sync goes on after a message only if that was accepted, and full or the one that led to REDOWNLOAD |
| HeadersSyncRuns.MemoryIsBounded | src/headerssync.cpp:179-310 | After any messages from anyone, there are no more commitments than allowed and no more headers in the buffer than its size |
| BaseUints.Add | src/arith_uint256.h:116-126 | The sum modulo 2^BITS, also of a number with itself |
| BaseUints.Complement | src/arith_uint256.h:50-56 | The number that is missing to one less than 2^BITS |
| BaseUints.Negate | src/arith_uint256.h:58-67 | The negative modulo 2^BITS |
| BaseUints.Increment | src/arith_uint256.h:154-161 | One more, modulo 2^BITS |
| BaseUints.Subtract | src/arith_uint256.h:128-132 | The difference modulo 2^BITS, exact if it is not negative |
| BaseUints.CompareTo | src/arith_uint256.cpp:102-111 | The sign of the difference |
| BaseUintsMultiply.Scale | src/arith_uint256.cpp:48-57 | The product with a limb modulo 2^BITS |
| BaseUintsMultiply.Multiply | src/arith_uint256.cpp:60-73 | The product modulo 2^BITS, also of a number with itself |
| BaseUintsShift.ShiftLeft | src/arith_uint256.cpp:14-28 | The product with a power of two modulo 2^BITS, for any distance |
| BaseUintsShift.ShiftRight | src/arith_uint256.cpp:31-45 | The quotient by a power of two, for any distance |
| BaseUintsDivide.Bits | src/arith_uint256.cpp:156-168 | The number of bits |
| BaseUintsDivide.Divide | src/arith_uint256.cpp:76-99 | The floor of the quotient, also of a number by itself; refused exactly for a zero divisor |
| CompactTargets.EqualTo | src/arith_uint256.cpp:114-125 | Equality with a 64-bit number |
| CompactTargets.SetCompact | src/arith_uint256.cpp:175-193 | mantissa times 256^(size-3) modulo 2^256, with a negative flag for nonzero words with the sign set, and an overflow flag exactly if it does not fit |
| CompactTargets.TooLargeIsOverflow | src/arith_uint256.cpp:188-191 | The size ranges tested are exactly those in which mantissa times 256^(size-3) is at least 2^256 |
| CompactTargets.GetBlockProof | src/chain.cpp:131-144 | The floor of 2^256/(target+1) for every valid target and zero otherwise, without a division by zero |
| CompactRoundTrips.GetLow64 | src/arith_uint256.h:226-230 | The number modulo 2^64 |
| CompactRoundTrips.GetCompact | src/arith_uint256.cpp:195-216 | The canonical size and mantissa of the number |
| CompactRoundTrips.RoundsDown | src/arith_uint256.cpp:175-216 | Compacting and expanding never rounds up and loses less than one part in 2^15 |
| CompactRoundTrips.CompactExpanded | src/arith_uint256.cpp:175-216 | Expanding and compacting gives a compact number back exactly if it is canonical |
| SkipHeights.FewSteps | src/chain.cpp:80-118 | From any height to any lower one, the walk by skip pointers takes no more steps than the square of the number of binary digits of the height |
| BlockIndexes.GetAncestor | src/chain.cpp:93-118 | Following skip pointers ends at the block the walk over predecessors ends at, and at nothing for heights out of range, in no more steps than the square of the digits of the height |
| BlockIndexes.BlockTree.AddBlock | src/chain.cpp:125-129 | The new block's skip pointer is the ancestor at the skip height, and all others stay right |
| BlockChains.Chain.SetTip | src/chain.cpp:21-29 | Despite stopping early, the chain becomes the ancestors of the tip by height |
| BlockChains.Chain.FindFork | src/chain.cpp:60-69 | The highest ancestor that is in the chain |
| BlockChains.LastCommonAncestor | src/chain.cpp:165-180 | The highest common ancestor |
| BlockChains.LocatorEntries | src/chain.cpp:31-48 | Ancestors down to genesis, the first twelve one by one and then at distances that double, of which there are no more than the logarithm of the height and twelve |
| Base58.EncodeBufferFits | src/base58.cpp:89-127 | len*138/100+1 digits in base 58 hold every number of len bytes |
| Base58.DecodeBufferFits | src/base58.cpp:40-87 | len*733/1000+1 bytes hold every number of len digits in base 58 |
| Base58.MulAdd | src/base58.cpp:60-75 | The carry loop multiplies the buffer and adds, and nothing is carried out of it |
| Base58.Alphabet | src/base58.cpp:18-38 | The letters are all digits and letters but 0, O, I and l, in ascending order |
| Base58.EncodeBase58 | src/base58.cpp:89-127 | A one per leading zero byte, and the digits of the rest |
| Base58.DecodeBase58 | src/base58.cpp:40-87 | The number within spaces, a zero byte per leading one, refused for other letters, for text after spaces and for results that are too long |
| Base58.DecodeEncoded | src/base58.cpp:40-127 | Decoding undoes encoding if the result may be that long |
| Base58.EncodeDecoded | src/base58.cpp:40-127 | What decodes is, without its spaces, what encoding the result gives |
| BitConversions.ConvertBits | src/util/strencodings.h:269-293 | The same bits in digits of another size, padded with zeroes or cut; without padding it succeeds exactly if fewer bits than a digit are left and they are zero; negative input is refused |
| BitConversions.BackAgain | src/util/strencodings.h:269-293 | Converting to smaller digits with padding and back without gives the digits back, and drops only padding |
| Gf32.GenerateTables | src/codex32.cpp:37-68 | The tables are the powers of the root and their logarithms |
| Gf32.TableMulIsMul | src/codex32.cpp:74-79 | Multiplication through the tables is multiplication of polynomials modulo x^5+x^3+1 |
| Gf32.TableDivIsInverse | src/codex32.cpp:81-87 | Division through the tables undoes it |
| Gf32Fields.IsAField | src/codex32.cpp:74-87 | GF(32) is a field |
| Checksums.ChecksumCompletes | src/bech32.cpp:312-323 | Over every field and generator: the remainder after as many zeroes, plus the target, appended, makes the remainder the target |
| Checksums.BurstDetected | src/bech32.cpp:115-201 | Over every field and generator that does not end in zero: a change within as many values as the checksum has always changes the remainder |
| HrpStrings.CheckCharacters | src/bech32.cpp:272-294 | True exactly for printable text that does not mix cases |
| HrpStrings.PreparePolynomialCoefficients | src/bech32.cpp:345-358 | High bits, a zero, low bits, and the values |
| HrpStrings.Render | src/bech32.cpp:362-375 | The text of a human readable part, values and checksum |
| HrpStrings.Read | src/bech32.cpp:378-402 | The parts of a text, or failure for the reasons of the source |
| HrpStrings.ReadRendered | src/bech32.cpp:362-402 | Reading undoes writing for every legal human readable part within the limit |
| HrpStrings.RenderRead | src/bech32.cpp:362-402 | What was read is written, in lower case, as the text it was read from |
| HrpStrings.ReadLower | src/bech32.cpp:378-402 | Text that does not mix cases reads as the same text in lower case |
| Bech32.PackedStepIs | src/bech32.cpp:115-201 | The six packed coefficients follow the division by the generator |
| Bech32.PolyMod | src/bech32.cpp:115-201 | The packed remainder of the whole message |
| Bech32.CreateChecksum | src/bech32.cpp:312-323 | The values that ChecksumIsUnique is about |
| Bech32.VerifyChecksum | src/bech32.cpp:297-309 | The encoding whose constant the remainder is, if any |
| Bech32.ChecksumVerifies | src/bech32.cpp:297-323 | A message with its checksum verifies, as the encoding the checksum is of |
| Bech32.ChecksumIsUnique | src/bech32.cpp:297-323 | No other six values make it verify as that encoding |
| Bech32.BurstIsNoticed | src/bech32.cpp:115-201 | A change within six consecutive values always changes the remainder |
| Bech32.Encode | src/bech32.cpp:407-409 | The text that DecodeEncoded is about |
| Bech32.Decode | src/bech32.cpp:412-417 | The parts that EncodeDecoded is about, or failure |
| Bech32.DecodeEncoded | src/bech32.cpp:407-417 | Decoding gives back encoding, human readable part and values |
| Bech32.EncodeDecoded | src/bech32.cpp:407-417 | What decodes is, in lower case, the encoding of what it decodes to |
| Bech32.DecodesExactly | src/bech32.cpp:407-417 | Exactly the texts that do not mix cases, fit the limit and are, in lower case, the encoding of something are decoded |
| Bech32Examples.Bip173 | src/bech32.cpp:407-417 | A valid text of BIP 173 that has every character is the encoding of the values 0 to 31, and decodes to them as Bech32 |
| Bech32Examples.Bip350 | src/bech32.cpp:407-417 | A valid text of BIP 350 is the encoding of the values 31 to 0, and decodes to them as Bech32m |
| CodexChecksums.PolyMod | src/codex32.cpp:115-173 | The in-place loops compute the remainder, for any generator |
| CodexChecksums.CreateChecksum | src/codex32.cpp:191-201 | The values that ChecksumIsUnique is about |
| CodexChecksums.VerifyChecksum | src/codex32.cpp:177-187 | True exactly if the remainder is the target |
| CodexChecksums.ChecksumIsUnique | src/codex32.cpp:177-201 | The checksum created, and nothing else of its length, makes a message verify |
| CodexChecksums.BurstIsNoticed | src/codex32.cpp:115-173 | A change within as many values as the checksum has always changes the remainder |
| CodexChecksums.TargetsSpell | src/codex32.cpp:88-107 | The targets spell secretshare32 and secretshare32ex |
| Interpolations.InterpolationIsExact | src/codex32.cpp:207-219 | Over every field: the weighted sum at a point is the value there of the polynomial, if it has no more coefficients than there are points |
| Interpolations.CombinedAtPoint | src/codex32.cpp:207-219 | At one of the points it is the value there |
| CodexShares.LagrangeCoefficient | src/codex32.cpp:207-219 | The weight of a share |
| CodexShares.CheckShare | src/codex32.cpp:368-388 | What is reported for a share, or what was reported before |
| CodexShares.FaultlessIsConsistent | src/codex32.cpp:368-391 | Nothing is reported exactly if the shares agree on length, threshold and identifier and have different indices |
| CodexShares.Derive | src/codex32.cpp:349-407 | The error of the source, or the shares interpolated place by place at the index asked for |
| CodexShares.KeepsHeader | src/codex32.cpp:349-407 | Length, threshold and identifier are kept |
| CodexShares.HasRequestedIndex | src/codex32.cpp:349-407 | The index is the one asked for exactly if there are two shares or it is that of the only one |
| CodexShares.ReturnsOwnShare | src/codex32.cpp:349-407 | At the index of a given share, that share is derived |
| CodexShares.DerivedSharesAgree | src/codex32.cpp:349-407 | Shares on the same polynomials derive the same |
| CodexShares.AnyDerivedSharesDo | src/codex32.cpp:349-407 | As many derived shares as originals, at different indices, derive what the originals do, the secret included |
| CodexShares.DerivedIsWellFormed | src/codex32.cpp:349-407 | What is derived without error from shares is a share |
| CodexShares.LoneShareIsKept | src/codex32.cpp:349-407 | From one share only that share is derived, whatever the index |
| CodexShares.LoneSecretHasWrongIndex | src/codex32.cpp:349-407 | A lone share of threshold zero asked for the index a answers with itself, whose index is s |
| Codex32.Encode | src/codex32.cpp:244-251 | The text that ParseEncoded is about |
| Codex32.Parse | src/codex32.cpp:254-306 | The share a text stands for, or the error of the source |
| Codex32.ParseEncoded | src/codex32.cpp:244-306 | A share's text is read as that share exactly for the lengths that have text, and otherwise refused as invalid length |
| Codex32.EncodeParsed | src/codex32.cpp:244-306 | What is read as a share is, in lower case, that share's text |
| Codex32.AcceptedExactly | src/codex32.cpp:244-306 | Exactly the texts that do not mix cases and are, in lower case, the text of a share of a length that has text are accepted |
| Codex32.FromParts | src/codex32.cpp:308-347 | The error of the last check that fails, or a share from which the parts are read back |
| Codex32.GetPayload | src/codex32.h:94-104 | The whole bytes of the payload values |
| Codex32.PayloadComesBack | src/codex32.cpp:308-347 | The payload a share was made of is read from it |
| Codex32.PayloadHasText | src/codex32.cpp:244-347 | A share made of a payload has a text that is read as it exactly for 16 to 44 and 47 to 64 bytes |
| Codex32.FortyFiveBytesRefused | src/codex32.cpp:244-306 | A payload of 45 bytes gives 78 values, whose text is refused |

## Findings

Two things one might expect of the code are not so. Each has its exact condition and an input.

- Not every seed that codex32 can hold can be written and read again. Writing uses the short checksum for up to 80
  values (`src/codex32.cpp:247`), reading accepts the short checksum for up to 77 of them (`src/codex32.cpp:273`). So
  payloads of 45 and 46 bytes give text that is refused. `Codex32.PayloadHasText` is the condition in terms of the
  payload, `Codex32.ParseEncoded` in terms of the values, `Codex32.FortyFiveBytesRefused` an input.
- Deriving a share does not always give it the index asked for. A lone share with threshold zero passes all checks
  and is returned as it is, without error. `CodexShares.HasRequestedIndex` is the condition,
  `CodexShares.LoneSecretHasWrongIndex` an input.

## Left out

- Linearizing.Linearize: does not say that more than 2^n iterations are enough, as src/test/fuzz/cluster_linearize.cpp:874-880 expects of up to 19 transactions; the costs that are charged for setting up come on top here.
- 64-bit and 32-bit overflow of fees, sizes, iteration counts, chain work and the queue's counters: numbers are unbounded there.
- GetReducedChildren, which mirrors GetReducedParents, and the lexicographic comparison of linearizations.
- The order in which std::sort leaves equal elements: sorting is by insertion.
- The 110 steps that a comment in the source reports from simulations for heights up to 2^18, where the square of the digits is 361.
- FindEarliestAtLeast and GetBlockProofEquivalentTime.
- The decrement, bitwise and double conversions of big integers.
- Selecting an address to connect to, with its chances in floating point, and the listing of entries.
- Reading address files of older formats, and the bytes of the format: what is written is modelled as a record.
- AddrManUnserialize.Unserialize: does not say which new entries survive if the asmap is the same but netgroups differ or entries are invalid, and of a file that no consistent manager wrote only that the check passes if it is accepted.
- The best block hash of coins views, batches that fail, EmplaceCoinInternalDANGER, AddCoins, AccessByTxid and two caches over one base.
- Base58Check, and locating errors in Bech32 text.
- The guarantee of Bech32 that four errors within 89 characters are detected, which rests on an enumeration; a change within six consecutive values is covered.
- Characters above 127 in codex32 parts, which the source looks up outside its table: they count as not in the character set.
- Locks, notification order and thread creation of the check queue beyond the atomic steps.
