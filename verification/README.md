# CortexTheseus in Dafny

A model of the parts of the CortexTheseus node that keep invariants nobody wrote down:
the canonical chain and its readers, the section indexer, the event feed, the accounting
of transactions and blocks, and three smaller algorithms. Loops over mutable state are
methods with loop invariants, proved against closed-form specifications; what the
program promises is proved about the specifications, over all inputs and all runs.

`dafny verify dfyconfig.toml` checks the project.

| file | models |
|---|---|
| `BlockTree.dfy` | headers, ancestry, total difficulty |
| `HeaderState.dfy`, `HeaderChain.dfy` | header import, rewind, ancestor lookup |
| `HeadRuns.dfy` | header imports and block writes on one database |
| `HeaderQuery.dfy` | the responder to header requests |
| `HashLookup.dfy` | the block-hash cache of the virtual machine |
| `BlockState.dfy`, `BlockChain.dfy` | reorganisation, transaction index, block writes, side chains |
| `Rewind.dfy`, `ChainRewind.dfy` | rewinding the head block to a block with state, and the whole chain |
| `ChainIndexer.dfy` | the section indexer |
| `Feed.dfy` | one-to-many delivery |
| `Balances.dfy`, `ModelGas.dfy`, `Pools.dfy`, `StateTransition.dfy`, `StateProcessor.dfy` | gas, fees, author rewards, upload quota |
| `SampleHeap.dfy` | the decaying sample reservoir |
| `DerivationPath.dfy` | key derivation paths |
| `GasLimit.dfy` | the gas limit of the next block |
| `Options.dfy`, `Words.dfy` | optional values, 64-bit words |

## Modelling decisions

- A header commits to its parent through a collision-free hash, so a header carries its
  parent and stands for its own hash. Whether it is stored is a separate matter. Block
  numbers are parent plus one and difficulties positive, as header verification ensures.
- A database batch is a pending copy: reads inside a loop see the committed value, and
  the copy is assigned in one step.
- Random choices, interrupts, failures of other components, the order of map iteration,
  and what a concurrent reader sees are parameters; theorems hold for every value.
- Concurrent code is a state machine over its atomic steps.
- The virtual machine is any function that conserves the total balance and returns no
  more gas than it was given. It is *calm* if no run that may be an upload step makes a
  pending upload below a full step grow, and *steady* if such runs leave it and succeed.
- Statements `hide F` at the start of a proof only keep definitions out of it.

## Where the code falls short of its promise

- A batch of headers that are all known, and that wins the fork choice against a
  different head, moves the head without marking the batch canonical: line 256 of
  `core/headerchain.go` has no first inserted header to count up to. Re-importing the
  loser of a tie is enough, when the coin falls the other way.
  `HeaderState.RunKeepsInvExactlyWhen` shows that nothing else breaks the index of a
  header chain on its own.
- A block write sets the head header to the adopted block even when the header chain is
  ahead, so the head header can fall: `HeadRuns.HeadHeaderNeverFallsExactlyWhen`. A block
  on top of the head block then leaves the markers above it, and one that builds on a
  block off the header chain leaves markers of both: `HeadRuns.RunKeepsIndexExactlyWhen`
  says exactly when, `HeadRuns.HeadersAheadFallBack` is such a run.
- The shortcut of a header import on top of the head does not expect a stored child of the
  head. When the index is right and there is one, an import that starts with it leaves its
  number unmarked: `HeadRuns.KnownChildLeavesGap`. A block whose state could not be
  committed is enough: `HeadRuns.UncommittedBlockLeavesGap`.
- A rewind of the block chain neither deletes nor writes lookup entries, so entries of
  dropped blocks stay (`ChainRewind.LookupLeftBehind`), and if the head block was on another
  fork than the head header, entries of its new path are missing
  (`ChainRewind.LookupMissing`, reached by `HeadRuns.RewindOffForkLosesLookups`):
  `ChainRewind.LookupsSurviveExactlyWhen`.
- `core/blockchain.go:1753-1754` assigns the parent's used quota to a copy of the
  header, so `Process` starts from the quota used after the block. The uploads of a
  block are charged twice on import: `StateProcessor.ImportExactlyWhen`.
- A header request by number with a skip that wraps around repeats headers or turns
  back; requests by hash are guarded: `HeaderQuery.NumberAnswerIsLineExactlyWhen`,
  `HeaderQuery.FullSkipRepeats`.
- A transaction in two blocks of one path can lose its lookup entry in a
  reorganisation: `BlockState.RelookedExactlyWhen`.
- A rewind to a threshold root dereferences nil when it meets a block above the
  threshold that has state but no stored parent: `Rewind.CrashExactlyWhen`,
  `Rewind.MissingParentCrashes`.
- Under a floor above the protocol minimum a gas limit between 1024 and 2047 never moves,
  and one below 1024 falls to 0 before the wrapped step takes it to the floor:
  `GasLimit.BandReachedExactlyWhen`.
- The empty derivation path prints as `m`, which the parser refuses:
  `DerivationPath.RoundTrip`.
- A reservoir of size 0 panics on its first sample: `SampleHeap.ExpDecaySample.Update`.
- The comment of `GetTd` speaks of the canonical chain; the code stores and returns
  total difficulties of every fork. The model follows the code.

## Model

| member | source | states |
|---|---|---|
| HeaderState.ImportKeepsStore | core/headerchain.go:140-292 | whatever the markers look like, an import keeps an ancestor-closed store with one root, right total difficulties, and markers that name stored headers at their own numbers |
| HeaderState.ImportRightExactlyWhen | core/headerchain.go:204-280 | wherever the head block stands and whatever is stored on top of the head, an import leaves the index the path of the head if and only if it loses the fork choice, ends in the head, or brings a new header and, if it sits on the head, starts with one; otherwise the index itself is wrong |
| HeaderState.ImportKeepsInvExactlyWhen | core/headerchain.go:140-292 | for the header chain alone, where no stored header extends the head: an import keeps the invariant (ancestor-closed store, right total difficulties, index = path of the head, no stored child of the head) if and only if it loses the fork choice, brings a header, or ends in the head |
| HeaderState.StepKeepsInvExactlyWhen | core/headerchain.go:140-292 | the same for any operation: rewinds, interrupted imports and imports without a known parent always keep it |
| HeaderState.LosingImportKeepsInv | core/headerchain.go:204-219 | an import that loses the fork choice stores no child of the head and moves no marker |
| HeaderState.NewWinnerKeepsInv | core/headerchain.go:220-280 | a winning batch with a new header ends in a header without stored children |
| HeaderState.KnownWinner | core/headerchain.go:252-280 | a winning batch of known headers keeps the invariant only if it ends in the head; otherwise the head header in the database is the old one and the index is not the path of the new head |
| HeaderState.RunKeepsInvExactlyWhen | core/headerchain.go:140-292 | over every run of imports and rewinds from a fresh chain, the invariant holds in every state if and only if every import is sound |
| HeaderState.OnHeadIsNew | core/headerchain.go:220-223 | a batch on top of the head holds no known header, which is what makes the shortcut for such batches right |
| HeaderState.ImportsNeverLowerHead | core/headerchain.go:204-219 | between rewinds the head never loses total difficulty, nor gains length at equal difficulty |
| HeaderState.HeadIsHeaviest | core/headerchain.go:204-219 | over every run of imports from a fresh chain the head is the heaviest stored header, and a shortest among the heaviest |
| HeaderState.KnownSiblingLosesItsMarkers | core/headerchain.go:224-276 | for any two siblings of equal difficulty on genesis: importing both and the loser again, with the coin its way, leaves a head whose number is marked with its sibling |
| HeaderState.RewindKeepsInv | core/headerchain.go:599-695 | rewinding to any ancestor of the head keeps a right index, and leaves no stored child of the head |
| HeaderState.RewindTargetIsAncestor | core/headerchain.go:618-656 | whatever the callback forces, a rewind stops on an ancestor of the head |
| HeaderState.RewindTargetIsHighest | core/headerchain.go:618-656 | without forcing, it stops on the highest ancestor that meets the requested number or time, or on genesis |
| HeaderState.RewindToNumberIs | core/headerchain.go:618-656 | a rewind to a number stops on exactly that ancestor, or stays if the head is not above it |
| HeaderState.RewindToTimeIs | core/headerchain.go:618-656 | a rewind to a time stops on the highest ancestor that is not later, or on genesis |
| HeaderState.ForcedRewindGoesOn | core/headerchain.go:643-648 | a callback that forces a block below what was asked for, by number or by time, takes the rewind down to the number of that block |
| HeaderState.UnforcedRewind | core/headerchain.go:643-648 | a callback that never forces changes nothing |
| HeaderChain.Collect | core/headerchain.go:148-191 | the known headers of a linked batch are a prefix, the rest is inserted, all total difficulties written are sums back to genesis |
| HeaderChain.DropMarkersFrom | core/headerchain.go:231-238 | on any index, deletes the markers from a number up to the first gap and no other |
| HeaderChain.RelinkFrom | core/headerchain.go:239-251 | on any index in which genesis is marked, writes exactly the markers between the parent and its highest marked ancestor |
| HeaderChain.MarkRun | core/headerchain.go:252-267 | a linked run is marked as the segment of the path of its last header |
| HeaderChain.HeaderChain.MarkersOffHead | core/headerchain.go:230-262 | for a batch off the head and any index: markers dropped above it, relinked below it, and its known part marked only if a new header follows |
| HeaderChain.HeaderChain.ImportMarkers | core/headerchain.go:220-271 | the whole marker batch of a winning import, on any index: on the head only the new headers are marked, elsewhere the batch as a whole if it has a new header |
| HeaderChain.HeaderChain.Commit | core/headerchain.go:193-291 | the whole new state of a committed import: the head is the heavier of the old one and the last of the batch, on a tie the shorter, on a full tie as the coin says; exactly how many headers were known; canonical, side or no status exactly as the head moved |
| HeaderChain.HeaderChain.WriteHeaders | core/headerchain.go:140-292 | refines the closed form of an import: exactly the batch is added to the store, the heavier head wins, on a tie the shorter, on a full tie the coin decides; exactly the first `ignored` headers were known; an unknown parent or an interrupt leaves the database untouched |
| HeaderChain.HeaderChain.TopNumber | core/headerchain.go:658-666 | no stored header lies above the number where the upward scan stops |
| HeaderChain.HeaderChain.WipeDown | core/headerchain.go:667-685 | everything stored in a range of numbers is gone, on all forks, and nothing else |
| HeaderChain.HeaderChain.SetHead | core/headerchain.go:599-695 | refines the closed form of a rewind, on any index and with any callback; if the head moves, exactly the headers above the new one are gone, on all forks; a time before genesis is refused |
| HeaderChain.HeaderChain.GetAncestor | core/headerchain.go:408-445 | agrees with the naive parent walk; answers exactly when the detour to the canonical chain or the distance fits the budget; the budget drops by the single steps taken, and by one for a block that is not stored |
| HeaderChain.DetourIs | core/headerchain.go:422-443 | the detour is the least number of parent steps to a marked header or to genesis |
| HeadRuns.RunKeepsStore | core/blockchain.go:1336-1357 | over every run of header imports, block writes, known blocks, side-chain writes and rewinds, as the methods compute them: every total difficulty is the sum back to genesis, whichever writer recorded it, the header store is ancestor-closed and the head block stored |
| HeadRuns.RunKeepsClosed | core/block_validator.go:68-73 | if a block is written only when the body of its parent is stored, bodies are ancestor-closed and the path of the head block is stored in every state of every run, and no rewind can crash |
| HeadRuns.StepKeepsIndexExactlyWhen | core/blockchain.go:854-875 | from a right index, with the head block anywhere, a step keeps the index right if and only if its import or adoption is sound |
| HeadRuns.RunKeepsIndexExactlyWhen | core/blockchain.go:854-875 | over every run from a fresh database, rewinds included, the index is the path of the head header in every state if and only if every import and every adoption is sound |
| HeadRuns.StepKeepsLookupsExactlyWhen | core/blockchain.go:2124-2132 | a step keeps a right lookup index right if and only if its adoption loses no transaction and its rewind goes to a block with the same entries above the fork |
| HeadRuns.RunKeepsLookupsExactlyWhen | core/blockchain.go:2124-2132 | over every run from a fresh database the lookup index is that of the path of the head block in every state if and only if every step keeps it |
| HeadRuns.HeadBlockNeverFalls | core/blockchain.go:1417-1449 | over any mix of header imports, block writes and side-chain writes the head block never loses total difficulty, nor gains length at equal difficulty |
| HeadRuns.HeadBlockBeatsWritten | core/blockchain.go:1417-1449 | from the write of a committed block that can be reorganised to, until a known block is adopted or the chain rewound, the head block is never lighter than that block, nor longer at equal weight |
| HeadRuns.HeadHeaderNeverFallsExactlyWhen | core/blockchain.go:854-875 | between any two points of a run the head header never falls if and only if in between no block is adopted that does not come up to it and no header is dropped by a rewind |
| HeadRuns.HeadersAheadFallBack | core/blockchain.go:854-875 | for any two blocks on genesis: importing both headers and then writing the first block takes the head header back to it, leaves the marker above it, and a stored child of the head |
| HeadRuns.KnownChildLeavesGap | core/headerchain.go:220-267 | from a right index, when the head has a stored child, a header import on the head that starts with that child leaves its number unmarked |
| HeadRuns.UncommittedBlockLeavesGap | core/blockchain.go:1350-1369 | a run that ends there: a block is stored and its state not committed, then its header and the next are imported |
| HeadRuns.RewindOffForkLosesLookups | core/blockchain.go:592-657 | a run after which a rewind leaves a head block without lookup entries: two blocks of equal weight, the header of a child of the second, and a rewind |
| HeaderQuery.NextTowardsGenesis | ctxc/handler.go:551-559 | for every stored header, canonical or not: the next header is exactly skip+1 generations older, and there is one exactly when the line is long enough and the detour to the canonical chain fits the budget, which is not touched for skip 0; a skip that overflows ends the answer; what is left of the budget |
| HeaderQuery.NextTowardsHead | ctxc/handler.go:560-582 | the next header is exactly skip+1 generations younger, and only canonical headers are followed |
| HeaderQuery.NextByHash | ctxc/handler.go:549-582 | the next header is one step on in the requested direction; towards genesis there is one, from any stored header, exactly when line and budget allow; towards the head exactly from the canonical chain when the line is long enough |
| HeaderQuery.AnswerByHash | ctxc/handler.go:506-596 | an answer starts at the origin, steps skip+1 generations in the requested direction and respects amount, fetch and size limits; towards genesis, from any origin, it ends only at a limit, at the end of the line, or where more than 100 blocks off the canonical chain would be visited, which cannot happen for skip 0; towards the head it ends only at a limit or the end of the line, and a side block is followed by nothing |
| HeaderQuery.LineIsAncestry | ctxc/handler.go:506-596 | any two headers of an answer are on one line of ancestry, as far apart as their positions say |
| HeaderQuery.NumberStepExactlyWhen | ctxc/handler.go:583-594 | a step by number is a step by ancestry if and only if it does not wrap around |
| HeaderQuery.NumberAnswerIsLineExactlyWhen | ctxc/handler.go:522-595 | an answer by number of more than one header is a line of ancestry in steps of skip+1 if and only if skip+1 fits in 64 bits, backwards, or the number of its last step does, forwards, as the request and the length of the answer say |
| HeaderQuery.FullSkipRepeats | ctxc/handler.go:583-594 | with a skip of 2^64-1 every header of an answer is the first one again, until a limit is reached |
| HeaderQuery.AnswerByNumber | ctxc/handler.go:522-595 | an answer starts at the number asked for, every header is canonical, consecutive numbers follow in 64-bit arithmetic, it ends only at a limit or before a number that is not marked, and it is a line of ancestry exactly when the request can be stepped through that far without wrapping around |
| HashLookup.HashFn.Get | core/cvm.go:76-112 | the hash of the true ancestor, given exactly when it is cached or every header in between is stored; the cache stays a gapless prefix and never grows past the number asked for |
| BlockState.CommonIsCommon | core/blockchain.go:2038-2083 | the block found is an ancestor of both and nothing above it is shared; none is found only for different geneses |
| BlockState.RelookedExactlyWhen | core/blockchain.go:2111-2149 | after a reorganisation and the head write the lookup index is that of the new path if and only if no dropped transaction also sits below the fork without being written again |
| BlockState.TxIndexIs | core/blockchain.go:854-860 | what the lookup index of a path says: a transaction is found exactly if a block of the path has it, and then in the highest such block |
| BlockState.RepeatedTxIsLost | core/blockchain.go:2124-2132 | a transaction of the common block, repeated on the dropped side only, loses its lookup entry |
| BlockState.AdoptedKeepsInv | core/blockchain.go:2029-2154 | adopting a stored head keeps the store, on any index and with any bodies missing; and the lookup index, if and only if no transaction is lost, so always if the old path repeats none |
| BlockState.AdoptedPath | core/blockchain.go:2038-2083 | a reorganisation that is possible leads from a stored path to a stored path |
| BlockState.StoredPathsReorganise | core/blockchain.go:2038-2083 | blocks whose paths are stored and share genesis can always be reorganised to |
| BlockState.ClosedReorganises | core/blockchain.go:2038-2083 | so with ancestor-closed bodies every block on a stored parent can |
| BlockState.AdoptedMarksExactlyWhen | core/blockchain.go:2111-2149 | with a head header that may be ahead of the head block or on another fork, an adoption leaves the index the path of the new head if and only if the old index goes through the block it builds on and, for a block on top of the head block, there is no marker above it |
| BlockState.KnownKeepsInv | core/blockchain.go:1309-1318 | making a known block the head keeps the store and the bodies of its path, and keeps a right index right exactly when that holds |
| BlockState.StoredKeepsInv | core/blockchain.go:1350-1357 | storing a block on a stored parent keeps the store |
| BlockChain.Equalise | core/blockchain.go:2038-2058 | both walks stand at the same number with the same common block; failure means a body is missing on the old or the new chain |
| BlockChain.FindCommon | core/blockchain.go:2038-2083 | succeeds exactly when the paths meet and every block fetched on either side is stored; yields the common block, the new chain above it and the transactions dropped |
| BlockChain.ReorgThenHead | core/blockchain.go:1435-1449 | reorganising and then writing the head is the specified adoption, on any index |
| BlockChain.BlockChain.WriteHeadBlock | core/blockchain.go:854-875 | marks the block, indexes its transactions, and makes it head block and head header |
| BlockChain.BlockChain.RewriteChain | core/blockchain.go:2111-2122 | the new chain is marked and indexed from the fork up, all but its head |
| BlockChain.BlockChain.DropStale | core/blockchain.go:2124-2149 | markers above the last block written are gone up to the first gap, and so are lookup entries of transactions only on the dropped side |
| BlockChain.BlockChain.Reorg | core/blockchain.go:2029-2154 | for any index and any head header: succeeds exactly when the paths meet and the bodies are there, with exactly the specified markers and lookups, and the store kept; otherwise nothing changes |
| BlockChain.BlockChain.WriteKnownBlock | core/blockchain.go:1309-1318 | adopts a known block exactly when the reorganisation is possible, for any index and any head header, deletes nothing from the store, and leaves a right index right exactly when the adoption is sound |
| BlockChain.BlockChain.WriteBlockWithState | core/blockchain.go:1331-1470 | for any index, any head header and any missing bodies: which of the six outcomes, exactly when, and the ledger after each. A heavier committed block becomes the head or fails to be reorganised to, which ancestor-closed bodies exclude; on a tie the shorter block wins, on a full tie preference and coin decide; exactly the block is added to the store; the head block never falls and its path stays stored; the lookup index stays exact if the old path repeats no transaction; a right index stays right exactly when the block is not adopted or its adoption is sound |
| BlockChain.BlockChain.WriteBlockWithoutState | core/blockchain.go:1293-1305 | stores a block and its total difficulty, keeping the head |
| BlockChain.BlockChain.InsertSideChain | core/blockchain.go:1874-1928 | the accumulated total difficulty is that of the last block, every one written is right, exactly the blocks before the stop are added, the heads and the index stay; it stops at exactly the first block with the state root of a different stored block marked at its number, or where a write fails |
| Rewind.RewindHead | core/blockchain.go:592-657 | stops at the first block, from the target down, that is not passed, and on genesis if the target has no body; the root number becomes that of the highest block with the root, at or above the head, or stays, and then the head is genesis or there is no root |
| Rewind.RewindRootIs | core/blockchain.go:608-611 | the same of the walk as a function |
| Rewind.ClosedRewind | core/blockchain.go:602-648 | on an ancestor-closed store: an ancestor-or-self with state at or below the threshold, or genesis; without a pivot the highest such |
| Rewind.ClosedRewindSpelledOut | core/blockchain.go:602-648 | the same in terms of states and roots alone |
| Rewind.ClosedRewindWithPivot | core/blockchain.go:612-626 | with a pivot it ends on the highest acceptable block, unless a block without state lies above it and not above the pivot: then on genesis |
| Rewind.ClosedRewindRoot | core/blockchain.go:608-611 | without a pivot the root number is that of the highest block with the root, if the path has one |
| Rewind.RewoundUnique | core/blockchain.go:602-648 | which block a rewind ends on is determined by the stored blocks and states, the root and the pivot |
| Rewind.RewindToIsRewound | core/blockchain.go:602-648 | the walk down, as a function, ends exactly where the stopping conditions say |
| Rewind.CrashExactlyWhen | core/blockchain.go:612-647 | the missing parent is run into if and only if the target is stored, a root was given, and some block has state but no stored parent, no block from it up to the target carries the root, and every block above it has a stored parent and state or lies above the pivot |
| Rewind.MissingParentCrashes | core/blockchain.go:612-647 | such a store: a block with state whose parent is missing, and a root that no block carries |
| ChainRewind.SetHead | core/blockchain.go:577-735 | the whole rewind: header chain, head block, bodies and the returned root number, crashing exactly where the head block cannot be rewound. A body is deleted exactly together with its header, and no lookup entry is; the store is kept and a right index stays right; ancestor-closed bodies stay so and exclude a crash; a root number other than 0 is that of a block with the root, below the old head header and not below the new head block |
| ChainRewind.RewindBlocks | core/blockchain.go:592-657 | the head block and the root number after every header on the way down was offered to the callback |
| ChainRewind.BlockAfterIs | core/blockchain.go:592-657 | a head block that is rewound without a crash is not above the target nor above the old one, and is the old one, genesis, or one with state |
| ChainRewind.BlockAfterEnds | core/blockchain.go:592-657 | exactly where the head block ends: the old one if it lies below the target, otherwise where a rewind from a header on the way ends, all further headers lying above that |
| ChainRewind.HeadBlockIsHighestWithState | core/blockchain.go:592-657 | without root and pivot, with ancestor-closed bodies, a head block on the header path not below the target ends on the highest block with state at or below the target |
| ChainRewind.RootAfterIs | core/blockchain.go:608-611 | where the returned root number comes from, kept over all calls of the callback |
| ChainRewind.RewindKeepsChain | core/blockchain.go:577-735 | the store and a right index survive every rewind that does not crash; ancestor-closed bodies survive too, and exclude a crash |
| ChainRewind.LookupsSurviveExactlyWhen | core/blockchain.go:687-708 | wherever the head block stood, the lookup index survives a rewind if and only if the old and the new head block have the same entries above the block they have in common |
| ChainRewind.LookupsSurviveOnLine | core/blockchain.go:687-708 | so for a head block on the path of the head header if and only if no block it went back over has a transaction |
| ChainRewind.LookupLeftBehind | core/blockchain.go:687-708 | one block with a transaction, rewound: its lookup entry stays |
| ChainRewind.LookupMissing | core/blockchain.go:687-708 | a head block on another fork: the block with a transaction that becomes the head has no lookup entry, though no block gone back over has a transaction |
| ChainIndexer.HeadsOnOneLine | core/chain_indexer.go:394-409 | any two recorded section heads are on one line of ancestry |
| ChainIndexer.LastHeadSpeaksForAll | core/chain_indexer.go:416-426 | if one recorded head is canonical, so are all before it |
| ChainIndexer.VerifiedCuts | core/chain_indexer.go:419-426 | verification cuts after the last canonical head and drops no canonical one, against any index |
| ChainIndexer.VerifiedIsExact | core/chain_indexer.go:416-426 | against a canonical chain it keeps exactly the sections whose head is canonical, although it looks at the last only |
| ChainIndexer.FinishKeepsInv | core/chain_indexer.go:344-364 | a section finished after an unlocked stretch is recorded only on the head it was built on |
| ChainIndexer.StepKeepsInv | core/chain_indexer.go:300-378 | every atomic step, of the update loop, of notifications and of queries, keeps sections gapless and their heads on one line |
| ChainIndexer.RunKeepsInv | core/chain_indexer.go:239-426 | over every run, the chain reorganised at will between steps, exactly sections 0 to stored-1 are recorded and each head descends from the one before |
| ChainIndexer.QueriesAreCanonical | core/chain_indexer.go:431-437 | a query at any point of any run keeps exactly the recorded canonical sections |
| ChainIndexer.RollbackCutsDeepEnough | core/chain_indexer.go:243-271 | after a reorganisation notified with the common ancestor every recorded head is canonical on the new chain |
| ChainIndexer.RollbackIsExact | core/chain_indexer.go:243-271 | a rollback keeps exactly the recorded and the known sections that end at or below the block it goes back to, with their heads |
| ChainIndexer.KnownSectionsAreConfirmed | core/chain_indexer.go:272-295 | a new head leaves what is recorded, keeps what is known, and makes exactly the sections known that end the required confirmations below it |
| ChainIndexer.UndisturbedSectionIsRecorded | core/chain_indexer.go:346-349 | without a rollback in between the section is recorded and nothing else changes |
| ChainIndexer.AbandonedSectionIsDropped | core/chain_indexer.go:350-362 | a section that failed, or whose old head is gone, is not recorded: exactly the canonical sections stay, and no more is known |
| ChainIndexer.ChainIsContinuous | core/chain_indexer.go:394-409 | a section read off one chain on which the old head lies is accepted |
| ChainIndexer.ChainIndexer.SetValidSections | core/chain_indexer.go:471-483 | the heads from the new count up to the old one are gone, all others stay |
| ChainIndexer.ChainIndexer.NewHead | core/chain_indexer.go:239-296 | refines a notification, whose effect on recorded and known sections is exact in both directions |
| ChainIndexer.ChainIndexer.VerifyLastHead | core/chain_indexer.go:419-426 | the loop from the last section down cuts exactly as specified, against any index |
| ChainIndexer.ChainIndexer.BeginUpdate | core/chain_indexer.go:315-333 | a job is taken exactly when a section is known and not stored, and after verification, so on the verified last head |
| ChainIndexer.ChainIndexer.ProcessSection | core/chain_indexer.go:384-414 | succeeds exactly when what was read forms one chain on the old head, and then ends the section on a descendant of it |
| ChainIndexer.ChainIndexer.FinishUpdate | core/chain_indexer.go:344-364 | records the section only if the section before still has the head it was built on, otherwise verifies, as specified |
| Feed.EnabledIsSafe | event/feed.go:95-116 | `delete` is never called with index -1 |
| Feed.StepKeepsSubs | event/feed.go:73-180 | a live subscription has exactly one case, in the inbox or in the send cases |
| Feed.StepKeepsDelivery | event/feed.go:141-172 | the pending prefix has not been served, the rest has, nobody twice, through swaps and shifting deletes |
| Feed.StepKeepsStay | event/feed.go:128-172 | subscriptions live since the lock was taken stay in the lists |
| Feed.RunKeepsInv | event/feed.go:73-180 | under every interleaving of subscribing, unsubscribing and sending these invariants hold, and no step is unsafe |
| Feed.HolderGoesOn | event/feed.go:118-180 | the holder of the send lock is never stuck, every pending channel can be served next, and each of its steps brings the release closer |
| Feed.SubscribersGoOn | event/feed.go:73-116 | a channel can always be subscribed; a live one can start to unsubscribe, and one that waits gets through while the lock is free or a Send has channels left to serve; no other step ends a subscription |
| Feed.DeliversToLiveOnly | event/feed.go:149-171 | no delivery to a channel whose Unsubscribe has returned, none twice in one Send |
| Feed.SendServesEveryoneOnce | event/feed.go:118-180 | a Send has delivered exactly once to every channel subscribed from lock to release, and returns the number of its deliveries |
| Feed.ReceivedInOrder | event/feed.go:118-180 | every channel receives successive Sends in order |
| Feed.CaseList.FindCase | event/feed.go:202-210 | the first index, or -1 exactly when absent |
| Feed.CaseList.DeleteCase | event/feed.go:212-215 | shifts in place, shrinking the pending prefix exactly when the case was in it |
| Feed.CaseList.DeactivateCase | event/feed.go:217-222 | swaps a served case behind the pending prefix |
| Feed.CaseList.FastPath | event/feed.go:144-155 | exactly the ready channels leave the pending prefix, the count is that of those that left, and no case is lost |
| Balances.TransferConserves | core/cvm.go:120-125 | a transfer keeps the total, also to oneself |
| ModelGas.ModelGasCalculate | core/state_quota.go:129-145 | for every iteration order: succeeds exactly when the eligible gas fits, with the same remainder and balances |
| ModelGas.PaidTotal | core/state_quota.go:138-142 | the rewards are the eligible gas at the gas price |
| Pools.GasPool.AddGas | core/gaspool.go:28-35 | panics exactly on overflow |
| Pools.GasPool.SubGas | core/gaspool.go:37-45 | fails exactly when too little is left |
| Pools.QuotaPool.SubQuota | core/quotapool.go:37-45 | fails exactly when too little is left |
| StateTransition.IntrinsicGas | core/state_transition.go:136-175 | the two division guards reject exactly the messages whose price does not fit in 64 bits |
| StateTransition.PriceOfOneMoreByte | core/state_transition.go:136-175 | the base price of each kind of message, and the price of one more byte, by fork |
| StateTransition.SettlementConserves | core/state_transition.go:379-410 | refund, rewards and fee add up to the prepaid gas, whoever the parties are |
| StateTransition.SettlementShares | core/state_transition.go:379-410 | what each account gets, shares adding up where parties coincide |
| StateTransition.SettledBalance | core/state_transition.go:379-410 | what every account but the coinbase has, from the result of the run |
| StateTransition.EntersExactlyWhen | core/state_transition.go:232-350 | the messages that reach the machine, in terms of nonce, balance, gas, quota, seeding time and price |
| StateTransition.EnteredIs | core/state_transition.go:216-350 | the world the machine starts in, account by account: prepaid gas, and a nonce one higher for a call and untouched for a creation |
| StateTransition.AcceptsExactlyWhen | core/state_transition.go:352-407 | which of them are applied, from the result of the run: no runtime or balance error, an upload step with its meta data and download, and model gas within the gas used |
| StateTransition.StateTransition.PreQuotaCheck | core/state_quota.go:36-74 | when an upload step is admitted, and what it takes from the pool |
| StateTransition.StateTransition.BuyGas | core/state_transition.go:216-229 | when gas can be bought, and who pays |
| StateTransition.StateTransition.PreCheck | core/state_transition.go:232-250 | exactly the messages that get through, and that a failure charges no gas |
| StateTransition.StateTransition.Enter | core/state_transition.go:297-350 | exactly the messages that reach the virtual machine, and the world they find |
| StateTransition.StateTransition.QuotaCalculate | core/state_quota.go:76-127 | one upload step, and the download size asked for in 64-bit arithmetic |
| StateTransition.StateTransition.RefundGas | core/state_transition.go:426-443 | the refund is capped at half the gas used |
| StateTransition.StateTransition.PayFees | core/state_transition.go:379-410 | settles the fees with the refund capped at half the gas used; the gas pool never panics |
| StateTransition.StateTransition.Settle | core/state_transition.go:371-418 | after a run: which messages are applied, refund, rewards and fee, the total handed out, the upload step and the quota charged |
| StateTransition.StateTransition.TransitionDb | core/state_transition.go:294-419 | applied exactly when accepted; then the total balance is conserved; the refund is the counter, at most half the gas used; the sender gets back the unused gas, every author the model gas reported if the run is paid and it is not above 400000, the coinbase the rest; a paid run that reports more model gas than was used is refused; the gas pool falls by the gas used and the quota pool by the quota taken |
| StateProcessor.ChargeCoveredExactlyWhen | core/state_quota.go:52-79 | the quota found after a run is covered by the quota taken before it if and only if the pending upload has not grown, or a full step was pending before |
| StateProcessor.ApplyTransaction | core/state_processor.go:112-139 | status, world, pools, used quota and cumulative gas are exactly those of the specified step |
| StateProcessor.Process | core/state_processor.go:58-106 | fails at exactly the first message that does not pass, with its reason, or leaves exactly the specified world and totals; then gas is within the limit, used quota within the quota, total balance conserved; with a machine that does not grow small pending uploads the late quota check never fires |
| StateProcessor.PrefixKeeps | core/state_processor.go:85-98 | after any number of messages gas pool plus cumulative gas is the gas limit, used quota is within the quota and balance is conserved; with a calm machine the pool also covers the used quota, which never falls unless its sum wraps around |
| StateProcessor.CalmNeverLate | core/state_processor.go:122-129 | with a calm machine an admitted message passes the check after its run, and the quota sum does not wrap around |
| StateProcessor.NeverLate | core/state_processor.go:122-129 | so no message of a block fails that check, however many passed before it |
| StateProcessor.StepWithoutWrap | core/state_processor.go:122-129 | with any machine, where the quota sum does not wrap, an admitted message passes the check after its run exactly when its charge fits |
| StateProcessor.ReplayExactlyWhen | core/state_processor.go:58-106 | with any machine, messages that passed once pass again from another pool and another used quota if and only if the pool covers what was taken and the quota has room for what was charged, and then with the same world, gas and charges |
| StateProcessor.ImportExactlyWhen | core/blockchain.go:1753-1758 | with any machine, a block produced from the parent's used quota and recorded with its own is processed on import if and only if what its uploads take fits on top of what was recorded and twice the recorded quota, less the parent's, is within the quota; with a calm machine the first decides, with a steady one the second |
| StateProcessor.FullBlockIsRefused | core/blockchain.go:1753-1758 | one upload step that fills the quota: produced, and refused on import |
| StateProcessor.UploadProgress | core/state_quota.go:76-94 | what is pending after n upload transactions, and that the charges are what was taken off |
| StateProcessor.UploadCompletes | core/state_quota.go:76-94 | an upload ends after exactly the rounded-up number of steps, with charges adding up to its size, and only then is the block number reset |
| StateProcessor.RequestsGrow | core/state_quota.go:96-122 | the requested size grows strictly and reaches the raw size exactly at the end |
| SampleHeap.RootIsLeastOfAll | metrics/sample.go:400-409 | the root of a heap has the least key |
| SampleHeap.ScaledIsHeap | metrics/sample.go:131-141 | scaling by a positive factor keeps heap order |
| SampleHeap.ScaledIs | metrics/sample.go:131-141 | rescaling multiplies every key and keeps every value in its place |
| SampleHeap.Heap.Up | metrics/sample.go:419-428 | restores a heap with one slot too low, moving nothing that is in order |
| SampleHeap.Heap.Down | metrics/sample.go:430-446 | restores a heap with the root too high |
| SampleHeap.Heap.Push | metrics/sample.go:393-398 | adds one sample, panics exactly at capacity |
| SampleHeap.Heap.Pop | metrics/sample.go:400-409 | removes one sample of least key |
| SampleHeap.ExpDecaySample.Insert | metrics/sample.go:112-130 | makes room for a sample by evicting one of least key exactly when the reservoir is full |
| SampleHeap.ExpDecaySample.Update | metrics/sample.go:112-142 | the reservoir stays a heap of size min(updates, capacity), evicting a least key; it panics exactly for an empty reservoir |
| SampleHeap.ExpDecaySample.Clear | metrics/sample.go:73-80 | no samples and no count are left |
| SampleHeap.ExpDecaySample.Rescale | metrics/sample.go:131-141 | pushing into the array being read scales every key in its slot |
| DerivationPath.ComponentRoundTrip | accounts/hd.go:90-116 | a printed component parses back, hardened or not |
| DerivationPath.ComponentExactly | accounts/hd.go:90-116 | a component with blanks around number and mark: the exact ranges with and without the mark, and the error outside |
| DerivationPath.PrefixedLiteral | accounts/hd.go:100-103 | literals with a binary, octal or hexadecimal prefix have the value of their digits, leading zeros and both cases included |
| DerivationPath.HexadecimalComponent | accounts/hd.go:90-116 | every hexadecimal component parses back, in either case, hardened or not |
| DerivationPath.HardenedIsMarked | accounts/hd.go:122-136 | a component is printed with a mark exactly if it is hardened, and then without the hardened bit |
| DerivationPath.RelativePath | accounts/hd.go:68-118 | a path printed without its prefix is taken below the default root |
| DerivationPath.LeadingSeparator | accounts/hd.go:75-77 | a leading separator is refused |
| DerivationPath.RoundTrip | accounts/hd.go:62-136 | every path but the empty one parses back from its text; the empty one is rejected |
| DerivationPath.PrintedIsNormalForm | accounts/hd.go:62-136 | whatever parses prints to text that parses the same; relative paths land below the default root |
| DerivationPath.String | accounts/hd.go:120-136 | the loop prints the text whose parse is the path |
| DerivationPath.ParseDerivationPath | accounts/hd.go:62-118 | the result is the specified parse for every text, the first bad component deciding the error |
| DerivationPath.AppendComponents | accounts/hd.go:90-116 | the components in order below the root, or the error of the first bad one |
| GasLimit.StepTowardsBand | core/block_validator.go:112-150 | inside the band it stays, outside it comes strictly closer, and nothing wraps around |
| GasLimit.UsageMovesLimit | core/block_validator.go:116-150 | inside the band the limit rises exactly when the parent used enough and it is not at the ceiling, falls exactly when it used too little and it is not at the floor or the minimum, and moves by at most limit/1024 - 1 |
| GasLimit.LimitConverges | core/block_validator.go:112-150 | from 2048 up, whatever gas blocks use, the limit enters the band within its distance in blocks and never leaves |
| GasLimit.SmallStep | core/block_validator.go:116-150 | one step from below 2048 under a floor above the minimum: from 1024 up it stands still, below it falls by one, and from 0 it is the floor |
| GasLimit.LimitStandsStill | core/block_validator.go:116-150 | a limit in 1024 to 2047 never moves under such a floor |
| GasLimit.LimitFallsThenLeaps | core/block_validator.go:116-150 | a limit below 1024 falls to 0, one per block, and is the floor in the block after |
| GasLimit.BandReachedExactlyWhen | core/block_validator.go:116-150 | under a floor above the minimum the band is reached if and only if the first limit is not in 1024 to 2047, from the block with number limit+1 on for a limit below that and within the distance for one above |

## Left out

- Caches of headers, numbers and total difficulties: transparent in the model; what an interrupted import leaves in them is not modelled.
- The freezer, the snapshot tree, trie garbage collection and receipts: they rest on packages outside the core.
- Header and seal verification, signature recovery, uncles: headers are linked and have positive difficulty.
- `insertChain` around the block writers, the re-import of a pruned side chain after its total difficulty is known, and future blocks.
- Events sent by reorganisations and block writes, and the chain of dropped blocks kept only for them.
- HeaderChain.HeaderChain.GetAncestor: its second read of the marker guards against a concurrent reorganisation; the model's database does not change during a call.
- ChainIndexer.ChainIndexer.ProcessSection: the unlocked reset of the count after a failed backend reset is one atomic step.
- Checkpoints and child indexers: they weaken the section invariant and add cases, not depth.
- Feed: the element type check, and slot 0 of the send cases, which becomes a step of its own; channels are distinct among live subscriptions.
- `event/feedof.go`: the same algorithm as `event/feed.go`.
- StateProcessor.ImportExactlyWhen: for a calm machine, or a quota at least one upload step below 2^64; beyond that the used quota itself can wrap around.
- The virtual machine, torrent downloads and the inference engine: parameters with the contract stated above.
- StateTransition.StateTransition.TransitionDb: the world after a rejected message is not specified, since callers discard it.
- Block rewards paid by the consensus engine after the transactions.
- SampleHeap.ExpDecaySample.Update: keys are real numbers, so a random number of zero, an infinite key in floating point, is not modelled; the clock decides when to rescale and is a parameter.
- `CalculatePercentiles`, `UniformSample` and the sample snapshots: the statistics read off a reservoir, and the sampling without decay, are not modelled.
- ChainRewind.SetHead: without the freezer, so the callback never forces the rewind further down; without the repair mode and the head of the fast sync.
- DerivationPath: the JSON wrapper; integer literals follow the base-0 syntax of the Go library.
- RPC, console, logging, metrics exporters, peer-to-peer loops other than the header responder.
