# Verification of the Xero node core

A Dafny model of the data structures and protocols at the centre of the Xero full node, with proofs
about every input, every run and every reachable state. The code's loops and objects are modelled as
methods and classes that change state in place; each is proved against functions on values, and the
properties are proved about those.

| component | files |
|---|---|
| UTXO cache stack | `Coins`, `CoinsViewCache`, `CoinsDatabase` |
| script check queue | `CheckQueue`, `CheckQueueStops`, `CheckQueueStory` |
| two-phase header download | `HeadersSync`, `HeadersSyncNode` |
| partial Merkle trees | `MerkleBlock`, `MerkleParts`, `MerkleRoot`, `PartialMerkleTree`, `PackedBits` |
| address manager | `AddrMan` (functions), `AddrManInvariant`, `AddrManKeeps`, `AddrManRuns`, `AddrManEvolution`, `AddrManEffects`, `AddrManCollisions`, `AddrManUpdates`, `AddrManGetAddr`, `AddrManCheck`, `AddrManFile`, `AddrManRestore`, `AddrManRebucket`, `AddrManRecords`, `AddrManLoads`, `AddrManImpl`, `AddrManFileImpl` |
| signature cache | `CuckooCache`, `CuckooEffects`, `CuckooCacheImpl`, `PackedBits` |
| Bech32 and Base58 | `Bech32Checksum`, `Bech32Words`, `Bech32`, `Bech32Strings`, `Bech32Codec`, `Bech32Exact`, `Bech32Vectors`; for its error detection `PowerSums`, `AdditiveMaps`, `Bech32Field`, `Bech32Order`, `Bech32Values`, `Bech32Errors`; `Radix`, `Base58`, `Base58Strings`, `Base58Vectors`, `Base58Codec` |
| 256-bit arithmetic and block proof | `Limbs`, `ArithUint`, `ArithShift`, `ArithDivide`, `ArithCompact`, `ArithTarget` |
| block index and active chain | `SkipHeights`, `Chain` |
| compact blocks | `CompactBlocks`, `CompactSearch`, `CompactBlockImpl` |

Hashes, salts, network groups and the difficulty rule are arbitrary functions; where a theorem needs
them to be free of collisions it says so. Clocks are readings passed in, and random draws are
arbitrary values. `dafny verify dfyconfig.toml` checks everything.

Where a property one might expect is false, there is a lemma with a concrete input and another with
the exact condition under which it holds: `Coins.AddMisuseResurrects` with `AddCorrect`,
`Coins.FlushLosesBestBlock` with `FlushBestBlock`, `MerkleBlock.FlagBitBoundFails` with
`FlagBitBound`, `AddrManRuns.GoodAtEpochFails` with `GoodKeeps`,
`AddrManRuns.AttemptBeforeEpochFails` with `AttemptKeeps`, `AddrManCheck.MiscountPasses` with
`CheckIsExact`, and `HeadersSync.HonestPeerTurnedAway` with `HonestSync`.

Where the code and its comments differ, the model follows the code: the flag bit bound of
`src/merkleblock.h:52`, the first cuckoo swap, which takes the second place and not the first
(`src/cuckoocache.h:426-437`), and SpendCoin, whose result does not mean that the coin was unspent.

## Model

| member | source | states |
|---|---|---|
| `Coins.RunCorrect` | src/coins.cpp:44-294 | Over any stack of caches and any run of AddCoin, SpendCoin, GetCoin, Uncache, Flush, Sync, best-block calls and pushing or popping a cache, every level means exactly what plain outpoint-to-coin maps hold after the same adds, spends and copies, has the best-block hash that plain hashes hold, and takes the first hash set at or below it for its best block; the stack stays well-formed. |
| `Coins.StepCorrect` | src/coins.cpp:44-294 | One call on any level does to the meanings of all levels what it does to plain maps, and keeps: entries without DIRTY repeat the level below, FRESH entries are absent from it, only legal flag states occur, the usage counter is the sum over the entries. |
| `Coins.AddCorrect` | src/coins.cpp:70-108 | AddCoin keeps the stack well-formed if and only if the overwrite is announced, the script is unspendable or the outpoint is absent from the view; when it does not throw the top view gains exactly that coin. |
| `Coins.AddMisuseResurrects` | src/coins.cpp:70-108 | A concrete stack on which AddCoin without overwrite does not throw, and the older coin reappears after a spend: the condition of AddCorrect is needed. |
| `Coins.AddOutcome` | src/coins.cpp:70-108 | What becomes of the call: outputs that begin with OP_RETURN or have more than 10000 bytes of script are left out, a refused overwrite has already reduced the usage counter and changes nothing else, any other coin is in the cache, DIRTY, its memory counted in place of what was there; no other entry changes. |
| `Coins.SpendCorrect` | src/coins.cpp:129-149 | SpendCoin removes one outpoint from the top view and nothing from any other level; it hands out the coin of the view and reports failure only for outpoints the view lacks. |
| `Coins.SpendReports` | src/coins.cpp:129-149 | SpendCoin returns true exactly if some level knows the outpoint, be it as spent. |
| `Coins.GetCorrect` | src/coins.cpp:44-68 | A lookup answers from the view and changes the meaning of no level, although it fills caches on its way. |
| `Coins.FetchCorrect` | src/coins.cpp:44-59 | FetchCoin brings the coin of the view into the top cache, exactly, and invents none. |
| `Coins.FetchFills` | src/coins.cpp:44-68 | A lookup that finds a coin leaves it in every cache it passes, down to the first that knew the outpoint. |
| `Coins.DatabaseView` | src/coins.h:79-81 | The database stands for its coins but those with value -1. |
| `Coins.UncacheCorrect` | src/coins.cpp:281-294 | Uncache changes the meaning of no level; it drops the entry exactly if that is unmodified, and no other. |
| `Coins.BatchWriteCorrect` | src/coins.cpp:182-252 | From a well-formed child BatchWrite never reaches the misapplied-FRESH throw, gives the parent the former view of the child and keeps the parent well-formed against the grandparent. |
| `Coins.MergeCorrect` | src/coins.cpp:182-252 | Entry by entry, merging a child map over a cache means the child over the meaning of the cache. |
| `Coins.MergedEntry` | src/coins.cpp:182-252 | What one entry of the child leaves in the parent, with its flags: nothing unless DIRTY, no entry for a spent coin unknown below, else the coin, DIRTY, and FRESH exactly if it is unknown below. |
| `Coins.WriteCoinsCorrect` | src/txdb.cpp:115-171 | Writing the DIRTY entries to the database gives it the view of the child. |
| `Coins.FlushCorrect` | src/coins.cpp:254-262 | Flush gives the level below the meaning of the cache, keeps that of the cache, and empties it. |
| `Coins.SyncCorrect` | src/coins.cpp:264-279 | Sync does the same and leaves exactly the unspent entries cached, now unmodified. |
| `Coins.FlushBestBlock` | src/coins.cpp:172-180 | The best block survives a Flush if and only if the hash of the cache was set, or the base adds none of its own. |
| `Coins.FlushLosesBestBlock` | src/coins.cpp:172-180 | A concrete stack of two caches over a database on which it does not. |
| `Coins.BestBlockIsWritten` | src/txdb.cpp:115-171 | A cache that was told its best block passes it to whatever it sits on, database included, on Flush and on Sync, and keeps it. |
| `Coins.StepHashes` | src/coins.cpp:172-180 | One call on any level does to the best-block hashes of all levels what it does to plain hashes: a flush copies one level down, a query fills the levels it passes, nothing else changes any. |
| `Coins.ShortLivedCoin` | src/coins.cpp:70-149 | A coin added and spent in one cache leaves exactly the stack there was before: FRESH entries never reach the level below. |
| `Coins.FlushedStaysFresh` | src/coins.cpp:182-252 | A flush hands FRESH on: a coin unknown below the parent vanishes from its cache when the parent spends it. |
| `Coins.SpentAboveVanishes` | src/coins.cpp:182-252 | A coin that the parent holds as FRESH and the child spends is gone from the parent after the flush. |
| `Coins.FillBestCorrect` | src/coins.cpp:172-176 | GetBestBlock remembers the hash it had to ask for; neither the best block nor any view changes. |
| `CoinsViewCaches.CoinsViewDb.BatchWrite` | src/txdb.cpp:115-171 | The loop over the child map leaves the coins that the specification names, and the new best block (Coins.BestBlockIsWritten, Coins.StepHashes). |
| `CoinsDatabase.CoinDatabase.BatchWrite` | src/txdb.cpp:115-171 | Split into batches at any limit: what has reached the database is at all times the beginning of one plan (mark, coins, best block), its asserts hold, and at the end the coins are the same as in one write. |
| `CoinsDatabase.Completed` | src/txdb.cpp:115-171 | The whole plan gives the database the coins and the block of the cache, and leaves no mark. |
| `CoinsDatabase.Interrupted` | src/txdb.cpp:115-171 | Stopped anywhere in between, the database has no best block, is marked with the block it was going to and the one it came from, and every coin is as it was or as it will be. |
| `CoinsDatabase.Resumed` | src/txdb.cpp:115-171 | Writing the same cache again, in any order, completes an interrupted write: the assert on the mark holds, the old block is still known, and the result is the same. |
| `CoinsViewCaches.CoinsViewCache.FetchCoin` | src/coins.cpp:44-59 | Updated in place, the cache and everything below it become what Coins.Fetch gives. |
| `CoinsViewCaches.CoinsViewCache.AddCoin` | src/coins.cpp:70-108 | Throws exactly when the specification says, having already reduced the usage counter, and otherwise leaves the specified stack. |
| `CoinsViewCaches.CoinsViewCache.SpendCoin` | src/coins.cpp:129-149 | In place: the specified stack and the coin handed out. |
| `CoinsViewCaches.CoinsViewCache.Uncache` | src/coins.cpp:281-294 | In place: the specified stack. |
| `CoinsViewCaches.CoinsViewCache.GetBestBlock` | src/coins.cpp:172-176 | The best block of the stack, remembered on the way. |
| `CoinsViewCaches.CoinsViewCache.BatchWrite` | src/coins.cpp:182-252 | The entry-by-entry loop throws if and only if some FRESH flag is misapplied, and otherwise merges the whole child map. |
| `CoinsViewCaches.CoinsViewCache.Flush` | src/coins.cpp:254-262 | In place: the specified stack, or the throw of the base. |
| `CoinsViewCaches.CoinsViewCache.Sync` | src/coins.cpp:264-279 | In place: the specified stack, or the throw of the base. |
| `CoinsViewCaches.CoinsViewCache.SanityCheck` | src/coins.cpp:320-335 | The asserts hold if and only if every entry has a legal flag state and the usage counter is exact. |
| `CoinsViewCaches.SanityCheckPasses` | src/coins.cpp:320-335 | They hold on every well-formed stack. |
| `CoinsViewCaches.CoinsViewCache.HaveInputs` | src/coins.cpp:300-310 | True exactly when the view has every input, or for a coinbase; no level changes its meaning. |
| `CoinsViewCaches.AddCoins` | src/coins.cpp:118-127 | With check_for_overwrite never throws and adds exactly the spendable outputs to the top view; without it, likewise for a coinbase and for outputs that are absent. |
| `CheckQueue.StepKeeps` | src/checkqueue.h:70-182 | Every atomic step of any thread keeps: nTodo is the checks queued plus those in flight, each check is in one place only, the idle counter is exact and the total counter at least the number of looping threads, and fAllOk is false only if some check fails. |
| `CheckQueue.TotalIsExact` | src/checkqueue.h:50-182 | From the start of the workers until they are asked to stop, in every state of every interleaving, the total counter is exactly the number of looping threads. |
| `CheckQueue.InitKeeps` | src/checkqueue.h:134-137 | A new queue satisfies the invariant. |
| `CheckQueue.RunKeeps` | src/checkqueue.h:70-182 | So it holds in every state of every interleaving of any number of workers. |
| `CheckQueue.WaitVerdict` | src/checkqueue.h:70-127 | When Wait returns, each check of the round was handed back exactly once and evaluated at most once, and the verdict is true if and only if all of them pass; a true one means each was evaluated exactly once. That these are the checks the calls of Add brought is EveryWaitIsRight. |
| `CheckQueueStory.EveryWaitIsRight` | src/checkqueue.h:70-182 | Told from the actions of a run alone: over every run of a new queue, the checks of the open round are exactly those that calls of Add brought since Wait last returned, and each answer of Wait so far is true if and only if all checks added in its round pass, each handed back as often as it was added; workers and stop requests agree with the calls. |
| `CheckQueueStory.LastAddedTakenFirst` | src/checkqueue.h:110-121 | The queue is a stack: what a worker takes next is the end of what was there and was added. |
| `CheckQueueStory.NothingLeftOut` | src/checkqueue.h:70-194 | The runs leave nothing out: every thread that has not ended can go on, and the master may call Add, Wait or a stop whenever it is outside. |
| `CheckQueue.SleepingMasterIsAwaited` | src/checkqueue.h:81-104 | Whenever the master sleeps some worker holds a batch in flight, and nTodo is positive. |
| `CheckQueue.BusyStepExists` | src/checkqueue.h:70-127 | Until Wait returns some thread that is not asleep can step; without workers it is the master. |
| `CheckQueue.RankDrops` | src/checkqueue.h:70-127 | Every step of the loop uses up work left to do; only a wakeup gives a little back. |
| `CheckQueue.RoundCompletes` | src/checkqueue.h:70-182 | From every state of a round the threads that are awake finish it alone, within a number of steps fixed by the work left. |
| `CheckQueue.RoundIsBounded` | src/checkqueue.h:70-182 | No interleaving keeps a round going: its length is bounded by the work and the wakeups. |
| `CheckQueue.BatchSize` | src/checkqueue.h:110-116 | The largest number of checks within nBatchSize and an equal share of the queue for all threads and one more, but at least one. |
| `CheckQueue.TakesFairShare` | src/checkqueue.h:110-121 | A thread takes that many from the end of the queue and leaves the rest; it starts from the status of the queue. |
| `CheckQueue.ExaminesUntilFailure` | src/checkqueue.h:122-125 | A check is evaluated unless its thread has seen a failure, and a failure is not forgotten. |
| `CheckQueueStops.WaitIsAnswered` | src/checkqueue.h:70-162 | From every state in which Wait may be called there is a way to its return. |
| `CheckQueueStops.StopCompletes` | src/checkqueue.h:184-194 | StopWorkerThreads always gets through: every worker reaches its exit whatever it was doing, and the joins leave a usable queue without workers, its checks in place. |
| `HeadersSync.SyncIsSound` | src/headerssync.cpp:68-294 | Whatever is received and however split: the released headers are a prefix of those accepted in REDOWNLOAD, rebuilt field for field; accepted headers are linked from the start, each with a permitted difficulty from its true predecessor; they carry the PRESYNC bits until the work is reached; one is released only under REDOWNLOAD_BUFFER_SIZE later ones or after that. |
| `HeadersSync.MemoryIsBounded` | src/headerssync.cpp:35-43 | Between calls at most m_max_commitments bits and 13959 headers are stored, and nothing once the sync is over. |
| `HeadersSync.OverIsCleared` | src/headerssync.cpp:48-63 | A call that ends the sync leaves nothing of what the peer sent. |
| `HeadersSync.FreshTrace` | src/headerssync.cpp:25-46 | A new sync satisfies the invariant. |
| `HeadersSync.MessageExact` | src/headerssync.cpp:139-213 | PRESYNC takes a message if and only if its first header builds on the last one seen, every difficulty is a permitted change from the header before, and its commitments fit. |
| `HeadersSync.PresyncAnswer` | src/headerssync.cpp:79-97 | The answer to any message in PRESYNC: success as in MessageExact, more asked for if the message was full or the work is reached, REDOWNLOAD exactly then, and the end of the sync otherwise. |
| `HeadersSync.RedownloadOneExact` | src/headerssync.cpp:215-278 | REDOWNLOAD takes a header if and only if it builds on the last one accepted, its difficulty is permitted, and the commitment bits agree with those of PRESYNC. |
| `HeadersSync.RedownloadAnswer` | src/headerssync.cpp:98-137 | The answer to any message in REDOWNLOAD: success exactly for a linked, permitted chain that agrees with the commitments; then all but the last 13959 accepted headers, or all once the work is reached, have been released; more is asked for exactly if the message was full and work is missing. |
| `HeadersSync.SeenIsLinked` | src/net_processing.cpp:2476-2486 | If the headers of every message are continuous, which callers check, and none has the null hash, what was seen in PRESYNC is one chain from the starting block. |
| `HeadersSync.NothingToDo` | src/headerssync.cpp:73-77 | A call with no headers, or after the end, fails and changes nothing. |
| `HeadersSync.CommitmentsCounted` | src/headerssync.cpp:195-206 | The node stores one bit for every 584th header, counted exactly. |
| `HeadersSyncNode.NodeRuns` | src/headerssync.cpp:25-46 | The environment of the node is made of its own data and functions: the given start, height, work, requirement and bound, heights with remainder m_commit_offset modulo 584, and work added up modulo 2^256. |
| `HeadersSyncNode.WorkIsSum` | src/headerssync.cpp:208-237 | The work of a chain is that of the start plus the proofs of all its headers, modulo 2^256. |
| `HeadersSyncNode.BitsAreKept` | src/headerssync.cpp:195-206 | The commitments are the salted bits of the hashes of the headers at those heights, in order. |
| `HeadersSyncNode.KeptCounted` | src/headerssync.cpp:195-206 | One bit for 584 headers. |
| `HeadersSyncNode.CheckedIs` | src/headerssync.cpp:237-262 | The headers compared with their bits are those before the first that brings enough work. |
| `HeadersSyncNode.BeginsAt` | src/headerssync.cpp:25-33 | A new sync stands at the given block, height and work, with nothing stored. |
| `HeadersSyncNode.TracksAtNode` | src/headerssync.cpp:139-294 | All along, the heights are counted from the start, the work is the sum so far, and the stored bits are those kept and not yet compared. |
| `HeadersSyncNode.PresyncAtNode` | src/headerssync.cpp:79-213 | The answer to any message in PRESYNC in the node's terms: taken if and only if it connects, every difficulty is permitted at its height and the bits fit; REDOWNLOAD begins if and only if the work of the start and all headers reaches the requirement. |
| `HeadersSyncNode.RedownloadAtNode` | src/headerssync.cpp:98-294 | And in REDOWNLOAD: taken if and only if all accepted headers are linked and permitted one by one and their bits, before there is enough work, are the first of those kept; then all, or all but the last 13959, have been released. |
| `HeadersSync.HonestMessage` | src/headerssync.cpp:139-213 | In PRESYNC a message continuing a linked chain with permitted difficulties succeeds if and only if its commitments fit the bound, and moves to REDOWNLOAD exactly when the work is reached. |
| `HeadersSync.HonestPeerIsHeard` | src/headerssync.cpp:68-213 | Such a chain, in any split full until the work is reached, is answered with success and a request for more to the end if and only if its commitments fit; the sync is then in REDOWNLOAD and has seen what was sent. |
| `HeadersSync.HonestPeerIsServed` | src/headerssync.cpp:98-294 | A peer repeating its PRESYNC chain, perhaps longer by now, in any split, is never rejected, and every header received by the time the work is reached is released exactly once. |
| `HeadersSync.HonestSync` | src/headerssync.cpp:68-294 | Both passes from a new sync: heard to the end if and only if the commitments fit, and then served to the end. |
| `HeadersSync.HonestPeerTurnedAway` | src/headerssync.cpp:177-213 | A concrete honest chain of one header that is turned away, because there is room for no commitment. |
| `HeadersSync.RepeatedHeaderAccepted` | src/headerssync.cpp:215-278 | The commitment queue is the PRESYNC bits above the last accepted height, so the same header always matches. |
| `HeadersSync.PopKeeps` | src/headerssync.cpp:280-294 | What is popped is the next stretch of the accepted chain. |
| `HeadersSync.HeadersSyncState.ProcessNextHeaders` | src/headerssync.cpp:68-137 | The method on mutable fields answers and ends as the state machine of the theorems does; what that is for the node, HeadersSyncNode.PresyncAtNode and RedownloadAtNode say. |
| `HeadersSync.HeadersSyncState.ValidateAndStoreHeadersCommitments` | src/headerssync.cpp:139-175 | In place: the specified outcome and state, which MessageExact and PresyncAnswer characterise. |
| `HeadersSync.HeadersSyncState.ValidateAndStoreRedownloadedHeader` | src/headerssync.cpp:215-278 | In place: the specified outcome and state, also when rejecting. |
| `HeadersSync.HeadersSyncState.PopHeadersReadyForAcceptance` | src/headerssync.cpp:280-294 | The loop returns the specified headers. |
| `MerkleBlock.RoundTrip` | src/merkleblock.cpp:77-180 | For distinct transactions, within the count limit, any mask and a hash without collisions, extracting from what was built, also with its flag bits padded to whole bytes, gives the Merkle root and exactly the masked transactions and positions. |
| `MerkleBlock.ExtractionIsSound` | src/merkleblock.cpp:95-180 | With an injective hash, any bits and hashes that extract to the true root report only transactions of the block, at their true and strictly increasing positions. |
| `MerkleBlock.BlockSize` | src/merkleblock.h:36-45 | A block of n transactions is stored in at most min(n, 1 + matched * height) hashes. |
| `MerkleBlock.EncodingSize` | src/merkleblock.cpp:77-93 | For every subtree: at most one hash per transaction and 1 + matched * height; and exactly 2 * hashes - 1 bits plus the single-child nodes descended into. |
| `MerkleBlock.FlagBitBound` | src/merkleblock.h:36-53 | The bound of 2 * hashes - 1 flag bits that the header documents holds if and only if no single-child node is descended into. |
| `MerkleBlock.FlagBitBoundFails` | src/merkleblock.h:36-53 | It fails for three transactions with only the last matched, whose bits and hashes are given in full: from the root down and from left to right. |
| `MerkleBlock.CalcHashIsRoot` | src/merkleblock.cpp:57-75 | CalcHash at a height and position is the root of that subtree, odd ends paired with themselves. |
| `MerkleBlock.WidthFormula` | src/merkleblock.h:71-73 | CalcTreeWidth is the width got by halving, rounded up, height times. |
| `MerkleParts.ProofAccepted` | src/merkleblock.cpp:95-180 | Flag bits and hashes that spell a cut-off tree of the right shape without two equal children, all hashes used and all bits but the padding, are accepted: its root and its marked leaves are returned. |
| `MerkleParts.AcceptedIsProof` | src/merkleblock.cpp:95-180 | Nothing else yields a root: equal siblings, missing or left-over hashes or bits, and counts outside 1 to 16666 are refused. |
| `MerkleRoot.ComputeMerkleRoot` | src/consensus/merkle.cpp:45-62 | Level by level, the root that CalcHash gives, and the flag exactly if two neighbours on a level are equal. |
| `MerkleRoot.LevelIsCalcHash` | src/consensus/merkle.cpp:45-62 | The hashes of a level are those of the nodes of the partial tree. |
| `MerkleRoot.RootTells` | src/consensus/merkle.cpp:9-42 | Without collisions, two lists with trees of one height, neither of them flagged, have equal roots only if they are equal. |
| `MerkleRoot.DistinctNotFlagged` | src/consensus/merkle.cpp:45-62 | A list without repetitions is never flagged. |
| `MerkleRoot.RepeatedEndKeepsRoot` | src/consensus/merkle.cpp:9-42 | Repeating the last of three transactions keeps the root, which is given, and is flagged. |
| `PartialMerkleTrees.PackAndUnpack` | src/merkleblock.cpp:12-28 | Packing bits to bytes and back only appends zero bits up to a multiple of eight. |
| `PartialMerkleTrees.BitsToBytes` | src/merkleblock.cpp:12-19 | Byte k is the sum of 2^j over the bits 8k + j that are set: eight bits to a byte, least significant first. |
| `PartialMerkleTrees.BytesToBits` | src/merkleblock.cpp:21-28 | The bits that spell each byte in the same order. |
| `PackedBits.MaskIsPower` | src/merkleblock.cpp:12-28 | The mask of bit j is 1 << j, the number 2^j. |
| `PackedBits.ByteIsSpelled` | src/merkleblock.cpp:12-28 | A byte is the number that its bits spell. |
| `PartialMerkleTrees.PartialMerkleTree.CalcTreeWidth` | src/merkleblock.h:71-73 | The width of the tree at a height. |
| `PartialMerkleTrees.PartialMerkleTree.TraverseAndBuild` | src/merkleblock.cpp:77-93 | Appends exactly the encoding of the subtree to vBits and vHash. |
| `PartialMerkleTrees.PartialMerkleTree.TraverseAndExtract` | src/merkleblock.cpp:95-131 | Advances the counters, the results and fBad as decoding the subtree does, on any input. |
| `PartialMerkleTrees.PartialMerkleTree.constructor` | src/merkleblock.cpp:133-145 | Holds the encoding of the whole tree. |
| `PartialMerkleTrees.PartialMerkleTree.ExtractMatches` | src/merkleblock.cpp:149-180 | The specified extraction, with all its refusals; the positions go after those already listed, which the code does not clear. |
| `PartialMerkleTrees.SendAndReceive` | src/merkleblock.cpp:12-28 | Building, packing, unpacking and extracting returns the root, the masked transactions and their positions. |
| `AddrManCheck.EveryRunPasses` | src/addrman.cpp:1010-1113 | After every run of Add, Good, Attempt, Connected, SetServices, GetAddr, ResolveCollisions and SelectTriedCollision from a new manager, with any addresses, hashes, draws and times after the epoch, CheckAddrman passes. |
| `AddrManRuns.RunKeeps` | src/addrman.cpp:421-948 | Every such run keeps the manager consistent: reference counts are slot counts of at most 8, every slot is where its entry hashes to, vRandom and nRandomPos are inverse, index, totals and network counters are exact, remembered collisions aim at occupied slots. |
| `AddrManEvolution.RunDescends` | src/addrman.cpp:421-948 | Over every run no id is used again, an occupied tried slot stays occupied, and new entries are for routable addresses only. |
| `AddrManCheck.CheckIsExact` | src/addrman.cpp:1010-1113 | What CheckAddrman accepts is exactly the consistent managers, up to what it does not look at: stale index entries, id numbering, networks without counters, the collision set. |
| `AddrManCheck.MiscountPasses` | src/addrman.cpp:1101-1110 | A manager with an uncounted network that passes: leftover counters of another network hide it. |
| `AddrManCheck.ConsistentPasses` | src/addrman.cpp:1010-1113 | Every consistent manager passes. |
| `AddrManCheck.CheckAddrman` | src/addrman.cpp:1010-1113 | On any manager whatever, the loops return zero if and only if all the conditions hold; table scans, leftover sets and local counts included. |
| `AddrManRuns.CallKeeps` | src/addrman.cpp:421-948 | Each public call keeps consistency. |
| `AddrManRuns.AttemptKeeps` | src/addrman.cpp:697-715 | Attempt_ keeps it if and only if the address is unknown or the time is not before the epoch. |
| `AddrManRuns.AttemptNotes` | src/addrman.cpp:697-715 | Attempt_ notes the time, and counts a failure only if none was counted since the last success anywhere; no other entry changes. |
| `AddrManRuns.FailuresCountOnce` | src/addrman.cpp:697-715 | So failures in a row count once. |
| `AddrManUpdates.FirstFailureCounts` | src/addrman.cpp:697-715 | A first failure counts even if nothing was ever connected to. |
| `AddrManRuns.ConnectedKeeps` | src/addrman.cpp:824-841 | Connected_ sets the time of a known address exactly if it is more than 20 minutes old, and keeps consistency. |
| `AddrManRuns.SetServicesKeeps` | src/addrman.cpp:843-857 | SetServices_ replaces the services of a known address, and keeps consistency. |
| `AddrManKeeps.GoodKeeps` | src/addrman.cpp:631-683 | Good_ keeps it if and only if the time is after the epoch, or is the epoch and the entry stays untested in the new table. |
| `AddrManRuns.GoodAtEpochFails` | src/addrman.cpp:631-683 | A manager told of one address, consistent until a connection to it is reported at time zero. |
| `AddrManRuns.AttemptBeforeEpochFails` | src/addrman.cpp:697-715 | The same manager, consistent until an attempt is reported a second before the epoch. |
| `AddrManKeeps.GoodEffect` | src/addrman.cpp:631-683 | The entry is stamped, and is moved to tried exactly when it was not there and no occupied slot is being tested first. |
| `AddrManUpdates.GoodOutcome` | src/addrman.cpp:631-683 | Good_ in full: times, attempts and m_last_good; a new entry gets its tried slot as in MakeTriedLoses, or the collision is remembered while there are fewer than ten, and nothing else changes. |
| `AddrManUpdates.GoodIsKept` | src/addrman.cpp:67-90 | After a reported connection an entry seen recently is worth keeping for a week. |
| `AddrManUpdates.QualityOf` | src/addrman.cpp:67-90 | IsTerrible: not tried in the last minute, and not seen within 30 days, dated ahead, or failed three times without success or ten times after a week without. |
| `AddrManUpdates.AddKnown` | src/addrman.cpp:555-629 | An announcement of a known address: the time moves only if it is ahead by more than the interval and the penalty, services are added, and exactly under the stated conditions the slot for its source is taken too; no other slot, entry or field changes. |
| `AddrManUpdates.AddUnknown` | src/addrman.cpp:555-629 | An announcement of an unknown address: exactly if the slot for its source is free, terrible or has other slots, it gets a new entry there made from what was announced; no other slot, entry or field changes, but an id is used up. |
| `AddrManUpdates.AddCounts` | src/addrman.cpp:685-695 | Add_ counts the announcements that got a slot; with none the tables are as before. |
| `AddrManKeeps.AddSingleKeeps` | src/addrman.cpp:555-629 | AddSingle keeps consistency on every path, including those that overwrite or delete other entries. |
| `AddrManKeeps.AddKeeps` | src/addrman.cpp:685-695 | So does Add_. |
| `AddrManKeeps.MakeTriedKeeps` | src/addrman.cpp:496-553 | MakeTried restores coherence although it calls ClearNew and Delete while an entry is in neither table. |
| `AddrManKeeps.MakeTriedTable` | src/addrman.cpp:496-553 | Afterwards the entry is tried and in its slot, and no other tried slot has changed. |
| `AddrManEffects.MakeTriedLoses` | src/addrman.cpp:496-553 | MakeTried in full: the entry gives up its new slots for its tried slot; the entry found there goes back to its own new slot, unchanged but with one reference; the only entry lost is one whose last reference was in that place; no other slot changes, and nothing that is known of any other address. |
| `AddrManEffects.OfferEffect` | src/addrman.cpp:598-628 | An offered slot ends up holding the entry, and the only entry lost is one whose last reference it was; a refused new entry is dropped. |
| `AddrManKeeps.ClearNewKeeps` | src/addrman.cpp:478-494 | ClearNew keeps coherence while other entries are between the tables. |
| `AddrManKeeps.EvictKeeps` | src/addrman.cpp:521-546 | Evicting a tried entry puts it back into the new table coherently. |
| `AddrManInvariant.CreateKeeps` | src/addrman.cpp:421-435 | Create keeps coherence, with one entry still waiting for a slot. |
| `AddrManInvariant.DeleteKeeps` | src/addrman.cpp:461-476 | Delete keeps coherence. |
| `AddrManInvariant.SwapKeeps` | src/addrman.cpp:437-459 | SwapRandom keeps coherence. |
| `AddrManRuns.ResolveKeeps` | src/addrman.cpp:859-920 | ResolveCollisions_ keeps consistency in any order and at any times after the epoch. |
| `AddrManCollisions.ResolveEffect` | src/addrman.cpp:859-920 | One collision, exactly: an entry with a success in the last four hours keeps its slot and the collision is forgotten; the newcomer gets the slot if the entry was tried between one minute and four hours ago, or was not tried for four hours and the newcomer waits for more than 40 minutes, and the entry goes back to its new slot as it was, all else unchanged as in MakeTriedLoses; otherwise nothing changes and the collision stays remembered. |
| `AddrManCollisions.TestBeforeEvict` | src/addrman.cpp:631-920 | Over every run from a consistent manager an entry keeps its tried slot unless a round of ResolveCollisions_ found it so: nothing received, and no connection to another address, takes it away. |
| `AddrManRuns.SelectFinds` | src/addrman.cpp:922-948 | A remembered collision whose entry is still there always finds a tried entry in its slot, so mapInfo[-1] is never touched. |
| `AddrManGetAddr.AnswerFacts` | src/addrman.cpp:786-822 | Looking at the first n places returns distinct eligible entries, and all of them when n is all. |
| `AddrManUpdates.EveryOrderDrawn` | src/addrman.cpp:786-822 | The exchanges can bring any entries to the front in any order: no selection is left out by the way they are drawn. |
| `AddrManGetAddr.LimitIs` | src/addrman.cpp:790-796 | The limit is the largest number within the percentage and the maximum. |
| `AddrManRuns.ShuffleKeeps` | src/addrman.cpp:786-822 | The exchanges of GetAddr_ keep consistency for any draws. |
| `AddrManImpls.SizeCounts` | src/addrman.cpp:973-993 | The counters are the numbers of entries by network and table. |
| `AddrManImpls.AddrManImpl.constructor` | src/addrman.cpp:107-123 | A new manager, every slot free. |
| `AddrManImpls.AddrManImpl.Find` | src/addrman.cpp:406-419 | Finds the entry of an address, or reports that there is none. |
| `AddrManImpls.AddrManImpl.CreateEntry` | src/addrman.cpp:421-435 | In place: the specified manager. |
| `AddrManImpls.AddrManImpl.SwapPlaces` | src/addrman.cpp:437-459 | In place: the specified manager; the asserted positions and entries exist. |
| `AddrManImpls.AddrManImpl.DeleteEntry` | src/addrman.cpp:461-476 | In place: the specified manager. Its callers meet what it asserts: the entry exists, is not tried and has no references. |
| `AddrManImpls.AddrManImpl.ClearSlot` | src/addrman.cpp:478-494 | In place: the specified manager and a free slot; the asserted positive reference count holds. |
| `AddrManImpls.AddrManImpl.WithdrawEntry` | src/addrman.cpp:501-511 | The wrapping loop with its early stop removes every reference to the entry. |
| `AddrManImpls.AddrManImpl.PromoteEntry` | src/addrman.cpp:496-553 | In place: the specified manager. All asserts hold: no references left, the home slot freed, the tried slot free. |
| `AddrManImpls.AddrManImpl.OfferEntry` | src/addrman.cpp:598-628 | In place: the specified manager and answer. |
| `AddrManImpls.AddrManImpl.AddOne` | src/addrman.cpp:555-629 | In place: the specified manager and answer. |
| `AddrManImpls.AddrManImpl.AddAll` | src/addrman.cpp:685-695 | In place: the specified manager and answer, still consistent. |
| `AddrManImpls.AddrManImpl.MarkGood` | src/addrman.cpp:631-683 | In place: the specified manager and answer. |
| `AddrManImpls.AddrManImpl.MarkAttempt` | src/addrman.cpp:697-715 | In place: the specified manager. |
| `AddrManImpls.AddrManImpl.MarkConnected` | src/addrman.cpp:824-841 | In place: the specified manager. |
| `AddrManImpls.AddrManImpl.UpdateServices` | src/addrman.cpp:843-857 | In place: the specified manager. |
| `AddrManImpls.AddrManImpl.ResolveCollisions` | src/addrman.cpp:859-920 | Visits every collision once in ascending order, with the specified result, each round as AddrManCollisions.ResolveEffect has it. |
| `AddrManImpls.AddrManImpl.SelectCollision` | src/addrman.cpp:922-948 | In place: nothing if there is no collision, and otherwise the specified manager and tried entry for one of them, whichever is drawn. |
| `AddrManImpls.AddrManImpl.GetAddr` | src/addrman.cpp:786-822 | Returns distinct eligible entries, exactly min(limit, eligible) of them, and only shuffles. |
| `AddrManImpls.AddrManImpl.Size` | src/addrman.cpp:973-993 | The number of entries on a network and in a table. |
| `AddrManRestore.SavingLosesNothing` | src/addrman.cpp:131-404 | A consistent manager of valid addresses, written in any order of its map and read back under the same checksum, loads, and is the same up to renaming of ids: entries, index, both tables, reference counts, totals and network counters. |
| `AddrManRestore.EveryRunIsSaved` | src/addrman.cpp:131-404 | So saving and loading lose nothing after any run from a new manager. |
| `AddrManRestore.RenamedConsistent` | src/addrman.cpp:131-404 | Such a renamed manager is consistent, so the closing check cannot refuse it. |
| `AddrManRestore.SizesFit` | src/addrman.cpp:272-284 | A consistent manager never exceeds the totals that loading accepts. |
| `AddrManFile.LoadedIsConsistent` | src/addrman.cpp:230-404 | Whatever a file holds and in whatever order entries are pruned, a manager that loads is consistent. |
| `AddrManRebucket.FileRebucketed` | src/addrman.cpp:337-378 | A file with another number of buckets or another map of networks: every slot that gets an entry is the one its source gives it, no entry has two, and a valid listed entry goes without only if its slot went to another. |
| `AddrManRebucket.FileRestored` | src/addrman.cpp:337-378 | A file with the same buckets and map: a valid entry gets every slot listed for it that is not taken by an earlier one, and its home in place of one that is; it has no other slots. |
| `AddrManRecords.LoadedFromRecords` | src/addrman.cpp:286-335 | Every entry that loads has the address, source, time, services, last success and attempts of one record, the new ones of the record with their number, and has never been tried since. |
| `AddrManRecords.EveryEntryWritten` | src/addrman.cpp:131-227 | Every entry of a consistent manager is written with these fields, among the new or the tried ones, in format 4 with 1024 buckets and the true totals. |
| `AddrManRecords.TriedPlaced` | src/addrman.cpp:309-335 | A valid tried record goes without its slot only if another has it. |
| `AddrManRebucket.RefusedExactly` | src/addrman.cpp:248-284 | Refused unread are exactly formats of the future, totals beyond the tables and missing data. |
| `AddrManLoads.FileLoads` | src/addrman.cpp:230-404 | A file that is not refused, lists no address twice and has plausible times loads for every placement of addresses, bucket count and checksum; every address that remains is valid. |
| `AddrManLoads.WrittenLoads` | src/addrman.cpp:131-404 | So what a consistent manager has written loads wherever it is read: a changed map of networks may drop entries but never makes the file unreadable. |
| `AddrManFiles.WriteFile` | src/addrman.cpp:131-227 | The loops write the specified file; their asserts on the totals hold. |
| `AddrManFiles.ReadFile` | src/addrman.cpp:230-404 | The loops load or refuse exactly as specified, and what loads is consistent. |
| `AddrManFiles.PruneEntries` | src/addrman.cpp:383-393 | Visits every entry once and deletes those without references; what Delete asserts holds. |
| `CuckooCache.RunKeeps` | src/cuckoocache.h:287-487 | In every run after setup each live element sits at one of its own eight places, live elements of the current epoch number at most epoch_size + max(1, epoch_size / 16), and all live ones at most twice that. |
| `CuckooCache.InsertKeeps` | src/cuckoocache.h:399-447 | insert keeps the invariant for any depth limit. |
| `CuckooCache.InsertConserves` | src/cuckoocache.h:399-447 | After insert the live elements are those epoch_check left, plus the new one, minus at most the one that was dropped; which one that is, InsertWithRoom, InsertChain and InsertDropsOther say. |
| `CuckooCache.DroppedWasLive` | src/cuckoocache.h:399-447 | What is dropped is the new element or one that was live. |
| `CuckooCache.EpochCheckKeeps` | src/cuckoocache.h:287-319 | epoch_check leaves room for one more recent element within the bounds. |
| `CuckooCache.EpochCheckErases` | src/cuckoocache.h:287-319 | It erases exactly the elements that were not recent, and only when an epoch ends. |
| `CuckooCache.CopiesOnce` | src/cuckoocache.h:399-447 | No element is live twice. |
| `CuckooCache.ContainsKeeps` | src/cuckoocache.h:476-487 | contains keeps the invariant. |
| `CuckooCache.ContainsFinds` | src/cuckoocache.h:476-487 | contains finds every live element and nothing that is not in the table; erasing affects that element only. |
| `CuckooCache.ErasedIsFound` | src/cuckoocache.h:476-487 | An erased element is still found until its slot is reused. |
| `CuckooCache.SetupInv` | src/cuckoocache.h:337-350 | setup establishes the invariant. |
| `CuckooCache.PlacesArePlacing` | src/cuckoocache.h:241-252 | The eight hashes reduced by FastRange32 lie within the table. |
| `CuckooEffects.InsertWithRoom` | src/cuckoocache.h:399-447 | With a free place and a positive depth the new element is put there: it is live, recent and found by contains, everything live stays live, and nothing is dropped. |
| `CuckooEffects.InsertChain` | src/cuckoocache.h:399-447 | Otherwise a chain of moves: the first takes the second place, every displaced element the one after the place it lost, keeping its epoch, until a free place is found or the depth is used up and the last displaced one is dropped. |
| `CuckooEffects.InsertDropsOther` | src/cuckoocache.h:413-446 | With depth 1 and no free place, what is dropped is the former occupant of the second place, never the new element. |
| `CuckooEffects.InsertRevives` | src/cuckoocache.h:404-412 | An element that is already in the table becomes live and recent where it is. |
| `CuckooEffects.EpochCheckExact` | src/cuckoocache.h:287-319 | The exact outcome of every case: one less to wait, a new epoch, or the number of insertions before the next scan. |
| `CuckooEffects.SetupFacts` | src/cuckoocache.h:337-350 | A new table has at least two slots, all free, an epoch of 45 percent of them as long as the product fits 32 bits, and the given depth limit. |
| `CuckooEffects.PlacesCover` | src/cuckoocache.h:241-252 | Any eight slots can be the places of an element: the reduced hashes reach the whole table. |
| `CuckooEffects.PlacesAre` | src/cuckoocache.h:241-252 | Place k is the part of the table that hash k lies in, when the 32-bit numbers are cut into as many equal parts. |
| `CuckooCaches.SignatureCache.InsertElement` | src/cuckoocache.h:399-447 | On the arrays and packed flags: the specified table and dropped element. |
| `CuckooCaches.SignatureCache.ContainsElement` | src/cuckoocache.h:476-487 | On the arrays and packed flags: the specified answer and flags. |
| `CuckooCaches.SignatureCache.CheckEpoch` | src/cuckoocache.h:287-319 | On the arrays: the specified ageing. |
| `CuckooCaches.SignatureCache.constructor` | src/cuckoocache.h:337-350 | The specified empty table, which satisfies the invariant. |
| `CuckooCaches.BitPackedFlags.BitSet` | src/cuckoocache.h:94-97 | Sets one flag and no other. |
| `CuckooCaches.BitPackedFlags.BitUnset` | src/cuckoocache.h:105-108 | Clears one flag and no other. |
| `Bech32Strings.RoundTrip` | src/bech32.cpp:357-397 | Decoding an encoding gives back the encoding, the human-readable part and the values, for every legal lower-case part, also one containing the separator, up to 90 characters. |
| `Bech32Strings.DecodedEncodes` | src/bech32.cpp:357-397 | Every string that decodes is, in lower case, the encoding of its result. |
| `Bech32Exact.EncodingsDecode` | src/bech32.cpp:357-397 | Every string of at most 90 characters in one case, upper or lower, whose lower-case form encodes legal parts decodes to these. |
| `Bech32Exact.DecodedIsEncoding` | src/bech32.cpp:357-397 | And no other string decodes. |
| `Bech32Exact.PartNoticed` | src/bech32.cpp:311-338 | A changed character of the human-readable part, with at most one changed symbol after it, is always noticed. |
| `Bech32Exact.Bip173Vector` | src/test/bech32_tests.cpp:15-36 | The shortest valid string of BIP 173, in both cases, and its encoding. |
| `Bech32Exact.Bip350Vector` | src/test/bech32_tests.cpp:38-56 | The shortest valid string of BIP 350, in both cases, and its encoding. |
| `Bech32Vectors.AllSymbolsVector` | src/test/bech32_tests.cpp:15-36 | The string of BIP 173 with the part abcdef and all 32 symbols in order, encoded and decoded. |
| `Bech32.ExpandedIs` | src/bech32.cpp:311-325 | The expanded part is two halves around a zero; each character is 32 times its high value plus its low value. |
| `Bech32.BurstNoticed` | src/bech32.cpp:130-338 | For values of any length, a change confined to six consecutive symbols of a valid string never verifies under the same encoding. |
| `Bech32Errors.ThreeNoticed` | src/bech32.cpp:138-142 | In a valid string of any length, one, two or three changed symbols less than 1023 places apart never verify under the same encoding. |
| `Bech32Errors.ThreeDetected` | src/bech32.cpp:130-216 | From any starting word, two sequences that differ in one to three such places have different remainders. |
| `Bech32Values.ThreeVanish` | src/bech32.cpp:172-175 | For any generator with three consecutive powers of a primitive element as roots, three symbols that leave no remainder are zero. |
| `Bech32Errors.RootPowers` | src/bech32.cpp:169-173 | The 997th, 998th and 999th power of e are roots of the generator. |
| `Bech32Errors.Bip173Doubling` | src/bech32.cpp:199-212 | The five constants of the loop are {1}, {2}, {4}, {8} and {16} times the same polynomial over GF(32). |
| `Bech32Values.StepAt` | src/bech32.cpp:179-212 | A step multiplies the value of the remainder at a root by that root and adds the symbol: the loop body is multiplication by x and reduction. |
| `Bech32Values.RemainderAt` | src/bech32.cpp:132-156 | So the remainder has, at every root, the value of the polynomial whose coefficients are the symbols. |
| `Bech32Order.EIsPrimitive` | src/bech32.cpp:37-41 | The element e of GF(1024) is primitive: no power of it before the 1023rd leaves an element other than zero in its place. |
| `Bech32Order.WholeOrder` | src/bech32.cpp:166-168 | The 1023rd power of e is one. |
| `Bech32Field.TimesEAdd` | src/bech32.cpp:86-113 | Multiplication by e, on pairs of GF(32) elements, respects addition. |
| `PowerSums.AllVanish` | src/bech32.cpp:172-175 | Three elements vanish if their sum and the sums of their images under two powers of a primitive map vanish, for any three places less than 1023 apart. |
| `Bech32.ChecksumVerifies` | src/bech32.cpp:327-352 | Values with the checksum made for them verify. |
| `Bech32.VerifiesUnique` | src/bech32.cpp:327-352 | Only that checksum verifies. |
| `Bech32Checksum.PolyModLinear` | src/bech32.cpp:130-216 | The checksum polynomial is linear over GF(2). |
| `Bech32Checksum.BurstDetected` | src/bech32.cpp:130-216 | Sequences of equal length that differ only within six consecutive places have different remainders, from any start. |
| `Bech32Checksum.ChecksumUnique` | src/bech32.cpp:341-352 | Six symbols are determined by the remainder they reach. |
| `Bech32Words.StepWordIsStep` | src/bech32.cpp:187-216 | The step on 32-bit words, with its shifts, masks and five constants, is the step on bits that the theorems are about. |
| `Bech32Words.Bip173Suitable` | src/bech32.cpp:187-216 | The generator of BIP 173 has the property the burst theorems need. |
| `Bech32Codec.ComputePolyMod` | src/bech32.cpp:130-216 | The loop computes the remainder. |
| `Bech32Codec.VerifyValues` | src/bech32.cpp:327-338 | Answers the encoding under which the values verify, or that none does. |
| `Bech32Codec.MakeChecksum` | src/bech32.cpp:341-352 | Computes the checksum. |
| `Bech32Codec.EncodeString` | src/bech32.cpp:357-370 | Builds the encoded string. |
| `Bech32Codec.DecodeString` | src/bech32.cpp:373-397 | Decodes or refuses as specified, mixed case, misplaced separators and lengths included. |
| `ArithUint.AddTo` | src/arith_uint256.h:127-137 | Limb by limb with carries: the sum modulo 2^256; no 64-bit intermediate overflows, also with both operands the same object. |
| `ArithUint.SubtractFrom` | src/arith_uint256.h:139-143 | The difference modulo 2^256. |
| `ArithUint.Negate` | src/arith_uint256.h:69-76 | Minus the number modulo 2^256. |
| `ArithUint.Increment` | src/arith_uint256.h:165-172 | The number plus one modulo 2^256. |
| `ArithUint.MultiplyByLimb` | src/arith_uint256.cpp:55-64 | The product modulo 2^256. |
| `ArithUint.Multiply` | src/arith_uint256.cpp:67-80 | The product modulo 2^256, from limb products whose sums fit 64 bits. |
| `ArithShift.ShiftLeft` | src/arith_uint256.cpp:21-35 | Multiplication by a power of two modulo 2^256, for every shift. |
| `ArithShift.ShiftRight` | src/arith_uint256.cpp:38-52 | Floor division by a power of two, for every shift. |
| `ArithShift.CompareTo` | src/arith_uint256.cpp:109-118 | The order of the numbers. |
| `ArithShift.Bits` | src/arith_uint256.cpp:179-191 | The position of the highest one bit. |
| `ArithDivide.DivideBy` | src/arith_uint256.cpp:83-106 | Floor division; division by zero is reported. |
| `ArithTarget.SetCompact` | src/arith_uint256.cpp:198-216 | The decoded number modulo 2^256; overflow is flagged if and only if the exact value is at least 2^256. |
| `ArithCompact.OverflowExact` | src/arith_uint256.cpp:198-216 | The three byte tests are equivalent to the exact value needing more than 256 bits. |
| `ArithCompact.CompactParts` | src/arith_uint256.cpp:198-216 | A compact form is its size times 2^24, its sign times 2^23 and its mantissa. |
| `ArithCompact.ExactIs` | src/arith_uint256.cpp:198-216 | The number denoted is the mantissa times 256^(size - 3), rounded down, for every size. |
| `ArithTarget.EncodeCompact` | src/arith_uint256.cpp:218-239 | Computes the compact form; its asserts hold. |
| `ArithCompact.EncodeRounds` | src/arith_uint256.cpp:198-239 | Decoding a compact form gives the number with as few low bytes zeroed as possible: it rounds down. |
| `ArithCompact.EncodeSigned` | src/arith_uint256.cpp:198-239 | Encoded as negative, a number decodes to the same with its sign; zero has none. |
| `ArithCompact.SignOfZero` | src/arith_uint256.cpp:198-216 | A compact form is negative exactly if its number is not zero and its sign bit is set. |
| `ArithCompact.EncodeAgain` | src/arith_uint256.cpp:198-239 | Encoding a decoded form changes nothing. |
| `ArithCompact.EncodeMonotone` | src/arith_uint256.cpp:198-239 | Larger numbers do not encode to smaller ones. |
| `ArithTarget.GetLow64` | src/arith_uint256.h:237-241 | The number modulo 2^64. |
| `ArithTarget.GetBlockProof` | src/chain.cpp:131-144 | Zero for a negative, overflowing or zero target, and otherwise floor(2^256 / (target + 1)). |
| `ArithCompact.WorkFromComplement` | src/chain.cpp:131-144 | The quotient is reached without a 257-bit number: (~target / (target + 1)) + 1. |
| `Limbs.WrapIsMod` | src/arith_uint256.h:127-137 | Reduction by repeated subtraction, used in these contracts, is the remainder modulo 2^256. |
| `Limbs.QuotIsDiv` | src/arith_uint256.cpp:83-106 | Quotients defined by repeated subtraction, used in these contracts, are floor division. |
| `Chain.BlockIndex.GetAncestor` | src/chain.cpp:93-118 | For every block tree, following skip pointers finds the block that walking back one by one finds, and null exactly out of range; with all skip pointers built the loop goes round exactly as often as SkipHeights.Rounds says. |
| `SkipHeights.RoundsBounded` | src/chain.cpp:83-118 | From below height 2^k, for every k of ten and more, the loop ends within k * k / 4 + 2 * k - 7 rounds: 110 below 2^18, as the comment says. |
| `SkipHeights.RoundsGrow` | src/chain.cpp:83-118 | The square of the logarithm is needed: from height 2^m - 1 down to two there are at least m * m / 4 rounds, for every m from two on. |
| `SkipHeights.OddPhase` | src/chain.cpp:93-118 | From an odd height, every round turns off two of the bits below the highest one in which the heights differ. |
| `SkipHeights.RoundChoice` | src/chain.cpp:93-118 | When a round skips and when it goes back by one: never past the target, and not if the block before skips at least three further. |
| `SkipHeights.FromOnes` | src/chain.cpp:93-118 | Rounds enough from a height whose lowest bits are all ones to any that differs from it only in those. |
| `Chain.BlockIndex.BuildSkip` | src/chain.cpp:125-129 | Sets the skip pointer to the ancestor at the skip height, keeping the tree. |
| `SkipHeights.InvertIsMask` | src/chain.cpp:80-81 | Turning off the lowest one bit is n & (n - 1). |
| `SkipHeights.GetSkipHeight` | src/chain.cpp:83-91 | The skip height is below the height. |
| `Chain.LastCommonAncestor` | src/chain.cpp:165-180 | The highest block that is an ancestor of both, or null if there is none. |
| `Chain.LocatorEntries` | src/chain.cpp:31-48 | Ancestors of the block from itself to the first block, the i-th at height max(0, height - d(i)), where d counts eleven single steps and then doubles; at most 12 + log2(height) entries. |
| `Chain.ActiveChain.SetTip` | src/chain.cpp:21-29 | With its early stop, leaves exactly the ancestors of the tip in the vector. |
| `Chain.ActiveChain.FindFork` | src/chain.cpp:60-69 | The highest block of the chain that is an ancestor of the given one. |
| `Chain.ActiveChain.Contains` | src/chain.h:466-469 | True exactly for the ancestors of the tip. |
| `Chain.ActiveChain.Next` | src/chain.h:472-478 | The successor on the chain, and null exactly for the tip and for blocks outside. |
| `Chain.WalkWalk` | src/chain.cpp:93-118 | An ancestor of an ancestor is the ancestor at that height. |
| `Base58Strings.DecodeEncoded` | src/base58.cpp:38-125 | Decoding an encoding gives back the bytes, leading zeros included, whenever the limit allows their length. |
| `Base58Strings.EncodeDecoded` | src/base58.cpp:38-125 | A text without spaces that decodes is the encoding of its result. |
| `Base58Strings.SpacesIgnored` | src/base58.cpp:38-85 | White space before and after a text does not matter. |
| `Base58Strings.DecodedText` | src/base58.cpp:38-125 | Whatever decodes is the encoding of its result with white space around it, and within the limit. |
| `Base58Strings.DecodeEncodedCheck` | src/base58.cpp:135-159 | The same with a checksum. |
| `Base58Strings.EncodeDecodedCheck` | src/base58.cpp:135-159 | The same with a checksum. |
| `Base58Strings.SpacesIgnoredCheck` | src/base58.cpp:146-159 | White space around a text with a checksum does not matter. |
| `Base58Strings.DecodedTextCheck` | src/base58.cpp:146-159 | Whatever decodes with a checksum is the encoding of its result with white space around it, and within the limit. |
| `Base58Vectors.AlphabetVector` | src/test/data/base58_encode_decode.json:14 | The text that is the whole alphabet: its 43 bytes, encoded and decoded. |
| `Base58Strings.MapIsInverse` | src/base58.cpp:18-36 | The character table and the alphabet are inverse on all 256 codes. |
| `Base58.Fits58` | src/base58.cpp:97-98 | The size estimate for encoding is enough for every length. |
| `Base58.Fits256` | src/base58.cpp:52-53 | The size estimate for decoding is enough for every length. |
| `Base58Codec.MulAddInto` | src/base58.cpp:101-113 | The carry loop turns the digits of v into those of factor * v + carry; the assert that no carry is left holds. |
| `Base58Codec.EncodeBase58` | src/base58.cpp:87-125 | The loops build the specified text. |
| `Base58Codec.DecodeBase58` | src/base58.cpp:38-85 | The loops decode or refuse as specified, spaces and length limits included. |
| `CompactBlocks.Rebuilds` | src/blockencodings.cpp:49-224 | From any message describing a block, if InitData succeeds and no pool or extra transaction has the short id of a different wanted one, filling in the missing transactions in order gives back the block. |
| `CompactBlocks.AnnouncedIsRebuilt` | src/blockencodings.cpp:19-224 | So a block announced by one node is rebuilt by another whenever its short ids differ and the table is not overfull. |
| `CompactBlocks.TakenExactly` | src/blockencodings.cpp:49-169 | InitData takes a described block if and only if its short ids are distinct and no bucket gets overfull. |
| `CompactBlocks.AnnounceDescribes` | src/blockencodings.cpp:19-29 | What a node announces describes its block. |
| `CompactBlocks.AnnouncedAs` | src/blockencodings.cpp:19-29 | The first transaction whole, then the short ids of the witness hashes of the others, in order. |
| `CompactBlocks.PrefillRoom` | src/blockencodings.cpp:61-78 | Accepted whole transactions fill different slots, so there is a gap for every short id. |
| `CompactBlocks.SearchCounted` | src/blockencodings.cpp:107-165 | mempool_count is all along the number of short ids whose slot is filled: never negative, and equal to their number only when nothing is missing. |
| `CompactBlocks.AllFound` | src/blockencodings.cpp:107-165 | When the search stops early because the count equals the number of short ids, every wanted slot is filled. |
| `CompactSearch.SearchExact` | src/blockencodings.cpp:107-165 | Once a message is taken: the pool is looked at up to the first transaction after which every short id is found, then the extra ones likewise; each gap then holds the first match for its short id, unless the pool had several or an extra one has another witness hash, and every other slot is as before. |
| `CompactSearch.FoundInPool` | src/blockencodings.cpp:107-138 | A single match in the pool, with none among the extra ones, is found wherever it is. |
| `CompactSearch.AmbiguousInPool` | src/blockencodings.cpp:120-128 | Two matches in the pool are both given up, unless the search was over before the second. |
| `CompactSearch.FoundInExtra` | src/blockencodings.cpp:140-165 | Without a match in the pool, the first of the extra matches is found if they share one witness hash. |
| `CompactSearch.AmbiguousInExtra` | src/blockencodings.cpp:148-160 | Extra matches with different witness hashes are given up, unless the search was over before. |
| `CompactSearch.PrefillExact` | src/blockencodings.cpp:61-78 | Each whole transaction goes to the place its skips add up to, and the first without a place is refused. |
| `CompactSearch.StatusExact` | src/blockencodings.cpp:47-105 | Which messages are invalid, which fail and which are taken, exactly. |
| `CompactBlocks.MergeExact` | src/blockencodings.cpp:179-204 | FillBlock gets through exactly with as many transactions as there are gaps; the j-th gap gets the j-th of them, and what was available stays. |
| `PartialBlocks.PartiallyDownloadedBlock.InitData` | src/blockencodings.cpp:49-169 | In place: the specified status and slots (StatusExact, PrefillExact, SearchExact), also when it fails part way; the header is kept unless the message is malformed, so a second call is refused and changes nothing. |
| `PartialBlocks.PartiallyDownloadedBlock.PlaceShortIds` | src/blockencodings.cpp:81-105 | Gives the i-th short id the i-th gap; the inner loop never leaves the vector and 16 bits are enough. |
| `PartialBlocks.PartiallyDownloadedBlock.IsTxAvailable` | src/blockencodings.cpp:171-177 | False exactly for the gaps, the transactions that have to be asked for, and for all if there is no header. |
| `CompactBlocks.GapsAre` | src/blockencodings.cpp:171-177 | The gaps are the empty slots and nothing else. |
| `PartialBlocks.PartiallyDownloadedBlock.FillBlock` | src/blockencodings.cpp:179-224 | The specified block and verdict. With too few transactions the header stays and the slots before the first gap left over are empty; otherwise the object is cleared and a second call is refused. |

## Left out

- Coins: SetBackend, ReallocateCache, AccessByTxid, cursors, writes that fail and go on, replaying blocks after an interrupted write, and EmplaceCoinInternalDANGER, which counts memory even if nothing is inserted. A script's copy is taken to use as much memory as the original.
- CheckQueue: starting and stopping worker threads during a round, the RAII wrapper, and 32-bit overflow of nTodo.
- HeadersSync: NextHeadersRequestLocator, the estimate of the commitment bound from the clock, and the difficulty rule itself, which is any predicate.
- MerkleBlock: CMerkleBlock with its bloom filter, and 32-bit overflow of positions for blocks far above the count limit.
- AddrMan: Select_ and GetChance (probabilistic and floating point), FindAddressEntry_, locking, logging and the null-key check -16. The hashes that choose buckets are arbitrary functions with values in range.
- AddrManFile: the byte format, the key and the formats before the current one; a file is what it parses to, with times that fit their fields.
- CheckAddrman: the contract does not say which of the negative codes is returned.
- CuckooCache: memory ordering and concurrent readers, setup_bytes, and the rounding of the depth limit from a floating-point logarithm, which is an input.
- Bech32: LocateErrors with its syndrome table, the detection of four errors within 89 characters, which rests on a search over all of them, and bit conversion between groups of 5 and 8.
- Base58: overflow of the size estimate for texts near 2^31 characters, and negative length limits.
- Arith: hexadecimal and double conversions, the bitwise operators, and mixed operators with 64-bit operands.
- Chain: FindEarliestAtLeast, GetBlockProofEquivalentTime (its product may wrap), disk positions and validity flags. The links and heights of a block index do not change after it is made.
- CompactBlocks: the wire format with its differential indexes, CheckBlock, whose verdict is an input, and extra_count, a statistic that may wrap. A message has at most 65535 transactions, which reading it off the wire enforces. Whether a hash bucket is overfull is an arbitrary function of the short ids entered.
