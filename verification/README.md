# Verified models of the node's closed algorithms

These Dafny modules model the parts of a Bitcoin-derived node that are small closed algorithms, and prove
what the node relies on. What the code updates in place is a class here, or a method with a loop; each such
method is proved equal to a function on values, and the properties are proved about those functions.

| part | modules |
|---|---|
| address manager: random vector, two bucket tables, two maps, counters, `Check_`, and its file format | `AddrState`, `AddrLemmas`, `AddrOps`, `AddrRuns`, `AddrOutcome`, `AddrCalls`, `AddrCheck`, `AddrFile`, `AddrRepeat`, `AddrRestore`, `AddrStream`, `AddrMan` |
| layered coin cache with FRESH and DIRTY flags, and the coin codec | `CoinsView`, `CoinsTrimmed`, `CoinsLean`, `CoinsCache`, `CoinsCodec`, `CoinsBytes` |
| partial Merkle trees of BIP 37 | `Merkle`, `MerkleSize`, `MerkleSurplus`, `MerkleTree` |
| parallel check queue | `CheckQueue` (a state machine over all threads), `CheckQueueLoop` (its critical sections) |
| choosing coins by denomination | `Denominations`, `CoinSelection`, `CoinLimit`, `CoinComplete`, `CoinMinimize`, `CoinExamples`, `CoinSelector` |
| Base58 | `Radix`, `Base58`, `Base58Codec` |
| short forms of amounts and scripts, variable-length integers | `VarInt`, `Compressor`, `CompressorCodec` |
| stake modifier | `Kernel`, `StakeFavour` |
| masternode votes | `Payments`, `PaymentsList` |
| block tree, skip list, active chain | `SkipList`, `SkipSteps`, `Chain` |
| documented formats and examples | `Formats` |
| shared | `Wrappers`, `Arith`, `Bits`, `Lists` |

`dafny verify dfyconfig.toml` checks everything.

Assumptions and conventions:

- Hashes are uninterpreted functions. Only the soundness of Merkle proofs assumes that the hash does not
  collide, and only the script codec assumes that decompressing a compressed public key inverts compressing
  a valid one.
- Random draws, the time, required payments, the height of the active chain and the order of hash tables are
  parameters, so every statement holds for all of them.
- A spurious wake-up of a waiting thread is a possible step of the check queue. Notifying one rouses some
  blocked thread whenever there is one.
- Outputs are kept by the coin codec without `nRounds`, which is never written; reading resets it, and an
  output that was spent is read as the null output.

Where the code and its own remarks differ, the model follows the code:

- `src/merkleblock.h:47` promises at most 2N - 1 flag bits for N hashes. There may be more: see
  `Merkle.BitCount` and `Merkle.BitBoundFails`. So the size guaranteed at line 33 may be exceeded too: see
  `MerkleSize.SizeGuarantee` and `MerkleSize.GuaranteeFails`.
- `src/denomination_functions.cpp:408` promises fewer spends than the maximum. The code allows as many, and
  exceeds the maximum exactly when every choice of coins that is worth the target does: see
  `CoinLimit.SelectLimit` and `CoinComplete.LimitFails`. When every exact choice takes too many mints,
  nothing may be selected although they are worth the target: see `CoinComplete.SelectComplete` and
  `CoinComplete.TooManyFails`.
- `src/coins.h:183` announces a size that is sometimes too small: see `CoinsBytes.GetSerializeSize` and
  `CoinsBytes.AnnouncedFails`.
- `Check_` does not see a stale key of `mapAddr`, and puts in the key of entry 0 when it is missing: see
  `AddrCheck.ChecksDecide`, `AddrCheck.StaleKeyPasses` and `AddrCheck.MissingKeyPasses`.
- Loading does not look for addresses that come twice. `AddrFile.LoadKeeps` says exactly when `mapAddr` is
  right all the same; `AddrFile.RepeatedNewFails` is a file for which it is not, `AddrFile.RepeatedTried` a
  repetition that does no harm.
- `src/chain.cpp:47` calls the search for an ancestor O(log n). It is not: see `SkipSteps.NotLogarithmic`. The
  exact bound is about a quarter of the square of the number of bits (`SkipSteps.StepsBound` and
  `SkipSteps.MostReached`), and the 110 steps that `src/main.cpp:4361` promises below 2^18 are right.
- Coins are not restored when their version is negative, as `src/main.cpp:2544` says: see
  `CoinsCodec.RoundTrip` and `CoinsCodec.NegativeVersion`.
- Two of the examples at `src/serialize.h:398-399` are wrong, and the examples at `src/coins.h:41-69` are from
  before there was a flag for coin stake: see `Formats.VarIntWrong` and `Formats.ExampleBytes`.
- `HaveCoins` looks only whether there are outputs (`src/coins.cpp:143-151`), which is right because coins are
  kept without a spent tail: see `CoinsTrimmed.RunTrims` and `CoinsTrimmed.HaveRight`.
- `Good_` and `Attempt_` accept any time, but `Check_` refuses a tried entry without a success time and
  negative times; `AddrRuns.GoodStamped` and `AddrRuns.AttemptStamped` say exactly when.
- `Clear` in `src/addrman.h:431` does not empty `mapInfo` and `mapAddr`, so loading needs a fresh object: see
  `AddrFile.EmptiedIndexed` and `AddrFile.UsedFails`.
- `src/kernel.cpp:115-117` says that proof-of-stake blocks are always favored. `StakeFavour.StakePicked` says
  exactly when, and `StakeFavour.NotAlways` is a case where they are not.
- The modifier after the genesis block (`src/kernel.cpp:166`) is the address of a string, not its content; it
  is a parameter here.

## Model

| member | source | states |
|---|---|---|
| `AddrRuns.RunKeepsInv` | src/addrman.cpp:91-454 | From an empty manager, every run of Add, Good, Attempt, Connected and GetAddr, with any times and any random draws, leaves the five structures and the counters in agreement; with positive success times and attempt times that are not negative, all that `Check_` tests holds |
| `AddrRuns.AfterKeeps` | src/addrman.cpp:91-315 | One call of any of the five operations keeps the structure, and keeps the time stamps usable if the call is timely |
| `AddrRuns.GoodKeeps` | src/addrman.cpp:200-247 | Good keeps the structure, even when it moves another address out of the tried table |
| `AddrRuns.GoodStamped` | src/addrman.cpp:216-218 | After Good the time stamps pass `Check_` if and only if the service is unknown or the time is positive |
| `AddrCalls.GoodOutcome` | src/addrman.cpp:200-247 | Good changes nothing for a service without an entry. Otherwise the entry is tried from then on, at its tried slot and in no new one, with the time given as its last try and success and no failed attempts; if it was not tried before, whoever had that slot is back in his own new slot, and whoever had that one is forgotten if it was his only one; nothing else changes |
| `AddrCalls.GoodNotTerrible` | src/addrman.cpp:38-58 | After a success a peer is not terrible for a minute, and then only if it was not seen within thirty days or is from the future |
| `AddrCalls.TerribleIff` | src/addrman.cpp:38-58 | When an entry may be thrown out, in seconds and counts |
| `AddrRuns.AttemptStamped` | src/addrman.cpp:317-334 | After Attempt they do if and only if the service is unknown or the time is not negative |
| `AddrCalls.AttemptOutcome` | src/addrman.cpp:317-334 | Attempt counts one more failure, with its time, for the entry of exactly this service, and does nothing else |
| `AddrCalls.ConnectedOutcome` | src/addrman.cpp:478-497 | Connected sets the time of that entry, to 32 bits, if and only if it is more than 1200 seconds old |
| `AddrRuns.AddKeeps` | src/addrman.cpp:249-315 | Add keeps the structure on every path: refresh, one more slot, overwriting a holder, and dropping the new entry |
| `AddrRuns.AddStamped` | src/addrman.cpp:249-315 | Add keeps the time stamps usable |
| `AddrOutcome.AddOutcome` | src/addrman.cpp:286-314 | An address that was unknown is known afterwards if and only if its slot was free, or its holder was terrible or had another slot; it then has exactly that slot and a fresh record with the penalty held against its time, nobody else is touched, and the holder is forgotten if and only if it was his last slot |
| `AddrCalls.AddKnown` | src/addrman.cpp:249-315 | An address that is told again is refreshed, and gets one more slot if and only if its time is news, it is not tried and has fewer than eight, the draw is lucky, and the slot of its source is free or its holder terrible, who is forgotten if and only if he has no other; nothing else changes |
| `AddrCalls.RefreshedTime` | src/addrman.cpp:259-267 | Its time never goes back; it becomes the told time less the penalty, when that is later by more than an hour, or a day if the peer was not seen for a day; its services are joined |
| `AddrOps.MakeTriedKeeps` | src/addrman.cpp:152-198 | Moving an entry to the tried table keeps the structure; the eviction back to the new table always finds an empty slot |
| `AddrOps.MakeTriedOutcome` | src/addrman.cpp:152-198 | What the move comes to: the entry is at its tried slot and in no new one, the displaced one is back in its own new slot with one reference, and at most one address is forgotten, one whose only reference was in the slot that the displaced one got |
| `AddrRuns.ScanOutcome` | src/addrman.cpp:457-476 | The partial shuffle lists distinct entries that are not terrible, misses none it passes, and only permutes `vRandom` |
| `AddrRuns.GetAddrOutcome` | src/addrman.cpp:457-476 | For every sequence of draws the answer has at most 2500 addresses and at most 23 percent of the known ones, each known and not terrible, no two with the same network address; `vRandom` is permuted and stays inverse to the positions |
| `AddrCalls.GetAddrSize` | src/addrman.cpp:457-476 | The answer has exactly min(2500, 23 percent of the known ones) addresses, or all that are not terrible if these are fewer |
| `AddrCalls.GetAddrReaches` | src/addrman.cpp:457-476 | Every list of so many different addresses that are not terrible, in any order, is the answer for some draws |
| `AddrRuns.RandomSize` | src/addrman.cpp:382-383 | `vRandom` has as many places as the two counters say |
| `AddrCheck.ChecksDecide` | src/addrman.cpp:380-454 | On every state: all tests of `Check_` hold, and besides no key of `mapAddr` is stale and the ids are in range, if and only if the whole invariant holds of the state as the tests leave it; that `Check_` does not look at every place of `vRandom` makes no difference |
| `AddrCheck.StaleKeyPasses` | src/addrman.cpp:380-454 | A key of `mapAddr` that no entry has passes all tests |
| `AddrCheck.MissingKeyPasses` | src/addrman.cpp:406 | The test -5 passes the entry with id 0 although its key is missing, because looking it up puts in a key for id 0 |
| `AddrMan.CAddrMan.SwapRandom` | src/addrman.cpp:103-121 | Exchanges two places of `vRandom` and the two stored positions |
| `AddrMan.CAddrMan.Delete` | src/addrman.cpp:123-135 | Forgets an entry that is in neither table, closing the gap in `vRandom` |
| `AddrMan.CAddrMan.ClearNew` | src/addrman.cpp:137-150 | Empties a slot and forgets its holder if and only if that was its last reference |
| `AddrMan.CAddrMan.StripNew` | src/addrman.cpp:154-162 | After the bucket loop of MakeTried the entry is in no new slot and its count is zero |
| `AddrMan.CAddrMan.EvictSlot` | src/addrman.cpp:168-189 | Takes whoever is at the tried slot back to the new table |
| `AddrMan.CAddrMan.MakeTried` | src/addrman.cpp:152-198 | The in-place move equals the move on values, and its assertions hold |
| `AddrMan.CAddrMan.Good` | src/addrman.cpp:200-247 | Good in place; from whatever bucket the search starts, it finds the entry |
| `AddrMan.CAddrMan.Add` | src/addrman.cpp:249-315 | Add in place, with its result |
| `AddrMan.CAddrMan.Attempt` | src/addrman.cpp:317-334 | Attempt in place: only the entry for exactly this service changes |
| `AddrMan.CAddrMan.Connected` | src/addrman.cpp:478-497 | Connected in place: the time moves only after twenty minutes |
| `AddrMan.CAddrMan.GetAddr` | src/addrman.cpp:457-476 | GetAddr in place, with the addresses it returns |
| `AddrMan.CAddrMan.Check` | src/addrman.cpp:380-454 | On every manager the loops of `Check_` answer 0 if and only if all tests hold and the key is not null; with no stale key and ids in range, if and only if the invariant holds; and only missing keys of entries are put into `mapAddr` |
| `AddrMan.CAddrMan.Clear` | src/addrman.h:431-452 | Empties tables, vector and counters, and leaves the two maps alone |
| `AddrMan.CAddrMan.Serialize` | src/addrman.h:279-326 | Writes the tokens of the file for the present state, with any time stamps; the assertions on the counters hold |
| `AddrMan.CAddrMan.Unserialize` | src/addrman.h:329-424 | Reads the stream, builds every index and prunes; everything but `mapAddr` and the time stamps is in order, and `mapAddr` if and only if no entry that is kept shares its address |
| `AddrMan.CAddrMan.PruneAll` | src/addrman.h:405-416 | Deletes exactly the entries that are in neither table |
| `AddrFile.LoadKeeps` | src/addrman.h:346-416 | For any file with right counts, also of another version or bucket count or with an address that comes twice: `vRandom`, both tables and the counters are in order, and `mapAddr` is if and only if no entry that is kept has its address in common with another that was loaded, kept or pruned |
| `AddrRepeat.RecordsDecide` | src/addrman.h:346-416 | For a file of another version than 1 or with another number of buckets than 1024 the condition is one on its records: a new one is kept exactly when no earlier one has its home slot, a tried one when no earlier one has its tried slot, and `mapAddr` is right if and only if no kept record has its address in common with another that gets an entry |
| `AddrFile.SaneKeeps` | src/addrman.h:346-416 | So a file with right counts and no address twice gives a manager with the whole structure |
| `AddrFile.RepeatedNew` | src/addrman.h:346-416 | When two new records have the same address and one of them is kept, `mapAddr` is wrong |
| `AddrFile.RepeatedNewFails` | src/addrman.h:346-363 | That happens: with two such records in a file of another version the first is always kept |
| `AddrFile.RepeatedTried` | src/addrman.h:367-384 | A tried record that comes twice does no harm: the second copy is lost to the place of the first |
| `AddrFile.EmptiedIndexed` | src/addrman.h:431-452 | After Clear `mapAddr` and `mapInfo` agree with the rest if and only if both were empty |
| `AddrFile.UsedFails` | src/addrman.h:329-424 | Loading a file without records into any manager that has entries leaves all of them in `mapInfo` and none in `vRandom`: the loaded manager is not in order |
| `AddrFile.PrunePlaced` | src/addrman.h:405-416 | Pruning removes all entries in neither table, with the keys of their addresses, and keeps the rest in place and counted |
| `AddrRestore.CountsWritten` | src/addrman.h:297-317 | The counters equal the numbers of records written, so the two assertions of the writer never fire |
| `AddrRestore.RoundTrip` | src/addrman.h:279-424 | Loading what was saved restores every entry, in the same slots of both tables and with the same reference counts, under new ids; nothing is pruned or lost to a collision, the structure holds again, and the whole invariant if it held before |
| `AddrRestore.UnprunedSame` | src/addrman.h:405-416 | When every entry has a place, pruning changes nothing |
| `AddrStream.ParseTokens` | src/addrman.h:279-403 | The stream is read back as it was written, the count of buckets with its marked bit included |
| `AddrStream.ParseOld` | src/addrman.h:329-345 | A file of version 0 is read with its number of buckets as it is |
| `AddrStream.FileRoundTrip` | src/addrman.h:279-424 | Both together: a consistent manager survives the stream |
| `AddrStream.SavedHeader` | src/addrman.h:279-296 | A file starts with version 1, key size 32, the key, the two counts and 1024 + 2^30 |
| `AddrStream.ParseCounts` | src/addrman.h:346-403 | What is read has the counts that were announced, unless one is negative |
| `AddrStream.ReadFile` | src/addrman.h:329-356 | The reading loops, with a wrong key size and a stream that ends too early as failures |
| `CoinsView.RunShows` | src/coins.cpp:86-131 | Whatever is read at any depth, edited, flushed, pushed and popped on a stack of caches, it shows the same coins (pruned counts as absent) as one flat map edited directly, and the flags keep their meaning |
| `CoinsView.StepShows` | src/coins.cpp:86-207 | One such step |
| `CoinsView.FetchKeeps` | src/coins.cpp:86-112 | Reading fills every cache on the way, shows what the stack showed, and returns it |
| `CoinsView.ModifyKeeps` | src/coins.cpp:114-131 | ModifyCoins starts from the shown coins and changes nothing that can be seen |
| `CoinsView.CommitShows` | src/coins.cpp:273-281 | A committed edit changes its own transaction only; a FRESH entry that was pruned is dropped rightly |
| `CoinsView.FreshAssertHolds` | src/coins.cpp:173-177 | The assertion in BatchWrite never fails: coins that the parent cache does not hold are FRESH |
| `CoinsView.FlushKeeps` | src/coins.cpp:165-207 | A flush is invisible and keeps the meaning of FRESH and DIRTY in the parent |
| `CoinsView.FlushBelow` | src/coins.cpp:165-207 | Flushing a cache below another one keeps the flags right if and only if the upper one has only FRESH entries |
| `CoinsView.FlushBelowFails` | src/coins.cpp:165-207 | ... and if an entry of the upper one is not FRESH, editing it after that makes the assertion in BatchWrite fail at the next flush |
| `CoinsView.FlushBest` | src/coins.cpp:153-163 | The best block survives a flush if and only if the cache had one, or there is no cache below, or that cache has none of its own to lose |
| `CoinsLean.StepBest` | src/coins.cpp:153-208 | The best block is the one set last, through reading, editing and pushing; a flush loses it if and only if the cache had none of its own and the one below had |
| `CoinsLean.FetchReads` | src/coins.cpp:86-102 | Looking coins up adds entries that will not be written, marks them FRESH if and only if nothing is left of the coins, and touches no other |
| `CoinsLean.RunLean` | src/coins.cpp:86-208 | In every run, no cache keeps changed coins that are gone when its base does not have them either |
| `CoinsLean.FlushWrites` | src/coins.cpp:165-208 | A flush writes exactly what was changed; coins that are gone are not stored in the database, and are kept in a cache whose base has them |
| `CoinsCache.CCoinsView.GetCoins` | src/coins.cpp:86-112 | The lookup that fills the caches |
| `CoinsCache.CCoinsView.HaveCoins` | src/coins.cpp:143-151 | Looks whether any output is stored; on a stack of trimmed coins that is whether coins are shown |
| `CoinsCache.CCoinsView.ModifyCoins` | src/coins.cpp:114-131 | The start of a modification |
| `CoinsCache.CCoinsView.EndModification` | src/coins.cpp:273-281 | The end of a modification |
| `CoinsCache.CCoinsView.BatchWrite` | src/coins.cpp:165-200 | Writing a child in any order of its hash table |
| `CoinsCache.CCoinsView.Flush` | src/coins.cpp:202-207 | A flush, with the assertion in BatchWrite |
| `CoinsCache.CCoinsView.SetBestBlock` | src/coins.cpp:160-163 | Sets the best block and nothing else |
| `CoinsTrimmed.RunTrims` | src/coins.cpp:86-281 | A stack whose stored coins all have no spent tail stays so under any run, whatever coins clients put |
| `CoinsTrimmed.HaveRight` | src/coins.cpp:143-151 | On such a stack coins are shown if and only if some output is found |
| `CoinsTrimmed.UntrimmedHave` | src/coins.cpp:143-151 | Without that it is not: one spent output that is not trimmed |
| `CoinsCodec.RoundTrip` | src/coins.h:200-263 | Over tokens: loading what was written for coins that are not pruned consumes exactly that, whatever zero bytes the mask holds; it gives them without their spent tail and with the fields that are not stored reset if and only if version and height are not negative, and otherwise with only the lowest seven bits of these |
| `CoinsCodec.NegativeVersion` | src/main.cpp:2544-2548 | Coins of version -1 are loaded with version 127 |
| `CoinsCodec.HeaderBits` | src/coins.h:200-211 | The biased header code tells the two flags, the first two outputs and the number of mask bytes |
| `CoinsCodec.SomethingUsed` | src/coins.h:200-208 | The assertion of the writer: coins that are not pruned have something to announce |
| `CoinsCodec.BeyondMask` | src/coins.cpp:17-34 | No unspent output lies beyond the announced mask |
| `CoinsCodec.ReadMaskBytes` | src/coins.h:243-253 | The reader, which counts only mask bytes that are not zero, stops exactly at the end of the mask |
| `CoinsCodec.CalcMaskSize` | src/coins.cpp:17-34 | The loop finds the last mask byte that is not zero and how many there are |
| `CoinsCodec.Write` | src/coins.h:200-227 | The writing loops |
| `CoinsCodec.Read` | src/coins.h:230-263 | The reading loops, with a stream that ends too early as a failure |
| `CoinsBytes.CoinsBack` | src/coins.h:230-263 | Reading bytes gives what reading the tokens they encode gives, and stops where it stops |
| `CoinsBytes.RoundTripBytes` | src/coins.h:200-263 | The same down to bytes, for every version and height of 32 bits, with variable-length integers and compressed outputs, whatever follows in the stream |
| `Formats.ExampleBytes` | src/coins.h:41-53 | The first documented example, byte by byte: its bytes are those of coins whose first output is unspent; the second, which is documented, has 8 for the 4 |
| `CoinsBytes.AnnouncedFails` | src/coins.h:183-207 | They do not for any 66 unspent outputs |
| `CoinsBytes.GetSerializeSize` | src/coins.h:175-196 | The announced size, which counts eight where the writer counts sixteen for a mask byte, is never too large, and right if and only if the two header codes take equally many bytes |
| `Merkle.RoundTrip` | src/merkleblock.cpp:38-155 | For every list of transactions within the limit and every mask, extracting from the built tree gives the Merkle root and exactly the matched transactions in order, using all hashes and bits, also after the bits were padded to bytes |
| `Merkle.ExtractBuilt` | src/merkleblock.cpp:56-104 | The same for every node: the reader ends where the builder ended |
| `Merkle.Soundness` | src/merkleblock.cpp:75-155 | If the hash does not collide, a proof for the true number of transactions that yields the true root matches only transactions of the block, in the order of the block, whatever its bits and hashes are |
| `Merkle.SoundAnyCount` | src/merkleblock.cpp:75-155 | Whatever number of transactions is announced, if the tree has the same height, a proof that yields the true root matches only transactions of the block |
| `Merkle.HeightMatters` | src/merkleblock.cpp:75-155 | With another height it may match an inner node: two transactions of which one is announced |
| `Merkle.TamperEvident` | src/merkleblock.cpp:123-155 | Changing any hash of a working proof makes it fail or yield another root |
| `MerkleSurplus.NothingSurplus` | src/merkleblock.cpp:123-155 | An accepted proof with more after it is accepted if and only if no hash is added and the bits fill the same number of bytes, and then it yields the same |
| `MerkleSurplus.Refused` | src/merkleblock.cpp:123-137 | Proofs for no or for more than 33333 transactions, with more hashes than transactions, or with fewer bits than hashes yield nothing |
| `Merkle.BuildSize` | src/merkleblock.h:36-47 | At most one hash for every leaf below the node, and a bit for every hash |
| `Merkle.HashBound` | src/merkleblock.h:36-40 | The promised bound, for every subtree: at most 1 + matched transactions * height hashes |
| `Merkle.TreeBound` | src/merkleblock.h:36-40 | ... and for the whole proof |
| `Merkle.BitCount` | src/merkleblock.h:43-47 | The exact number of bits for N hashes: 2N - 1 and one more for each visited node with an only child |
| `Merkle.BitBoundFails` | src/merkleblock.h:47 | A tree for which the promised bound of 2N - 1 bits fails |
| `MerkleSize.SizeGuarantee` | src/merkleblock.h:29-45 | The exact size in bytes, and when it is within the guaranteed 10 + ceil(32.25 * N) for N hashes: exactly when the flag bytes fit, and always without only children |
| `MerkleSize.GuaranteeFails` | src/merkleblock.h:29-33 | 1028 transactions, all matched, take 33164 bytes, one more than that |
| `MerkleTree.CPartialMerkleTree.TraverseAndBuild` | src/merkleblock.cpp:56-73 | Appends the bits and hashes of the node |
| `MerkleTree.CPartialMerkleTree.TraverseAndExtract` | src/merkleblock.cpp:75-104 | Advances the two counters and the list of matches as the reader on values does |
| `MerkleTree.CPartialMerkleTree.ExtractMatches` | src/merkleblock.cpp:123-155 | The whole extraction with all its refusals |
| `MerkleTree.CPartialMerkleTree.WriteBits` | src/merkleblock.h:100-104 | Packs bits into bytes, least significant first |
| `MerkleTree.CPartialMerkleTree.ReadFrom` | src/merkleblock.h:93-99 | Unpacks them |
| `MerkleTree.BytesPad` | src/merkleblock.h:88-106 | Packing and unpacking only adds padding |
| `MerkleTree.Relay` | src/merkleblock.cpp:106-155 | Building, writing, reading and extracting one after the other gives the root and the matches |
| `CheckQueue.EveryRun` | src/checkqueue.h:69-165 | In every interleaving of the master and its workers, `nTodo` counts the queued checks and those in unmerged batches, `nIdle` and `nTotal` the blocked threads and those inside, every answer of Wait is true if and only if all checks of its round are, and while nothing has been added since, the queue is idle, so the assertion of the next control holds |
| `CheckQueue.EveryRunRouses` | src/checkqueue.h:69-165 | In every interleaving, while checks are queued some worker has a batch or has been notified, unless no worker is inside: nobody oversleeps |
| `CheckQueue.AddRouses` | src/checkqueue.h:152-165 | Adding two checks or more rouses every blocked worker, adding one rouses one if there is any, and no other thread is touched |
| `CheckQueue.AfterKeeps` | src/checkqueue.h:69-165 | Every step of every thread keeps the invariant, spurious wake-ups included |
| `CheckQueue.IdleAfterReturn` | src/checkqueue.h:98-106 | When Wait returns, one more answer is given, which is whether all checks of the round are true, and the queue is idle |
| `CheckQueue.IdleStays` | src/checkqueue.h:171-190 | No worker can make an idle queue busy, so the assertion of the next control holds |
| `CheckQueue.NoDeadlock` | src/checkqueue.h:80-118 | A blocked master that was not notified has `nTodo` > 0, and some worker holds a batch and can go on |
| `CheckQueue.NotifiedReturns` | src/checkqueue.h:84-106 | A notified master returns as soon as it has the mutex |
| `CheckQueue.MeasureDecreases` | src/checkqueue.h:69-127 | Running, merging and taking checks use up a measure that only Add increases |
| `CheckQueue.BoundedWork` | src/checkqueue.h:69-127 | A run has at most three productive steps for each added check |
| `CheckQueue.WorkEnds` | src/checkqueue.h:69-131 | Without new checks, running and merging end after as many steps as the measure says |
| `CheckQueue.BatchCount` | src/checkqueue.h:111-115 | A batch has at least one check and at most the whole queue |
| `CheckQueue.BatchShare` | src/checkqueue.h:111-115 | It is the largest number that is neither above the batch size nor above the share of the queue of one thread among all inside and the idle ones again, but at least one |
| `CheckQueueLoop.CCheckQueue.CleanUp` | src/checkqueue.h:81-92 | The head of the critical section, and when the master is notified |
| `CheckQueueLoop.CCheckQueue.Next` | src/checkqueue.h:94-122 | The rest of it: return, wait, or take a batch off the end |
| `CheckQueueLoop.CCheckQueue.Woken` | src/checkqueue.h:101-103 | What a thread does on waking up |
| `CheckQueueLoop.CCheckQueue.Add` | src/checkqueue.h:152-165 | Adds checks, and notifies as many workers as the step of the state machine rouses |
| `CheckQueueLoop.RunBatch` | src/checkqueue.h:124-127 | A batch is fine if and only if nothing had failed before and all its checks are true |
| `CheckQueueLoop.CCheckQueue.WaitAlone` | src/checkqueue.h:69-149 | A master whom nobody helps works through the queue, returns whether all is true, and leaves the queue idle |
| `Denominations.SpendBest` | src/denomination_functions.cpp:46-68 | When each denomination divides the next, bounded greedy reaches every amount that some choice of the held coins reaches, and with the fewest coins |
| `Denominations.SpendComplete` | src/denomination_functions.cpp:46-68 | It is exact if and only if some choice is |
| `Denominations.Exchange` | src/denomination_functions.cpp:46-68 | The exchange: coins worth m of the next denomination can be given up for m coins of it |
| `Denominations.ChangeBest` | src/denomination_functions.cpp:73-93 | Change for a multiple of the smallest denomination is exact, and no other coins of that amount are fewer |
| `Denominations.ChangeNone` | src/denomination_functions.cpp:73-93 | There is change if and only if the amount is worth the smallest coin |
| `Denominations.AmountsChain` | src/libzerocoin/Denominations.cpp:37-54 | The eight amounts are such a chain |
| `Denominations.AmountsAre` | src/libzerocoin/Denominations.cpp:37-54 | They are 1, 5, 10, 50, 100, 500, 1000 and 5000 coins of 100000000 |
| `CoinSelection.SelectSound` | src/denomination_functions.cpp:411-443 | A selection that is not empty consists of unused mints, none more often than it is listed, worth nSelectedValue, which is at least the target, and nCoinsReturned is the number of coins in the change for the excess |
| `CoinSelection.SelectDistinct` | src/denomination_functions.cpp:411-443 | From a list without duplicates no mint is selected twice |
| `CoinSelection.SelectExact` | src/denomination_functions.cpp:419-427 | When some exact choice has few enough coins, the selection is exact, needs no change, and has no more coins than that choice |
| `CoinComplete.SelectComplete` | src/denomination_functions.cpp:316-443 | For a positive amount of whole coins something is selected if and only if an exact choice has few enough coins, or there is a coin worth more than the target, or the choice from the top down comes out above it; when no choice is exact, if and only if the unused mints are worth it |
| `CoinComplete.LeftOver` | src/denomination_functions.cpp:219-260 | When the choice from the top down comes out above the target, greedy below it leaves a coin that covers what remains |
| `CoinComplete.SelectAffordable` | src/test/zerocoin_denomination_tests.cpp:139-146 | Whenever some choice of at most the maximum number of mints is worth the target, a selection of at most so many is made |
| `CoinComplete.NeededSpends` | src/denomination_functions.cpp:418-432 | nNeededSpends is the fewest mints of an exact choice if these are more than the maximum, and 0 otherwise; when nothing is selected, nSelectedValue is the target if some choice is exact, and what it was before otherwise |
| `CoinComplete.TooManyFails` | src/denomination_functions.cpp:424-443 | Three mints of 10 for a target of 30 with at most two spends: nothing is selected, although they are worth it, and three spends are said to be needed |
| `CoinLimit.SelectLimit` | src/denomination_functions.cpp:408-443 | A selection that is not empty keeps the maximum number of spends if and only if some choice of the unused mints that is worth the target does |
| `CoinLimit.OverFewest` | src/denomination_functions.cpp:365-377 | When no single coin will do, no choice that reaches the target has fewer coins than the one that calculateChange takes |
| `CoinMinimize.SelectFewest` | src/denomination_functions.cpp:316-405 | Without fMinimizeChange no choice of unused mints that is worth the target has fewer mints than a selection with change |
| `CoinMinimize.SelectOne` | src/denomination_functions.cpp:327-361 | When no exact choice keeps the maximum and some mint is worth more than the target, it then is one mint of the smallest denomination that is worth more |
| `CoinMinimize.SelectFlag` | src/denomination_functions.cpp:316-443 | Of two selections with change, the one with fMinimizeChange returns no more coins, and the one without it spends no more mints; if they spend as many, they return as many; without change the flag makes no difference |
| `CoinMinimize.TrimmedApart` | src/denomination_functions.cpp:277-293 | After removing the overlap no denomination is both spent and returned, what is left is still worth the target, and its change is the rest of the change |
| `CoinExamples.FewSelected` | src/denomination_functions.cpp:316-443 | For 12 out of a 5, a 10 and a 100: with the flag 10 and 5 are spent and three coins return, if two may be spent; without it the 100 is, and eight return |
| `CoinExamples.SomeSelected` | src/denomination_functions.cpp:268-275 | For 26 out of one 5, four of 10 and one of 500: with the flag three of 10 are spent and four coins return, as the 5 would come back as change |
| `CoinExamples.TensSelected` | src/denomination_functions.cpp:362-405 | For 12 out of a 5 and two of 10, with or without the flag, 10 and 5 are spent and three coins return, not two of 10 and four, if two may be spent |
| `CoinExamples.FiftiesSelected` | src/denomination_functions.cpp:362-405 | For 63 out of three of 5 and two of 50: with the flag one of 50 and three of 5 are spent and two coins return, if four may be spent; without it two of 50, and six return |
| `CoinComplete.LimitFails` | src/denomination_functions.cpp:408 | Three mints of 10 for a target of 25 with at most two spends: more than two are selected |
| `CoinSelection.CalculateSound` | src/denomination_functions.cpp:316-405 | Both ways of giving change choose among the held coins, and count their change rightly |
| `CoinSelection.MinimizeSound` | src/denomination_functions.cpp:219-309 | Minimising keeps that: the final greedy choice meets the trimmed amount exactly |
| `CoinSelection.PassesEnd` | src/denomination_functions.cpp:136-146 | The do-while loop of getSpends ends if and only if nothing of the denomination is wanted or an unused mint of it exists |
| `CoinSelection.PickAllWorth` | src/denomination_functions.cpp:128-148 | The picked mints are unused and worth what the counts say |
| `CoinSelection.PickAllWithin` | src/denomination_functions.cpp:128-148 | No mint is picked twice when no count is more than there are |
| `CoinSelection.PickAllTwice` | src/denomination_functions.cpp:128-148 | ... and some mint is when one is |
| `CoinSelector.GetSpendCoins` | src/denomination_functions.cpp:46-68 | The loops of getSpendCoins |
| `CoinSelector.GetChange` | src/denomination_functions.cpp:73-93 | The loops of getChange |
| `CoinSelector.GetIdealSpends` | src/denomination_functions.cpp:99-123 | Greedy over the unused mints; true if and only if some of them make the target exactly |
| `CoinSelector.GetSpends` | src/denomination_functions.cpp:128-148 | The picking loops and the value |
| `CoinSelector.MinimizeChange` | src/denomination_functions.cpp:219-309 | The loops of minimizeChange |
| `CoinSelector.CalculateChange` | src/denomination_functions.cpp:316-405 | The loops of calculateChange |
| `CoinSelector.SelectMintsFromList` | src/denomination_functions.cpp:411-443 | The whole selection, for every map of held coins for whose choice of coins getSpends ends |
| `Base58.DecodeEncode` | src/base58.cpp:22-116 | Every byte vector is decoded from its encoding |
| `Base58.EncodeDecode` | src/base58.cpp:22-116 | Encoding what was decoded gives the string without surrounding spaces |
| `Formats.EncodeValue` | src/base58.cpp:83-116 | A string stands for the same number as the bytes, with as many leading digits for zero as there are leading zeros |
| `Base58.DecodeInjective` | src/base58.cpp:22-66 | A string is decoded if and only if it is all of the alphabet but for surrounding spaces, and two strings give the same bytes if and only if they are the same but for these |
| `Base58.Spaces` | src/base58.cpp:24-49 | Which characters may surround the digits |
| `Base58.CheckRoundTrip` | src/base58.cpp:128-152 | The same with the checksum, whatever the hash is |
| `Base58.CheckBack` | src/base58.cpp:128-152 | A string that passes the check is the one encoding of its bytes |
| `Base58.EncodeLength` | src/base58.cpp:92 | n * 138 / 100 + 1 digits are enough for n bytes, for every n |
| `Base58.DecodeLength` | src/base58.cpp:35 | n * 733 / 1000 + 1 bytes are enough for n digits, for every n |
| `Radix.MultiplyAdd` | src/base58.cpp:43-47 | The carry loop multiplies and adds in place; no carry is left if and only if the result fits |
| `Radix.ConvertBack` | src/base58.cpp:22-116 | Changing the base and keeping leading zeros can be undone |
| `Radix.DigitsEnough` | src/base58.cpp:92 | How a rational bound on a logarithm bounds the number of digits, with exact arithmetic |
| `Base58Codec.EncodeBase58` | src/base58.cpp:83-116 | The encoding loops; the assertion on the carry holds |
| `Base58Codec.DecodeBase58` | src/base58.cpp:22-66 | The decoding loops with both refusals; the assertion on the carry holds |
| `Base58Codec.DecodeBase58Check` | src/base58.cpp:137-152 | Too short and wrong checksums are refused |
| `Base58Codec.EncodeBase58Check` | src/base58.cpp:128-135 | Appends four bytes of the hash and encodes |
| `Compressor.DecompressCompress` | src/compressor.cpp:137-180 | Every amount is restored from its short form |
| `Compressor.CompressDecompress` | src/compressor.cpp:137-180 | Every number is the short form of the amount it stands for |
| `Formats.ShortForm` | src/compressor.cpp:128-160 | The documented rule for the short form of an amount |
| `Formats.ShortExamples` | src/test/compress_tests.cpp:39-46 | The short forms in the unit test and in the examples beside CCoins |
| `Compressor.CompressBound` | src/compressor.cpp:128-154 | The short form is at most nine times the amount |
| `Compressor.CompressFits` | src/compressor.cpp:137-154 | No amount up to the money limits overflows 64 bits, and where the bound is met exactly |
| `Compressor.ScriptRestored` | src/compressor.cpp:12-126 | A script with a short form is restored byte for byte |
| `Compressor.ShortForms` | src/compressor.cpp:12-70 | The short forms of scripts that pay to a key hash, to a script hash and to a compressed key, byte by byte |
| `Compressor.LongForm` | src/compressor.cpp:36-68 | A script that pays to an uncompressed key has one if and only if the key is valid: its first coordinate and whether the second is odd |
| `Compressor.OnlyForms` | src/compressor.cpp:12-70 | No other script has a short form |
| `Compressor.ScriptRoundTrip` | src/compressor.h:69-96 | A script is read back as it was written, whatever follows it in the stream |
| `Compressor.WriteScriptInjective` | src/compressor.h:69-96 | Tags never collide with lengths: different scripts are written differently |
| `Compressor.ScriptSizes` | src/compressor.h:17-27 | The promised lengths: 21 and 33 bytes for the special forms, one byte more up to 121, two up to 16505 |
| `Compressor.OutRoundTrip` | src/compressor.h:113-126 | An output is read back as it was written, if the short form of its amount fits into 64 bits |
| `VarInt.ReadWrite` | src/serialize.h:380-451 | A number is read back from its variable-length encoding, whatever follows |
| `VarInt.WriteRead` | src/serialize.h:386-393 | There is no other encoding of it |
| `Formats.VarIntSum` | src/serialize.h:380-386 | What bytes stand for is the documented sum, both when they are read and when they are written |
| `Formats.VarIntExamples` | src/serialize.h:395-400 | The documented examples |
| `Formats.VarIntWrong` | src/serialize.h:398-399 | Two of them are wrong: the bytes for 16511 and 65535 are others, and those documented stand for 32895 and 65407 |
| `VarInt.SizeLimits` | src/serialize.h:389 | Which numbers need how many bytes |
| `VarInt.BufferSizes` | src/serialize.h:419 | The writer's buffer is long enough for 32 and for 64 bits |
| `VarInt.WriteVarInt` | src/serialize.h:416-430 | The writing loops over the buffer, for signed integers too: of a negative one only the lowest seven bits are written |
| `VarInt.ReadVarInt` | src/serialize.h:432-445 | The reading loop, which wraps at the width of the integer |
| `CompressorCodec.CompressAmount` | src/compressor.cpp:137-154 | The loop, with 64-bit wrap-around |
| `CompressorCodec.DecompressAmount` | src/compressor.cpp:156-180 | The loop, with 64-bit wrap-around |
| `CompressorCodec.CScriptCompressor.Compress` | src/compressor.cpp:43-72 | Which scripts have a short form, and it |
| `CompressorCodec.CScriptCompressor.Decompress` | src/compressor.cpp:83-126 | The script for a tag; it stays as it was when a compressed key stands for nothing |
| `CompressorCodec.CScriptCompressor.Serialize` | src/compressor.h:69-80 | Writing a script |
| `CompressorCodec.CScriptCompressor.Unserialize` | src/compressor.h:82-96 | Reading a script |
| `CompressorCodec.CScriptCompressor.GetSerializeSize` | src/compressor.h:60-67 | The size is the number of bytes written |
| `CompressorCodec.WriteTxOut` | src/compressor.h:113-126 | Writing an output |
| `CompressorCodec.ReadTxOut` | src/compressor.h:113-126 | Reading an output |
| `Kernel.NextModifier` | src/kernel.cpp:182-245 | A new modifier comes from min(64, candidates) different picks; bit r is the lowest bit of the hash of pick r, there are no other bits, and it fits into as many bits as there were picks; no other picks or modifier are possible |
| `Kernel.ComputeNextStakeModifier` | src/kernel.cpp:151-245 | The whole computation with every early return; with the chain in the block index no round fails |
| `Kernel.CandidatesAre` | src/kernel.cpp:187-207 | The candidates are the last blocks, back to the first one from the end that is older than the start, in the order of time and then of hash |
| `Kernel.SelectRounds` | src/kernel.cpp:200-218 | The rounds: each pick is the least selection hash among the unselected candidates up to the stop of its round, the earliest unselected one if there is none |
| `Kernel.SelectBlockFromCandidates` | src/kernel.cpp:78-136 | The scan finds that candidate among those before the first one that is missing from the block index; it fails if and only if none of these is unselected, or it gets to the missing one |
| `Kernel.PickUnique` | src/kernel.cpp:78-136 | There is only one such candidate |
| `Kernel.RunUnique` | src/kernel.cpp:200-218 | The rounds are determined by the candidates |
| `Kernel.SectionsGrow` | src/kernel.h:15-19 | Section n is 3780 seconds divided by 189 - 2n; so the sections grow, and the last is three times as long as the first |
| `Kernel.LastRoundEnds` | src/kernel.cpp:191-216 | The last round ends with the last whole interval before the time of the last block |
| `StakeFavour.StakePicked` | src/kernel.cpp:97-127 | A proof-of-stake candidate is picked if and only if the quotient by 2^32 of the hash of one of them is below the hash of every proof-of-work candidate in time, or equal to it and earlier; before the new calculation that hash is of a null proof |
| `StakeFavour.StakeFavoured` | src/kernel.cpp:115-119 | So it is favoured whenever no proof-of-work candidate in time hashes to less than 2^224 |
| `StakeFavour.WorkLeast` | src/kernel.cpp:106-127 | Among proof-of-work candidates the one with the least hash wins, and the first that has it |
| `StakeFavour.StakeLeast` | src/kernel.cpp:106-127 | Among proof-of-stake candidates the one with the least quotient wins, and the first that has it; before the new calculation simply the first |
| `StakeFavour.NotAlways` | src/kernel.cpp:115-119 | It is not always favoured: a proof-of-work block that hashes to 1 is picked before a proof-of-stake block that hashes to 2^34 |
| `Kernel.GetStakeModifierSelectionInterval` | src/kernel.cpp:66-73 | The sum of the sections |
| `Kernel.SortKeeps` | src/kernel.cpp:195-196 | Sorting keeps the candidates, in order of time |
| `Payments.RunKeeps` | src/masternode-payments.cpp:497-656 | In every state that AddWinningMasternode, CleanPaymentList and Clear can reach, the tally of every payee at every height is the number of recorded votes for it |
| `Payments.AcceptedIff` | src/masternode-payments.cpp:523-628 | A block is accepted, at any height, if and only if no payee has six recorded votes there or some payee that has is paid at least the required amount |
| `Payments.OneVoteEach` | src/masternode-payments.h:182-190 | A masternode has at most one recorded vote for a payee at a height |
| `Payments.TrackedIff` | src/masternode-payments.cpp:508-517 | A height is tracked if and only if a vote for it is recorded |
| `Payments.CleanKeeps` | src/masternode-payments.cpp:630-656 | Cleaning, which drops whole heights by single votes, keeps the tally right |
| `Payments.CleanOutcome` | src/masternode-payments.cpp:630-656 | After cleaning a vote is recorded if and only if it was and its height is at least the tip less the limit; the tally of every payee is what it was at those heights, and none at others |
| `Payments.CleanAccepts` | src/masternode-payments.cpp:630-656 | What blocks are accepted at a height that is kept does not change; at one that is dropped every block is |
| `Payments.AddOutcome` | src/masternode-payments.cpp:497-521 | Exactly a vote that is new, for a height whose block a hundred below is known, is one more in the tally of its payee at its height, and nothing in any other |
| `PaymentsList.CMasternodePayments.AddWinningMasternode` | src/masternode-payments.cpp:497-521 | Records a vote once, and raises the tally of its payee at its height by one and no other |
| `PaymentsList.CMasternodePayments.CleanPaymentList` | src/masternode-payments.cpp:630-656 | The erasing loop, in any order of the map: drops exactly the votes and tallies of the heights below the tip less the limit |
| `PaymentsList.CMasternodePayments.IsTransactionValid` | src/masternode-payments.cpp:618-628 | The decision in terms of recorded votes |
| `PaymentsList.CMasternodePayments.GetBlockPayee` | src/masternode-payments.h:123-136 | The payee with the most recorded votes, if any vote is recorded |
| `PaymentsList.AddPayee` | src/masternode-payments.h:108-121 | The loop that counts a vote |
| `PaymentsList.GetPayee` | src/masternode-payments.h:123-136 | The first payee with the most votes |
| `PaymentsList.HasPayeeWithVotes` | src/masternode-payments.h:138-149 | Whether a payee has so many votes |
| `PaymentsList.IsPaymentValid` | src/masternode-payments.cpp:523-584 | The two loops of the decision |
| `Chain.CChain.SetTip` | src/chain.cpp:13-24 | From any chain to any block: the same vector as rebuilding it from the block's full ancestry, although the loop stops at the first block in place |
| `Chain.CChain.FindFork` | src/chain.cpp:55-62 | The highest common ancestor; null if and only if there is none |
| `Chain.CChain.GetLocator` | src/chain.cpp:26-53 | The hashes at the heights of the locator, whether taken from the chain or from the skip list |
| `Chain.LocatorDecreases` | src/chain.cpp:26-53 | The heights of a locator strictly decrease |
| `Chain.LocatorHeights` | src/chain.cpp:26-53 | They start at the block and end at genesis |
| `Chain.LocatorLength` | src/chain.cpp:26-53 | A locator has at most 11 + m entries if and only if the block is at most 2^m + 9 high |
| `Chain.CChain.ContainsBelow` | src/chain.h:542-560 | A contained block has its ancestors and its successor in the chain; only the tip has no successor |
| `Chain.CChain.ContainsIs` | src/chain.h:541-571 | A block is contained if and only if it is one of the chain, where it is at its height, and its successor is the next one |
| `Chain.CBlockIndex.GetAncestor` | src/main.cpp:4366-4387 | Following skip pointers gives the ancestor at the height, null if there is none, and how many pointers are followed |
| `SkipSteps.StepsBound` | src/main.cpp:4366-4387 | From any height of m bits any ancestor is found in at most Most(m) steps |
| `SkipSteps.MostReached` | src/main.cpp:4366-4387 | From m = 9 on the bound is exact: it is reached from 2^m - 8 to 2 |
| `SkipSteps.MostIs` | src/main.cpp:4366-4387 | Four times Most(m) is m * m + 8 * m - 28, less one if m is odd |
| `SkipSteps.StepsPromise` | src/main.cpp:4360-4362 | The promised 110 steps up to height 2^18 are enough, and they are needed |
| `SkipSteps.NotLogarithmic` | src/chain.cpp:47 | No multiple of the number of bits bounds the steps: the search is not O(log n) |
| `SkipList.FarPrevious` | src/main.cpp:4375-4377 | When the search leaves an even height by its parent because the parent skips further, the skip pointer of the parent is followed next, to a height with fewer bits |
| `Chain.CBlockIndex.constructor` | src/main.cpp:4394-4398 | The skip pointer of a new block is right |
| `SkipList.LowestOff` | src/main.cpp:4352 | Exactly the lowest bit that is on is turned off |
| `SkipList.GetSkipHeight` | src/main.cpp:4355-4364 | The skip height is strictly lower |

## Left out

- `Select_` and `GetChance` of the address manager: they end only with probability one and use floating point.
- Overflow of `nIdCount`, `nAttempts`, `nVotes` and of sums of amounts: counters are unbounded, as 2^31 calls are out of reach.
- AddrMan.CAddrMan.Unserialize: the object is fresh, for the reason in `AddrFile.UsedFails`, and the two counts are not negative: after a negative count of new entries an id may be -1, which is the mark of an empty slot. Reading comes before building, so a stream that ends too early leaves the object cleared instead of half built.
- CoinsBytes.RoundTripBytes: amounts of outputs are not negative and their short forms fit into 64 bits, as for all amounts that `CheckTransaction` lets pass (`src/main.cpp:1437-1442`); the mask has less than 2^28 bytes.
- AddrStream.ParseTokens: numbers and records are tokens, not bytes.
- CoinsView.RunShows: clients flush or pop only the top of the stack, as the code's users do; `CoinsView.FlushBelow` says what happens otherwise.
- CoinsCache.CCoinsView.BatchWrite: the database below the caches is a plain map that is written in one step.
- Merkle.Soundness: assumes a root that is not null, since null is also the failure.
- CheckQueue.EveryRun: a check is what it returns, `fQuit` is never set, as in the code, and the mutex makes each critical section one step.
- CoinSelection.SelectSound: `mapOfDenomsHeld` counts the unused mints, as the wallet passes it; the map of used coins starts empty, as in the only call.
- CoinComplete.SelectComplete: amounts are multiples of the smallest denomination, to which the caller rounds (`src/wallet/wallet.cpp:4280-4284`).
- CoinSelector.SelectMintsFromList: excludes exactly the maps of held coins for whose choice getSpends does not end, as `CoinSelection.PassesEnd` says.
- Compressor.ScriptRestored: the elliptic curve is a parameter.
- Kernel.ComputeNextStakeModifier: the ancestry of a block is a sequence, and `std::sort` is an insertion sort on values.
- Signatures, sporks, masternode ranking, block values and `CanVote` in the payments: their results are parameters.
- `CChain::operator==`, the last proof-of-stake block of `CChain::Tip` and `GetBlockTrust`: accessors and arithmetic on 256-bit numbers.
- Networking, RPC, files, locks beside the check queue's, logging and clocks.
