# OxideBT: verified models of the core

OxideBT is a BitTorrent client in Rust. This project models its stateful and
arithmetic core in Dafny and proves what that core promises:

- the adaptive piece cache (`ArcPolicy`, `ArcHistory`, `ArcAdaptation`, `ArcEviction`,
  `PieceCache`);
- the block cache that hashes a piece while its blocks arrive (`BlockStream`, `BlockCache`),
  and when its hash loop stops (`HashAdvance`);
- multi-file storage as one flat byte array (`StorageLayout`, `TorrentStorage`, `DiskManager`),
  byte by byte (`StorageBytes`), and the pieces that block writes make (`DiskAssembly`);
- the cached disk built of these three: its steps (`CachedDisk`, `CachingManager`), its
  runs (`CachedRuns`), reads of incomplete pieces (`BufferedReads`) and short runs that
  go wrong (`CacheFailures`);
- bencode: grammar, decoder, encoder, both round trips and cut documents (`Text`,
  `Bencode*`), and the grammar in literal letters (`WireText`);
- the DHT: KRPC messages (`BTree`, `DhtMessage`, `DhtRoundTrip`, `DhtAccepted`) and their
  bytes on the wire (`DhtWire`), node ids (`NodeId`), the routing table (`Routing`,
  `RoutingOutcomes`, `RoutingSurvival`, `RoutingTable`) and the iterative lookup
  (`Lookup`, `LookupProgress`);
- the engine's download queue (`QueuePolicy`, `QueueTransitions`, `DownloadLimit`,
  `UploadLimit`, `TorrentQueue`), choke round (`ChokePolicy`, `Choking`), per-file progress
  (`Progress`), and connection rate limiter (`RateLimiter`); the write coalescers (`Coalescer`).

Each stateful component comes in two parts. A module of functions on values says what
every operation does to the whole state, and lemmas prove invariants, round trips and
run-level theorems about these functions. A class with the program's own fields and
loops is proved to take exactly these steps. What a step comes to is also written out
with the numbers, sets and letters of the program, in terms of neither (`ArcEviction`,
`QueueTransitions`, `RoutingOutcomes`, `StorageBytes`, `DhtWire`). `Sequences`,
`Arithmetic`, `OrderedMap` and `Sorting` hold facts the others share. Check everything
with `dafny verify dfyconfig.toml`.

## What the proofs found

Where a promise fails in the code, one lemma says exactly when it holds and another
gives an input on which it fails.

- `insert` of the piece cache does not ask whether its key is cached. The four lists
  stay disjoint, and with them the memory counter exact, only for keys not in T2 and
  not the T1 entry evicted to make room (`ArcHistory.InsertDisjointIff`,
  `ArcHistory.GetAccountsIff`, `ArcHistory.InsertAgainOverlaps`).
- The size bounds of the cache need a capacity of at least 1
  (`ArcPolicy.BoundsHoldIffCapacityPositive`).
- A remembered key evicts a piece from the cache even when there is room
  (`ArcEviction.NothingEvictedIff`, `ArcEviction.RememberedKeyEvicts`).
- A document cut behind the letter that opens a container nested a hundred deep is
  reported as too deep and not as an unexpected end (`BencodeFraming.CutDocumentIff`,
  `BencodeFraming.DeepDocumentIsCut`).
- The block cache's memory counter drifts when a block is replaced by one of another
  length (`BlockStream.AddBlockAccountsIff`, `BlockStream.ReplacementDrifts`).
- `write_block` caches a verified piece before it writes it, and does not remove an old
  copy from the list it does not put the new one in: the cache then holds bytes the disk
  does not have (`CachedDisk.CommitCoherentIff`, over runs `CachedRuns.RunCoherentIff`,
  `CacheFailures.FailedWriteIsCached`, `CacheFailures.StaleCopyIsRead`,
  `CacheFailures.GhostedCopyIsRead`).
- The loop that advances a piece's hash does not end on an empty block at the hashed
  position (`HashAdvance.StopsIffNoneEmpty`, `HashAdvance.EmptyBlockLoops`).
- An incomplete piece is read from its blocks joined without their gaps. What such a
  read returns is right only up to the first gap (`BufferedReads.BufferedBlockReadIff`,
  `BufferedReads.RunPieceReadAgreesIff`, `BufferedReads.BufferedReadDisagrees`).
- The decoder accepts integers with a plus sign, so decoding and encoding again is the
  identity exactly without them (`BencodeCanonical.EncodeDecodeIff`,
  `BencodeCanonical.PlusIsDropped`).
- An announce reply is parsed as a ping reply, and IPv6 contacts do not survive encoding
  (`DhtRoundTrip.RoundTripIff`, `DhtRoundTrip.AnnounceReplyReadsAsPing`,
  `DhtAccepted.Ipv6IsLost`).
- The routing table's replacement queue may hold one node twice
  (`Routing.AddKeepsIdsDistinctIff`, `RoutingSurvival.SpareIsRepeated`).
- "At most `max` downloads" is not inductive: the queue keeps it only together with the
  older torrents still being checked (`DownloadLimit.LimitAloneIsNotInductive`). The upload
  limit is asked for on admission, resume and start-next only: a completed download, a
  torrent found complete and the end of a move take a slot in any case
  (`UploadLimit.StepKeepsUploadLimitIff`, `UploadLimit.UploadLimitIsExceeded`,
  `UploadLimit.UploadLimitIsExceededByCheck`).

## Model

| member | source | states |
|---|---|---|
| `ArcPolicy.ReplaceEvictsOne` | src-tauri/crates/oxidebt-cache/src/piece_cache.rs:248-266 | `replace` evicts exactly one entry whenever any is cached, from exactly one of the two lists, and no list sum the bounds speak of grows |
| `ArcPolicy.InsertKeepsSizes` | src-tauri/crates/oxidebt-cache/src/piece_cache.rs:183-246 | every branch of `insert`, ghost hits and complete misses, keeps the joint size invariant for a capacity of at least 1 |
| `ArcPolicy.OtherOpsKeepSizes` | src-tauri/crates/oxidebt-cache/src/piece_cache.rs:148-181 | `get` with its promotion, and `remove`, keep the size invariant |
| `ArcPolicy.RunKeepsSizes` | src-tauri/crates/oxidebt-cache/src/piece_cache.rs:148-342 | over every run of get, insert, remove and clear: T1+T2, T1+B1 and p stay within the capacity, all four lists within twice it, and every deque is a duplicate-free listing of its map |
| `ArcPolicy.BoundsHoldIffCapacityPositive` | src-tauri/crates/oxidebt-cache/src/piece_cache.rs:136-146 | the four bounds hold over all runs if and only if the capacity is at least 1 |
| `ArcHistory.InsertDisjointIff` | src-tauri/crates/oxidebt-cache/src/piece_cache.rs:219-238 | the four lists stay disjoint over `insert` if and only if the key is neither in T2 nor the T1 entry evicted to make room for itself |
| `ArcHistory.GetAccountsIff` | src-tauri/crates/oxidebt-cache/src/piece_cache.rs:174-181 | the memory counter stays the summed sizes over a promotion if and only if T2 holds no non-empty copy of the promoted key |
| `ArcHistory.InsertAgainOverlaps` | src-tauri/crates/oxidebt-cache/src/piece_cache.rs:219-238 | a run in which insert, get, insert of one key leaves it in both lists, and the next get leaves the memory counter too high |
| `ArcHistory.FreshRunKeepsHistory` | src-tauri/crates/oxidebt-cache/src/piece_cache.rs:148-342 | when only uncached keys are inserted: disjoint lists, exact memory counter, and both LRU lists in order of last use holding what was last inserted |
| `ArcHistory.RunCovers` | src-tauri/crates/oxidebt-cache/src/piece_cache.rs:148-342 | over every run, overlapping lists included, the memory counter is at least what both lists hold, so no subtraction underflows |
| `ArcHistory.GetReturnsLastInserted` | src-tauri/crates/oxidebt-cache/src/piece_cache.rs:148-172 | a hit returns the bytes of the last insertion of its key |
| `ArcHistory.InsertEvictsLeastRecent` | src-tauri/crates/oxidebt-cache/src/piece_cache.rs:183-266 | whatever an insertion evicts, by `replace` in its adapted state or from a full T1 directly, was used before every key that stays in its list |
| `ArcEviction.ReplaceOnMissOrB1` | src-tauri/crates/oxidebt-cache/src/piece_cache.rs:248-266 | with both lists non-empty the victim is the oldest of T1 if T1 is longer than p and of T2 otherwise, with one empty it is the oldest of the other, and it becomes a ghost of its own list |
| `ArcEviction.ReplaceOnB2` | src-tauri/crates/oxidebt-cache/src/piece_cache.rs:248-266 | the same after a hit in B2, where T1 gives the victim at length p exactly |
| `ArcEviction.InsertOnB1Hit` | src-tauri/crates/oxidebt-cache/src/piece_cache.rs:187-201 | all four lists and the new p after the insertion of a piece remembered in B1 |
| `ArcEviction.InsertOnB2Hit` | src-tauri/crates/oxidebt-cache/src/piece_cache.rs:203-217 | all four lists and the new p after the insertion of a piece remembered in B2 |
| `ArcEviction.InsertOnMiss` | src-tauri/crates/oxidebt-cache/src/piece_cache.rs:219-246 | all four lists after the insertion of a piece neither cached nor remembered, by how full they were |
| `ArcEviction.NothingEvictedIff` | src-tauri/crates/oxidebt-cache/src/piece_cache.rs:183-246 | inserting an uncached key evicts nothing if and only if nothing is cached, or the key is not remembered and the four lists together are shorter than the capacity |
| `ArcEviction.RememberedKeyEvicts` | src-tauri/crates/oxidebt-cache/src/piece_cache.rs:187-201 | a run after which inserting a remembered key evicts the only cached piece of a cache of three |
| `ArcAdaptation.GhostHitAdapts` | src-tauri/crates/oxidebt-cache/src/piece_cache.rs:187-217 | a hit in B1 raises p, a hit in B2 lowers it, strictly until the end of [0, capacity]; any other insertion leaves p alone |
| `ArcAdaptation.HitPromotes` | src-tauri/crates/oxidebt-cache/src/piece_cache.rs:148-181 | a hit makes its piece the newest of T2, takes it out of T1, and changes no other lookup |
| `ArcAdaptation.RemoveForgets` | src-tauri/crates/oxidebt-cache/src/piece_cache.rs:294-308 | a removal takes the copy a hit would return, frees its bytes and changes no other lookup |
| `ArcAdaptation.ClearForgets` | src-tauri/crates/oxidebt-cache/src/piece_cache.rs:331-342 | clearing empties the four lists, p and the counter, and keeps the capacity |
| `ArcAdaptation.InsertedIsNewest` | src-tauri/crates/oxidebt-cache/src/piece_cache.rs:183-246 | an uncached piece becomes the newest of T2 if a ghost remembers its key and of T1 otherwise, and is found afterwards |
| `ArcAdaptation.T1IsUnread` | src-tauri/crates/oxidebt-cache/src/piece_cache.rs:148-246 | over runs that insert uncached keys, T1 holds only pieces not read since their insertion |
| `PieceCache.LruList.Insert` | src-tauri/crates/oxidebt-cache/src/piece_cache.rs:50-59 | the list after an insertion, with the new and the replaced size |
| `PieceCache.LruList.Remove` | src-tauri/crates/oxidebt-cache/src/piece_cache.rs:61-69 | the list without the key, and the entry that was removed |
| `PieceCache.LruList.PopFront` | src-tauri/crates/oxidebt-cache/src/piece_cache.rs:71-79 | takes the least recently used entry of a valid list, skipping keys without data |
| `PieceCache.LruList.MoveToBack` | src-tauri/crates/oxidebt-cache/src/piece_cache.rs:81-86 | makes the key the most recently used |
| `PieceCache.GhostList.Insert` | src-tauri/crates/oxidebt-cache/src/piece_cache.rs:110-114 | appends a key unless present, keeping set and queue in step |
| `PieceCache.GhostList.Remove` | src-tauri/crates/oxidebt-cache/src/piece_cache.rs:116-123 | drops a key, keeping set and queue in step |
| `PieceCache.GhostList.PopFront` | src-tauri/crates/oxidebt-cache/src/piece_cache.rs:125-132 | takes the oldest key |
| `PieceCache.PieceCache.Get` | src-tauri/crates/oxidebt-cache/src/piece_cache.rs:148-172 | state and answer of `get` are those of the policy |
| `PieceCache.PieceCache.PromoteT1ToT2` | src-tauri/crates/oxidebt-cache/src/piece_cache.rs:174-181 | a promotion is the policy's; a key that is not in T1 changes nothing |
| `PieceCache.PieceCache.Insert` | src-tauri/crates/oxidebt-cache/src/piece_cache.rs:183-246 | `insert` with its branches and in-place updates refines the policy step |
| `PieceCache.PieceCache.EvictForMiss` | src-tauri/crates/oxidebt-cache/src/piece_cache.rs:219-236 | the evictions of a complete miss are the policy's |
| `PieceCache.PieceCache.Replace` | src-tauri/crates/oxidebt-cache/src/piece_cache.rs:248-266 | `replace` refines the policy step |
| `PieceCache.PieceCache.AdaptTarget` | src-tauri/crates/oxidebt-cache/src/piece_cache.rs:288-292 | the clamped update of p is the policy's |
| `PieceCache.PieceCache.Remove` | src-tauri/crates/oxidebt-cache/src/piece_cache.rs:294-308 | state and answer of `remove` are those of the policy |
| `PieceCache.PieceCache.Clear` | src-tauri/crates/oxidebt-cache/src/piece_cache.rs:331-342 | `clear` gives an empty cache of the same capacity |
| `BlockStream.AddBlockStreams` | src-tauri/crates/oxidebt-cache/src/block_cache.rs:133-174 | one arrival keeps the stream invariant: held blocks recorded, hash at the end of the contiguous prefix, other pieces untouched |
| `BlockStream.AddBlockFrames` | src-tauri/crates/oxidebt-cache/src/block_cache.rs:133-163 | `add_block` touches no other piece |
| `BlockStream.StreamAbsorbsPrefix` | src-tauri/crates/oxidebt-cache/src/block_cache.rs:133-174 | after any interleaved sequence of aligned exact-length blocks of any pieces, repeats carrying the same bytes, each piece holds exactly its own blocks and its hash has absorbed their contiguous prefix |
| `BlockStream.StreamOrderIndependent` | src-tauri/crates/oxidebt-cache/src/block_cache.rs:133-174 | two sequences of the same blocks of any pieces in any order lead to the same pieces and hash states |
| `BlockStream.CompleteIffPrefixFull` | src-tauri/crates/oxidebt-cache/src/block_cache.rs:60-63 | the block count says complete if and only if the contiguous prefix reaches the piece length, if and only if every offset is present |
| `BlockStream.VerifyIff` | src-tauri/crates/oxidebt-cache/src/block_cache.rs:176-192 | after any such sequence, other pieces interleaved, `finalize_and_verify` accepts if and only if the piece is complete and the digest of the assembled bytes is the expected one |
| `BlockStream.StreamedVerifies` | src-tauri/crates/oxidebt-cache/src/block_cache.rs:176-192 | the same for any piece in the stream invariant, with the accepted piece of full length |
| `BlockStream.BlocksAre` | src-tauri/crates/oxidebt-cache/src/block_cache.rs:60-63 | a piece has one block for each 16384 bytes begun, and aligned blocks are of that size but for the last |
| `BlockStream.AddBlockAccountsIff` | src-tauri/crates/oxidebt-cache/src/block_cache.rs:133-163 | the memory counter stays exact over `add_block` if and only if no held block is replaced by one of another length |
| `BlockStream.OthersAccounted` | src-tauri/crates/oxidebt-cache/src/block_cache.rs:176-217 | `finalize_and_verify` and `remove_piece` keep the counter exact |
| `BlockStream.ReplacementDrifts` | src-tauri/crates/oxidebt-cache/src/block_cache.rs:146-157 | two writes to an empty block cache, the second shorter, after which the counter is wrong |
| `HashAdvance.StopsIffNeverReturns` | src-tauri/crates/oxidebt-cache/src/block_cache.rs:165-174 | over all blocks, empty and wrapping ones included, the hash loop stops if and only if it never comes back to a block |
| `HashAdvance.StopsIffNoneEmpty` | src-tauri/crates/oxidebt-cache/src/block_cache.rs:165-174 | where no block end wraps, the hash loop stops if and only if it comes to no empty block |
| `HashAdvance.EmptyBlockLoops` | src-tauri/crates/oxidebt-cache/src/block_cache.rs:133-174 | with an empty block at the hashed position, among any others, the loop does not stop |
| `HashAdvance.ValidBlocksStop` | src-tauri/crates/oxidebt-cache/src/block_cache.rs:165-174 | on non-empty blocks within the 32-bit range the loop stops where the contiguous bytes end |
| `BlockCache.AssembleBlocks` | src-tauri/crates/oxidebt-cache/src/block_cache.rs:69-75 | concatenates the blocks in offset order |
| `BlockCache.TotalBytes` | src-tauri/crates/oxidebt-cache/src/block_cache.rs:65-67 | the number of bytes held for a piece |
| `BlockCache.BlockCache.AddBlock` | src-tauri/crates/oxidebt-cache/src/block_cache.rs:133-163 | `add_block` refines the stream step and reports completeness by block count |
| `BlockCache.BlockCache.TryAdvanceHash` | src-tauri/crates/oxidebt-cache/src/block_cache.rs:165-174 | the loop stops exactly where the contiguous prefix ends |
| `BlockCache.BlockCache.FinalizeAndVerify` | src-tauri/crates/oxidebt-cache/src/block_cache.rs:176-192 | state and verdict are those of the stream model |
| `BlockCache.BlockCache.GetAssembledPiece` | src-tauri/crates/oxidebt-cache/src/block_cache.rs:202-205 | the assembled bytes of a held piece |
| `BlockCache.BlockCache.RemovePiece` | src-tauri/crates/oxidebt-cache/src/block_cache.rs:207-217 | drops blocks and hash state, returns the assembled bytes |
| `BlockCache.BlockCache.Clear` | src-tauri/crates/oxidebt-cache/src/block_cache.rs:248-252 | forgets everything |
| `StorageLayout.BuiltFilesTile` | src-tauri/src/engine/mod.rs:1979-1990 | the file offsets tile the torrent without gap or overlap, empty files included |
| `StorageLayout.PieceEnd` | src-tauri/src/engine/mod.rs:1993-2004 | every piece is non-empty and ends at min((i+1) * piece length, total) |
| `StorageLayout.BuiltPiecesTile` | src-tauri/src/engine/mod.rs:1993-2019 | the pieces tile [0, total length) exactly |
| `StorageLayout.WriteBlockThenRead` | src-tauri/crates/oxidebt-disk/src/manager.rs:363-433 | a block just written reads back, and every block disjoint from it, in any piece, reads as before |
| `StorageLayout.WritePieceThenRead` | src-tauri/crates/oxidebt-disk/src/manager.rs:341-410 | a piece just written reads back and every other piece is unchanged |
| `StorageLayout.BlockOfPiece` | src-tauri/crates/oxidebt-disk/src/manager.rs:341-383 | a block read is the slice of the piece read at its offset |
| `StorageBytes.BlockByteIsFileByte` | src-tauri/crates/oxidebt-disk/src/manager.rs:220-383 | over the layout of any file lengths, each byte of a block read is the byte of the file it lies in, counted through the files before it |
| `StorageBytes.ReadBlockIs` | src-tauri/crates/oxidebt-disk/src/manager.rs:256-383 | a block is read, from its own place, if and only if it lies within an existing piece; which error it is otherwise |
| `StorageBytes.PieceAccessIs` | src-tauri/crates/oxidebt-disk/src/manager.rs:341-410 | when a piece can be read and written |
| `StorageBytes.WriteBlockIs` | src-tauri/crates/oxidebt-disk/src/manager.rs:412-433 | a block write changes exactly the bytes of its own place, as many as the 32-bit length says, or gives the error |
| `StorageBytes.WritePieceIs` | src-tauri/crates/oxidebt-disk/src/manager.rs:385-410 | a piece write changes exactly the bytes of the piece |
| `TorrentStorage.CoversLength` | src-tauri/crates/oxidebt-disk/src/manager.rs:220-303 | spans that cover a range have lengths that sum to the range |
| `TorrentStorage.FlatWrite` | src-tauri/crates/oxidebt-disk/src/manager.rs:385-433 | writing into one file is writing into the flat array at the file's offset |
| `TorrentStorage.TorrentStorage.constructor` | src-tauri/src/engine/mod.rs:1969-2029 | the layout `build_storage` computes is valid for any file lengths |
| `TorrentStorage.TorrentStorage.PieceFileSpans` | src-tauri/crates/oxidebt-disk/src/manager.rs:220-254 | non-empty spans in file order covering exactly the piece, or the index error |
| `TorrentStorage.TorrentStorage.BlockFileSpans` | src-tauri/crates/oxidebt-disk/src/manager.rs:256-303 | non-empty spans in file order covering exactly the block, or the index or offset error |
| `TorrentStorage.TorrentStorage.ReadPiece` | src-tauri/crates/oxidebt-disk/src/manager.rs:341-361 | reading over the files equals reading the flat array, errors included |
| `TorrentStorage.TorrentStorage.ReadBlock` | src-tauri/crates/oxidebt-disk/src/manager.rs:363-383 | reading over the files equals reading the flat array, errors included |
| `TorrentStorage.TorrentStorage.WritePiece` | src-tauri/crates/oxidebt-disk/src/manager.rs:385-410 | writing over the files is one write to the flat array, and nothing on an error |
| `TorrentStorage.TorrentStorage.WriteBlock` | src-tauri/crates/oxidebt-disk/src/manager.rs:412-433 | writing over the files is one write to the flat array, and nothing on an error |
| `DiskManager.WritePieceOfThenRead` | src-tauri/crates/oxidebt-disk/src/manager.rs:581-620 | a piece written through the manager reads back and no piece of any torrent changes otherwise |
| `DiskManager.DiskManager.Register` | src-tauri/crates/oxidebt-disk/src/manager.rs:560-562 | adds or replaces one torrent's storage |
| `DiskManager.DiskManager.ReadPiece` | src-tauri/crates/oxidebt-disk/src/manager.rs:581-589 | dispatches to the torrent's storage or reports it missing |
| `DiskManager.DiskManager.ReadBlock` | src-tauri/crates/oxidebt-disk/src/manager.rs:591-605 | dispatches to the torrent's storage or reports it missing |
| `DiskManager.DiskManager.WritePiece` | src-tauri/crates/oxidebt-disk/src/manager.rs:607-620 | changes only the addressed torrent |
| `DiskManager.DiskManager.WriteBlock` | src-tauri/crates/oxidebt-disk/src/manager.rs:622-636 | changes only the addressed torrent, by one block |
| `DiskManager.DiskManager.VerifyPiece` | src-tauri/crates/oxidebt-disk/src/manager.rs:638-646 | reads the piece back and compares its digest, or reports the error of the read |
| `DiskManager.WriteBlockOfThenRead` | src-tauri/crates/oxidebt-disk/src/manager.rs:622-636 | a block written through the manager reads back, and no block disjoint from it, of any piece of any torrent, changes |
| `DiskAssembly.WrittenBlocksStay` | src-tauri/crates/oxidebt-disk/src/manager.rs:412-433 | over any interleaved sequence of aligned block writes, every block written reads back at the end |
| `DiskAssembly.BlocksMakePiece` | src-tauri/crates/oxidebt-disk/src/manager.rs:341-433 | once all blocks of a piece are written, in any order, with repeats and other pieces between, the piece reads as their concatenation |
| `DiskAssembly.VerifiersAgree` | src-tauri/crates/oxidebt-disk/src/manager.rs:436-462 | verifying a piece read back from the disk accepts it exactly when the block cache's streamed hash of the same deliveries does |
| `CachedDisk.CommitCoherentIff` | src-tauri/crates/oxidebt-disk/src/caching_manager.rs:87-97 | in every coherent state, overlapping lists included, storing a verified piece keeps every cached copy equal to the disk if and only if the torrent is registered with a piece of this length and the list that does not take the piece (T2 after a complete miss, T1 after a ghost hit) has no other copy of it, or evicts that copy |
| `CacheFailures.FailedWriteIsCached` | src-tauri/crates/oxidebt-disk/src/caching_manager.rs:87-97 | one write to an unregistered torrent, after which reads return bytes no disk has |
| `CacheFailures.StaleCopyIsRead` | src-tauri/crates/oxidebt-disk/src/caching_manager.rs:87-97 | a run of two reads, a write and another read, after which reads of the written piece return its old bytes |
| `CacheFailures.GhostedCopyIsRead` | src-tauri/crates/oxidebt-disk/src/caching_manager.rs:87-97 | a run that writes a cached piece with its own bytes and then with others: all is coherent before the last write, T2 has no copy, and reads then return the old bytes |
| `CachedRuns.StepKeepsInvIff` | src-tauri/crates/oxidebt-disk/src/caching_manager.rs:62-178 | for every step: the caches stay coherent if and only if a piece it commits is taken by the disk and leaves no stale copy |
| `CachedRuns.RunCoherentIff` | src-tauri/crates/oxidebt-disk/src/caching_manager.rs:62-178 | over every run, the caches agree with the disk at every moment if and only if every step is disciplined in this sense |
| `CachedRuns.RunKeepsInv` | src-tauri/crates/oxidebt-disk/src/caching_manager.rs:62-178 | coherence and list validity hold after every disciplined run |
| `CachedRuns.RunKeepsTidy` | src-tauri/crates/oxidebt-disk/src/caching_manager.rs:62-178 | the four lists stay disjoint over every run that commits no piece while it is cached |
| `CachedRuns.ReadsAgreeWithDisk` | src-tauri/crates/oxidebt-disk/src/caching_manager.rs:106-151 | after every disciplined run, reads of a piece with no buffered block return exactly what the storage alone would, errors included |
| `CachedRuns.WrittenAlikeIsDisciplined` | src-tauri/crates/oxidebt-disk/src/caching_manager.rs:62-151 | runs in which the disk takes every verified piece, and a piece that may be cached is written again only with the bytes the disk has, are disciplined |
| `CachedRuns.RepeatIsDisciplined` | src-tauri/crates/oxidebt-disk/src/caching_manager.rs:87-97 | writing a cached piece again with the disk's bytes leaves no stale copy, wherever and however often it is cached |
| `CachedRuns.StepCaches` | src-tauri/crates/oxidebt-disk/src/caching_manager.rs:62-151 | a step caches a piece only by reading it whole or by storing it |
| `CachedRuns.ReadPieceCaches` | src-tauri/crates/oxidebt-disk/src/caching_manager.rs:137-151 | a piece read from the disk is cached with its bytes; a cached one is returned from the cache |
| `CachedRuns.OtherStepsCacheNothing` | src-tauri/crates/oxidebt-disk/src/caching_manager.rs:106-178 | a block read caches nothing; clearing empties both caches and leaves the disk |
| `CachedRuns.RunBuffers` | src-tauri/crates/oxidebt-disk/src/caching_manager.rs:62-178 | over every run of orderly writes, reads and clears of any pieces, the block cache holds exactly the blocks written of each incomplete piece, hashed up to the first gap, and its memory counter is exact |
| `CachedRuns.RunKeepsLayout` | src-tauri/crates/oxidebt-disk/src/caching_manager.rs:62-178 | no run changes which torrents are registered or how they are laid out |
| `CachedRuns.LastBlockCommits` | src-tauri/crates/oxidebt-disk/src/caching_manager.rs:62-104 | the write of a piece's last block, which may be its only one, reports whether the digest matches; a valid piece is then on disk and, unless a stale copy survives, cached; an invalid one changes neither |
| `CachedRuns.LastWriteVerifies` | src-tauri/crates/oxidebt-disk/src/caching_manager.rs:62-104 | end to end: after every disciplined and orderly run of interleaved writes, the last missing block commits its piece if and only if the digest of the assembled bytes is the expected one |
| `BufferedReads.JoinedStep` | src-tauri/crates/oxidebt-cache/src/block_cache.rs:69-75 | bytes joined without their gaps are in place up to the first gap and come from further on after it |
| `BufferedReads.PrefixIsHashed` | src-tauri/crates/oxidebt-cache/src/block_cache.rs:165-174 | the first gap is where the hashed bytes end |
| `BufferedReads.BufferedBlockReadIff` | src-tauri/crates/oxidebt-disk/src/caching_manager.rs:121-127 | after every run, a block read within the buffered bytes of an uncached piece returns the bytes of its own range, for every content, if and only if the range ends before the first missing block |
| `BufferedReads.PieceReadAgreesIff` | src-tauri/crates/oxidebt-disk/src/caching_manager.rs:144-146 | a piece read agrees with the storage if and only if no block is buffered or the piece is cached |
| `BufferedReads.RunPieceReadAgreesIff` | src-tauri/crates/oxidebt-disk/src/caching_manager.rs:137-151 | the same after every disciplined and orderly run |
| `BufferedReads.BufferedReadDisagrees` | src-tauri/crates/oxidebt-disk/src/caching_manager.rs:121-127 | one write, of the last block of a two-block piece, after which its byte is returned as the first byte of the piece |
| `CachingManager.CachingDiskManager.WriteBlock` | src-tauri/crates/oxidebt-disk/src/caching_manager.rs:62-104 | state and result of `write_block` over the three components |
| `CachingManager.CachingDiskManager.Finish` | src-tauri/crates/oxidebt-disk/src/caching_manager.rs:82-100 | the branch of a complete piece |
| `CachingManager.CachingDiskManager.ReadBlock` | src-tauri/crates/oxidebt-disk/src/caching_manager.rs:106-135 | state and result of `read_block`, piece cache first, then block cache, then disk |
| `CachingManager.CachingDiskManager.ReadPiece` | src-tauri/crates/oxidebt-disk/src/caching_manager.rs:137-151 | state and result of `read_piece`, caching what it reads |
| `CachingManager.CachingDiskManager.ClearCaches` | src-tauri/crates/oxidebt-disk/src/caching_manager.rs:175-178 | empties both caches and leaves the disk |
| `Text.ToSignedParses` | src-tauri/crates/oxidebt-bencode/src/encode.rs:33-38 | every printed i64 parses back to itself |
| `Text.ParseDigitsPrints` | src-tauri/crates/oxidebt-bencode/src/decode.rs:126-131 | digits without a leading zero are the decimal form of their value |
| `BencodeTheorems.ParsePrinted` | src-tauri/crates/oxidebt-bencode/src/decode.rs:81-99 | a printed value parses back wherever it stands, ending exactly after it |
| `BencodeTheorems.DecodeEncode` | src-tauri/crates/oxidebt-bencode/src/decode.rs:12-21 | decode(encode(v)) == v with no trailing data, for i64 integers, strings up to 1,000,000,000 bytes and depth up to 100 |
| `BencodeCanonical.NumberCanonical` | src-tauri/crates/oxidebt-bencode/src/decode.rs:101-136 | an accepted integer token is the canonical form of its value, or begins with a plus sign and is longer |
| `BencodeCanonical.ParsedCanonical` | src-tauri/crates/oxidebt-bencode/src/decode.rs:76-233 | whatever the parser accepts fits the encoder and prints to the bytes consumed, or to fewer when a plus sign occurs |
| `BencodeCanonical.EncodeDecodeIff` | src-tauri/crates/oxidebt-bencode/src/decode.rs:12-21 | encode(decode(b)) == b if and only if no integer token of b begins with a plus sign |
| `BencodeCanonical.PlusIsDropped` | src-tauri/crates/oxidebt-bencode/src/decode.rs:126-136 | `i+1e` decodes to 1, which encodes to `i1e` |
| `WireText.PrintedAs` | src-tauri/crates/oxidebt-bencode/src/encode.rs:11-70 | the grammar letter by letter: every value is printed as `i`, `l`, `d`, `e`, colons, numerals and bytes in this order |
| `WireText.NumeralIs` | src-tauri/crates/oxidebt-bencode/src/encode.rs:33-38 | numerals are decimal, without a zero in front, with a minus sign if negative |
| `WireText.Letters` | src-tauri/crates/oxidebt-bencode/src/decode.rs:76-99 | the letters and the key `info` the parser compares with are those of the grammar |
| `WireText.ZerosAreRefused` | src-tauri/crates/oxidebt-bencode/src/decode.rs:101-160 | which tokens and lengths are refused for their zeros, and how |
| `WireText.LengthsAreLimited` | src-tauri/crates/oxidebt-bencode/src/decode.rs:138-171 | string lengths up to 1,000,000,000 are accepted, larger ones refused as too large |
| `BencodeFraming.CutDocumentIff` | src-tauri/crates/oxidebt-bencode/src/decode.rs:12-21 | every proper prefix of a document is an unexpected end of input if and only if no container of it is nested a hundred deep |
| `BencodeFraming.DeepDocumentIsCut` | src-tauri/crates/oxidebt-bencode/src/decode.rs:81-99 | a document, lists nested to the limit, with a prefix that is reported as too deep |
| `BencodeFraming.NoPrefixDecodes` | src-tauri/crates/oxidebt-bencode/src/decode.rs:12-21 | no proper prefix of a document is a document |
| `BencodeFraming.LongerIsTrailing` | src-tauri/crates/oxidebt-bencode/src/decode.rs:12-21 | anything behind a document is trailing data |
| `BencodeFraming.TooDeep` | src-tauri/crates/oxidebt-bencode/src/decode.rs:81-99 | a document that opens a hundred and two lists is too deep |
| `BencodeInfo.Relocate` | src-tauri/crates/oxidebt-bencode/src/decode.rs:81-99 | a parse depends only on the bytes it consumes, and succeeds at lesser depths |
| `BencodeInfo.InfoRawStandsForInfo` | src-tauri/crates/oxidebt-bencode/src/decode.rs:23-32 | the raw slice exists if and only if the top-level dictionary has an `info` key; it decodes on its own to that value, and is its encoding if and only if no integer token inside the slice begins with a plus sign |
| `BencodeDecoder.Cursor.Next` | src-tauri/crates/oxidebt-bencode/src/decode.rs:48-52 | takes one byte or reports the end |
| `BencodeDecoder.Cursor.ReadBytes` | src-tauri/crates/oxidebt-bencode/src/decode.rs:66-73 | takes the next bytes or reports the end |
| `BencodeDecoder.DecodeInteger` | src-tauri/crates/oxidebt-bencode/src/decode.rs:101-136 | value, error and final cursor are the grammar's |
| `BencodeDecoder.DecodeBytes` | src-tauri/crates/oxidebt-bencode/src/decode.rs:138-171 | value, error and final cursor are the grammar's |
| `BencodeDecoder.DecodeValue` | src-tauri/crates/oxidebt-bencode/src/decode.rs:76-79 | value, error and final cursor are the grammar's |
| `BencodeDecoder.DecodeValueTrackingInfo` | src-tauri/crates/oxidebt-bencode/src/decode.rs:81-99 | as the grammar, with the raw slice of the value's own `info` key |
| `BencodeDecoder.DecodeList` | src-tauri/crates/oxidebt-bencode/src/decode.rs:173-188 | the loop collects exactly the grammar's items |
| `BencodeDecoder.DecodeEntry` | src-tauri/crates/oxidebt-bencode/src/decode.rs:196-226 | one key, the check that keys increase, its value, and the bytes of the value |
| `BencodeDecoder.DecodeDictTrackingInfo` | src-tauri/crates/oxidebt-bencode/src/decode.rs:190-233 | the loop collects exactly the grammar's entries and the raw `info` slice |
| `BencodeDecoder.Decode` | src-tauri/crates/oxidebt-bencode/src/decode.rs:12-21 | the whole input is one value, or the grammar's error |
| `BencodeDecoder.DecodeWithInfoRaw` | src-tauri/crates/oxidebt-bencode/src/decode.rs:23-32 | as `decode`, with the raw slice |
| `BencodeEncoder.EncodeBytes` | src-tauri/crates/oxidebt-bencode/src/encode.rs:26-31 | appends the printed string |
| `BencodeEncoder.EncodeInteger` | src-tauri/crates/oxidebt-bencode/src/encode.rs:33-38 | appends the printed integer |
| `BencodeEncoder.EncodeList` | src-tauri/crates/oxidebt-bencode/src/encode.rs:40-47 | appends the printed list, or fails if a dictionary inside is unsorted |
| `BencodeEncoder.EncodeDict` | src-tauri/crates/oxidebt-bencode/src/encode.rs:49-70 | fails if and only if some dictionary is unsorted, else appends the printed form |
| `BencodeEncoder.EncodeValue` | src-tauri/crates/oxidebt-bencode/src/encode.rs:11-24 | fails if and only if some dictionary is unsorted, else appends the printed form |
| `BencodeEncoder.Encode` | src-tauri/crates/oxidebt-bencode/src/encode.rs:5-9 | the printed value, or UnsortedKeys if and only if some dictionary is unsorted |
| `BencodeEncoder.FitsIsSorted` | src-tauri/crates/oxidebt-bencode/src/encode.rs:49-70 | no value the decoder can produce is unsorted |
| `BTree.FindInsert` | src-tauri/crates/oxidebt-dht/src/message.rs:334-484 | lookup after an insertion into the ordered map that the encoder fills |
| `BTree.InsertSorted` | src-tauri/crates/oxidebt-dht/src/message.rs:334-484 | insertion keeps the keys in the order the encoder demands |
| `BTree.InsertFits` | src-tauri/crates/oxidebt-dht/src/message.rs:334-484 | insertion keeps a dictionary one that the decoder accepts |
| `DhtRoundTrip.CompactRoundTrip` | src-tauri/crates/oxidebt-dht/src/node.rs:131-154 | an IPv4 contact survives its 26-byte form |
| `DhtRoundTrip.NodesRoundTrip` | src-tauri/crates/oxidebt-dht/src/message.rs:234-307 | the compact node list reads back as the IPv4 contacts in order |
| `DhtRoundTrip.PeersRoundTrip` | src-tauri/crates/oxidebt-dht/src/message.rs:234-307 | the compact peer list reads back as the IPv4 peers in order |
| `DhtRoundTrip.MessageFits` | src-tauri/crates/oxidebt-dht/src/message.rs:334-484 | every message the encoder builds is a value the decoder accepts |
| `DhtMessage.MessageSorted` | src-tauri/crates/oxidebt-dht/src/message.rs:334-484 | no message makes the encoder fail |
| `DhtMessage.Encode` | src-tauri/crates/oxidebt-dht/src/message.rs:334-484 | filling the nested maps and encoding never fails and gives the message's canonical bytes |
| `DhtRoundTrip.ParseEncode` | src-tauri/crates/oxidebt-dht/src/message.rs:110-485 | what the receiver reads of every message: the query its name and arguments stand for, a response without its IPv6 contacts, an announce reply as a ping reply, an error for neither |
| `DhtRoundTrip.RoundTripIff` | src-tauri/crates/oxidebt-dht/src/message.rs:110-485 | parse(encode(m)) == m if and only if m is a query under its own name, or a response, not to an announce, with only IPv4 contacts and from its sender |
| `DhtRoundTrip.AnnounceReplyReadsAsPing` | src-tauri/crates/oxidebt-dht/src/message.rs:234-307 | every announce reply is read as a ping reply |
| `DhtAccepted.AcceptedRoundTrips` | src-tauri/crates/oxidebt-dht/src/message.rs:110-485 | every message the parser accepts, from any bytes, encodes to bytes that parse to the same message |
| `DhtAccepted.AcceptedIff` | src-tauri/crates/oxidebt-dht/src/message.rs:110-485 | the messages that come back from the wire are exactly those that some bytes are parsed as |
| `DhtAccepted.Ipv6IsLost` | src-tauri/crates/oxidebt-dht/src/message.rs:334-484 | every IPv6 contact and every IPv6 peer is missing from what the receiver reads |
| `DhtAccepted.AnnouncePortWraps` | src-tauri/crates/oxidebt-dht/src/message.rs:139-232 | an announced port is taken modulo 65536 and is implied by a 1 only |
| `DhtAccepted.ErrorDefaults` | src-tauri/crates/oxidebt-dht/src/message.rs:309-332 | an error list without a code or text stands for code 0 and `unknown error` |
| `DhtWire.PingOnWire` | src-tauri/crates/oxidebt-dht/src/message.rs:334-484 | the literal bytes of a ping query, which parse back to it |
| `DhtWire.FindNodeOnWire` | src-tauri/crates/oxidebt-dht/src/message.rs:334-484 | the literal bytes of a find_node query, which parse back to it |
| `DhtWire.GetPeersOnWire` | src-tauri/crates/oxidebt-dht/src/message.rs:334-484 | the literal bytes of a get_peers query, which parse back to it |
| `DhtWire.AnnounceOnWire` | src-tauri/crates/oxidebt-dht/src/message.rs:334-484 | the literal bytes of an announce_peer query, with the implied port or without, which parse back to it |
| `DhtWire.PingReplyOnWire` | src-tauri/crates/oxidebt-dht/src/message.rs:334-484 | the literal bytes of a ping reply, which parse back to it |
| `DhtWire.FindNodeReplyOnWire` | src-tauri/crates/oxidebt-dht/src/message.rs:334-484 | the literal bytes of a find_node reply with any contacts, which parse back to it |
| `DhtWire.GetPeersReplyOnWire` | src-tauri/crates/oxidebt-dht/src/message.rs:334-484 | the literal bytes of a get_peers reply with any peers and contacts, which parse back to it |
| `DhtWire.ErrorOnWire` | src-tauri/crates/oxidebt-dht/src/message.rs:334-484 | the literal bytes of an error, which parse back to it |
| `NodeId.ComputeBucketIndex` | src-tauri/crates/oxidebt-dht/src/node.rs:69-79 | the loop over bytes computes the bucket index |
| `NodeId.BucketIndexIsCommonPrefix` | src-tauri/crates/oxidebt-dht/src/node.rs:69-79 | the bucket index of two different ids is the length of their common bit prefix |
| `NodeId.HigherBucketIsCloser` | src-tauri/crates/oxidebt-dht/src/node.rs:61-79 | any id in a lower-numbered bucket is strictly farther in XOR distance than any id in a higher-numbered one |
| `NodeId.DistanceInjective` | src-tauri/crates/oxidebt-dht/src/node.rs:61-67 | different ids are at different distances from every target |
| `NodeId.CloserTrichotomy` | src-tauri/crates/oxidebt-dht/src/server.rs:229-233 | distances are totally ordered by the comparison that sorts candidates |
| `NodeId.GenerateIdForBucket` | src-tauri/crates/oxidebt-dht/src/server.rs:522-545 | for every bucket below 160 and all random bytes, the id differs from ours and falls into that bucket |
| `Routing.AddKeepsBucket` | src-tauri/crates/oxidebt-dht/src/routing.rs:24-42 | `add` keeps the bucket invariant |
| `Routing.RemoveKeepsBucket` | src-tauri/crates/oxidebt-dht/src/routing.rs:44-56 | `remove`, with its promotion of a replacement, keeps the bucket invariant |
| `Routing.AddKeepsIdsDistinctIff` | src-tauri/crates/oxidebt-dht/src/routing.rs:24-42 | `add` keeps the ids of a bucket distinct if and only if it does not store a replacement that is already stored |
| `Routing.RunKeepsTable` | src-tauri/crates/oxidebt-dht/src/routing.rs:97-133 | over every run: each live or cached node is in the bucket of its index and is not us, both queues hold at most 8, replacements exist only beside a full bucket |
| `Routing.FindClosestIsNearest` | src-tauri/crates/oxidebt-dht/src/routing.rs:135-149 | `find_closest` returns min(count, good) good nodes, nearest first, and omits none that is closer |
| `Routing.GoodNodesAre` | src-tauri/crates/oxidebt-dht/src/routing.rs:135-149 | the candidates are exactly the live nodes that are good |
| `RoutingOutcomes.AddRefreshes` | src-tauri/crates/oxidebt-dht/src/routing.rs:24-30 | adding a known node moves it to the back, just seen and without failures |
| `RoutingOutcomes.AddNewcomer` | src-tauri/crates/oxidebt-dht/src/routing.rs:32-42 | a new node joins fewer than eight live nodes, else fewer than eight spares, else is dropped |
| `RoutingOutcomes.RemovePromotes` | src-tauri/crates/oxidebt-dht/src/routing.rs:44-56 | a removed node gives its place to the first spare |
| `RoutingOutcomes.FailCounts` | src-tauri/crates/oxidebt-dht/src/routing.rs:113-124 | the third failure in a row, or a failure over an hour after it was last seen, drops a node |
| `RoutingOutcomes.SeenRefreshes` | src-tauri/crates/oxidebt-dht/src/routing.rs:126-133 | a node heard from is refreshed in place |
| `RoutingOutcomes.UnknownIsIgnored` | src-tauri/crates/oxidebt-dht/src/routing.rs:44-56 | nothing happens for an id the bucket does not have |
| `RoutingOutcomes.BadIs` | src-tauri/crates/oxidebt-dht/src/node.rs:119-129 | bad is three failures or over an hour unseen, good is no failure and less than fifteen minutes |
| `RoutingOutcomes.StepTouchesOneBucket` | src-tauri/crates/oxidebt-dht/src/routing.rs:97-133 | only the bucket of the id's common prefix changes, and our own id is never added |
| `RoutingOutcomes.NotFartherIs` | src-tauri/crates/oxidebt-dht/src/node.rs:61-67 | the order by distance is decided by the first byte in which two ids differ, XORed with the target |
| `RoutingSurvival.LiveStays` | src-tauri/crates/oxidebt-dht/src/routing.rs:24-133 | a live node stays live over every run that does not remove it or report it failed, however many nodes are added |
| `RoutingSurvival.AddKeepsLive` | src-tauri/crates/oxidebt-dht/src/routing.rs:24-42 | adding never displaces a live node |
| `RoutingSurvival.SpareIsRepeated` | src-tauri/crates/oxidebt-dht/src/routing.rs:37-39 | ten additions to an empty table after which one node is stored as a replacement twice |
| `RoutingTable.Bucket.Add` | src-tauri/crates/oxidebt-dht/src/routing.rs:24-42 | state and answer of `add` |
| `RoutingTable.Bucket.Remove` | src-tauri/crates/oxidebt-dht/src/routing.rs:44-56 | state and answer of `remove` |
| `RoutingTable.Bucket.MarkFailed` | src-tauri/crates/oxidebt-dht/src/routing.rs:113-124 | the failure count, and removal of a bad node |
| `RoutingTable.Bucket.MarkSeen` | src-tauri/crates/oxidebt-dht/src/routing.rs:126-133 | refreshes the node |
| `RoutingTable.RoutingTable.AddNode` | src-tauri/crates/oxidebt-dht/src/routing.rs:97-105 | the table step, keeping the invariant |
| `RoutingTable.RoutingTable.RemoveNode` | src-tauri/crates/oxidebt-dht/src/routing.rs:107-111 | the table step, keeping the invariant |
| `RoutingTable.RoutingTable.MarkFailed` | src-tauri/crates/oxidebt-dht/src/routing.rs:113-124 | the table step, keeping the invariant |
| `RoutingTable.RoutingTable.MarkSeen` | src-tauri/crates/oxidebt-dht/src/routing.rs:126-133 | the table step, keeping the invariant |
| `RoutingTable.RoutingTable.FindClosest` | src-tauri/crates/oxidebt-dht/src/routing.rs:135-149 | the loop over buckets, sort and truncation compute the specified list |
| `Lookup.SelectNearest` | src-tauri/crates/oxidebt-dht/src/server.rs:235-249 | of the sorted candidates, one passed over unqueried is no closer than any of the full round that was picked |
| `Lookup.LookupBounded` | src-tauri/crates/oxidebt-dht/src/server.rs:217-307 | for every network: no id queried twice, at most 8 queries a round and 120 in all, and every queried node known from the table or named by a reply of the round before |
| `Lookup.TokensPaired` | src-tauri/crates/oxidebt-dht/src/server.rs:369-404 | each token is paired with the address of the node whose reply carried it |
| `LookupProgress.NamedAreServed` | src-tauri/crates/oxidebt-dht/src/server.rs:229-299 | for every network: a node that a reply of a round names and that is not asked by its end is asked in the next round, or eight nodes no farther are, or the lookup ends there with fifty peers or after fifteen rounds |
| `LookupProgress.InitialAreServed` | src-tauri/crates/oxidebt-dht/src/server.rs:217-251 | the same for the nodes the lookup starts from |
| `LookupProgress.EnoughPeersStop` | src-tauri/crates/oxidebt-dht/src/server.rs:223-299 | a round is only begun while the earlier ones brought fewer than fifty peers, and none after the fifteenth |
| `LookupProgress.PeersAre` | src-tauri/crates/oxidebt-dht/src/server.rs:262-275 | the peers found are those of all replies that carry peers, and no others |
| `LookupProgress.TokensAre` | src-tauri/crates/oxidebt-dht/src/server.rs:369-400 | the tokens found are exactly the non-empty ones of replies with peers or nodes, each with the address asked |
| `LookupProgress.TableHearsReplies` | src-tauri/crates/oxidebt-dht/src/server.rs:260-293 | the table ends as it began, told of each query in turn: failures marked, named nodes not yet asked added |
| `LookupProgress.UnqueriedAre` | src-tauri/crates/oxidebt-dht/src/server.rs:268-284 | of the nodes a reply names, exactly those whose ids have not been asked are taken, as often as named |
| `Lookup.RoundKeepsTrace` | src-tauri/crates/oxidebt-dht/src/server.rs:224-299 | one round keeps the trace invariant |
| `Lookup.SelectQueries` | src-tauri/crates/oxidebt-dht/src/server.rs:235-249 | the loop picks the first 8 candidates with fresh ids and marks them queried |
| `Lookup.TakeNodes` | src-tauri/crates/oxidebt-dht/src/server.rs:268-273 | the nodes of a reply that are not queried go to the table and the candidates |
| `Lookup.TakeReplies` | src-tauri/crates/oxidebt-dht/src/server.rs:259-294 | the replies of a round yield its peers, candidates and table updates in order |
| `Lookup.TakeRepliesWithTokens` | src-tauri/crates/oxidebt-dht/src/server.rs:369-413 | the same, with the tokens |
| `Lookup.GetPeers` | src-tauri/crates/oxidebt-dht/src/server.rs:217-307 | terminates, and returns the peers of all replies of the lookup; the table ends as the replies say |
| `Lookup.GetPeersWithTokens` | src-tauri/crates/oxidebt-dht/src/server.rs:323-426 | terminates with the same peers as `get_peers`, and the tokens of all replies |
| `DownloadLimit.StepKeepsInv` | src-tauri/src/engine/mod.rs:1881-1962 | every step, by either admission rule, keeps the strengthened invariant: downloads plus older checks within the limit |
| `DownloadLimit.AheadSlotKeeps` | src-tauri/src/engine/mod.rs:3375-3394 | admission by queue position keeps the invariant |
| `DownloadLimit.FreeSlotKeeps` | src-tauri/src/engine/mod.rs:3348-3357 | admission by active count keeps the invariant |
| `DownloadLimit.RunKeepsDownloadLimit` | src-tauri/src/engine/mod.rs:3232-3477 | with a limit of at least 1, at most that many incomplete torrents download after every run |
| `DownloadLimit.DownloadLimitHolds` | src-tauri/src/engine/mod.rs:3232-3477 | the same from an empty engine, at every moment of every run |
| `DownloadLimit.LimitAloneIsNotInductive` | src-tauri/src/engine/mod.rs:1914-1957 | a state within the limit from which a position-based admission exceeds it: the invariant must be stronger |
| `QueueTransitions.ResumeStartsIff` | src-tauri/src/engine/mod.rs:3261-3305 | a resumed torrent waits if and only if the limit of its kind is on and as many torrents of its kind are active, and starts otherwise |
| `QueueTransitions.AdmissionStartsIff` | src-tauri/src/engine/mod.rs:1914-1957 | a torrent leaving its first check waits if and only if the limit of its kind is on and as many torrents of its kind are ahead, and starts otherwise |
| `QueueTransitions.OnlyChecksAreAdmitted` | src-tauri/src/engine/mod.rs:1881-1962 | only a torrent in its first check is admitted |
| `QueueTransitions.UnverifiedWaits` | src-tauri/src/engine/mod.rs:2401-2479 | starting a torrent that is not verified changes nothing |
| `QueueTransitions.StartNextStartsIff` | src-tauri/src/engine/mod.rs:3423-3477 | a slot is handed on if and only if a limit is on and some queued torrent has room, to an oldest such torrent |
| `QueueTransitions.TickFollowsDemand` | src-tauri/src/engine/mod.rs:2836-2886 | the run loop completes a complete download and moves it between seeding and completed by the demand of its peers |
| `QueueTransitions.OtherMoves` | src-tauri/src/engine/mod.rs:900-915 | pause, move, removal, progress and the event of a last piece, on the torrent they name alone |
| `QueueTransitions.AddChecks` | src-tauri/src/engine/mod.rs:1693-1771 | a new torrent is checked, or paused, with nothing known of its pieces |
| `UploadLimit.StepKeepsUploadLimitIff` | src-tauri/src/engine/mod.rs:900-915 | for every step: an engine within its upload limit stays within it unless every slot is taken and the step makes a torrent an active upload without asking for one (the event of a last piece, a pass of the run loop, a torrent found complete, the end of a move) |
| `UploadLimit.RunKeepsUploadLimitIff` | src-tauri/src/engine/mod.rs:3232-3477 | over every run, the limit holds at every moment if and only if no step takes a slot unasked while all are taken |
| `UploadLimit.UploadLimitHoldsIff` | src-tauri/src/engine/mod.rs:3232-3477 | the same from an empty engine |
| `UploadLimit.CompletionTakesUploadSlot` | src-tauri/src/engine/mod.rs:2836-2850 | the event of the last piece and the run loop give a complete download an upload slot whatever the limits; its download slot is free from the moment it is complete |
| `UploadLimit.UploadLimitIsExceededByCheck` | src-tauri/src/engine/mod.rs:1816-1866 | another such run, in which no download completes |
| `UploadLimit.UploadLimitIsExceeded` | src-tauri/src/engine/mod.rs:900-915 | a run from an empty engine under an upload limit of 1, with a download completing beside a seed, that ends with two active uploads |
| `QueuePolicy.DequeueAdvances` | src-tauri/src/engine/mod.rs:3434-3452 | first come, first served: starting another torrent of its kind brings a queued one nearer to the front by exactly one |
| `QueuePolicy.UnlimitedNeverQueues` | src-tauri/src/engine/mod.rs:3423-3429 | with both limits off no torrent is ever queued, so the early return strands none |
| `TorrentQueue.TorrentQueue.AddTorrent` | src-tauri/src/engine/mod.rs:1693-1771 | a new torrent is checked, or paused; a known hash, then a v2-only torrent, then one whose storage cannot be laid out are refused |
| `TorrentQueue.TorrentQueue.Admit` | src-tauri/src/engine/mod.rs:1914-1957 | queued if and only if the limit is on and as many torrents of its kind are ahead |
| `TorrentQueue.TorrentQueue.NoteProgress` | src-tauri/src/engine/mod.rs:1816-1866 | pieces found on disk, or a check that could not start, change no state |
| `TorrentQueue.TorrentQueue.FinishVerification` | src-tauri/src/engine/mod.rs:1881-1962 | the transition at the end of verification, only out of Checking |
| `TorrentQueue.TorrentQueue.StartTorrent` | src-tauri/src/engine/mod.rs:2401-2479 | the same transition on start, only once verified |
| `TorrentQueue.TorrentQueue.PieceCompleted` | src-tauri/src/engine/mod.rs:900-915 | a complete download moves to Completed |
| `TorrentQueue.TorrentQueue.Tick` | src-tauri/src/engine/mod.rs:2836-2886 | the transitions of one pass of the run loop |
| `TorrentQueue.TorrentQueue.BeginMove` | src-tauri/src/engine/mod.rs:2083-2103 | a torrent moves, whatever its state |
| `TorrentQueue.TorrentQueue.EndMove` | src-tauri/src/engine/mod.rs:2128-2132 | only a torrent still moving becomes Completed |
| `TorrentQueue.TorrentQueue.PauseTorrent` | src-tauri/src/engine/mod.rs:3232-3259 | pauses and hands the slot to an oldest fitting torrent, or none fits |
| `TorrentQueue.TorrentQueue.ResumeTorrent` | src-tauri/src/engine/mod.rs:3261-3305 | queued if and only if the active count reaches the limit of its kind |
| `TorrentQueue.TorrentQueue.RemoveTorrent` | src-tauri/src/engine/mod.rs:3307-3346 | forgets a pending magnet, or removes a torrent and hands its slot on, unless its files could not be deleted |
| `TorrentQueue.TorrentQueue.StartNextQueued` | src-tauri/src/engine/mod.rs:3423-3477 | starts an oldest queued torrent whose kind has a free slot, and nothing if there is none or both limits are off |
| `ChokePolicy.RankedIsOrdered` | src-tauri/src/engine/mod.rs:3030-3044 | the ranking lists each interested peer once, most bytes first, for any iteration order |
| `ChokePolicy.RoundFillsSlots` | src-tauri/src/engine/mod.rs:3025-3088 | exactly min(interested, 4) peers are unchoked, all interested: at most three regular and one other optimistic peer |
| `ChokePolicy.RoundRewardsFastest` | src-tauri/src/engine/mod.rs:3046-3075 | no interested peer without a regular slot moved more bytes than one with it, and between rotations the optimistic peer keeps its place while it is a candidate |
| `ChokePolicy.RotationPicks` | src-tauri/src/engine/mod.rs:3058-3075 | a rotation, or the loss of the optimistic peer, gives its slot to the peer the random number points at behind the first three |
| `ChokePolicy.RunKeepsInv` | src-tauri/src/engine/peer_info.rs:6-31 | in every reachable state the window counters do not exceed the byte counters and at most 4 connected peers are unchoked |
| `ChokePolicy.MetricIsBytesSinceRound` | src-tauri/src/engine/mod.rs:3083-3087 | a round ranks a peer by exactly the bytes moved since the round before |
| `Choking.PeerTable.Connect` | src-tauri/src/engine/mod.rs:867-878 | a fresh entry replaces any old one |
| `Choking.PeerTable.Disconnect` | src-tauri/src/engine/mod.rs:879-899 | forgets the peer and its slot |
| `Choking.PeerTable.ReceiveBlock` | src-tauri/src/engine/mod.rs:946-959 | counts the bytes of a connected peer |
| `Choking.PeerTable.SendBlock` | src-tauri/src/engine/mod.rs:960-973 | counts the bytes of a connected peer |
| `Choking.PeerTable.UpdateState` | src-tauri/src/engine/mod.rs:994-1008 | records whether a connected peer is interested |
| `Choking.PeerTable.Clear` | src-tauri/src/engine/mod.rs:3239-3245 | drops all peers and their slots |
| `Choking.PeerTable.CollectInterested` | src-tauri/src/engine/mod.rs:3030-3042 | the metrics of the interested peers, without underflow |
| `Choking.PeerTable.DivideSlots` | src-tauri/src/engine/mod.rs:3046-3056 | the first three of the ranking, and the rest |
| `Choking.PeerTable.PlaceOptimistic` | src-tauri/src/engine/mod.rs:3058-3081 | keeps, replaces or clears the optimistic peer and hands out the slots |
| `Choking.PeerTable.StartWindow` | src-tauri/src/engine/mod.rs:3083-3087 | every window starts at the current counters |
| `Choking.PeerTable.RunChokingAlgorithm` | src-tauri/src/engine/mod.rs:3025-3088 | the whole round, in place, is the policy's |
| `Coalescer.CoalesceIsMaximal` | src-tauri/crates/oxidebt-disk/src/coalescer.rs:36-70 | coalescing sorted blocks is lossless, and no region ends where the next begins |
| `Coalescer.RegionsUnique` | src-tauri/crates/oxidebt-disk/src/coalescer.rs:36-70 | maximal regions are determined by the bytes they hold |
| `Coalescer.BlocksCoalesceMaximally` | src-tauri/crates/oxidebt-disk/src/coalescer.rs:36-70 | for non-overlapping blocks in any order the regions hold exactly the blocks' bytes at their offsets, sorted and maximal |
| `Coalescer.VersionsAgree` | src-tauri/crates/oxidebt-cache/src/block_cache.rs:77-106 | the map-based and the sort-based version give the same regions |
| `Coalescer.RegionsIgnoreBlockSizes` | src-tauri/crates/oxidebt-disk/src/coalescer.rs:36-70 | however the same bytes are cut into blocks, the regions are the same |
| `Coalescer.CoalesceSorted` | src-tauri/crates/oxidebt-cache/src/block_cache.rs:77-106 | the loop, with its 32-bit end test, computes the specified regions |
| `Coalescer.CoalesceBlocks` | src-tauri/crates/oxidebt-disk/src/coalescer.rs:36-70 | sorts, then coalesces |
| `Coalescer.CoalescePiece` | src-tauri/crates/oxidebt-cache/src/block_cache.rs:77-106 | coalesces the piece's blocks in offset order |
| `Progress.PieceSizeAgrees` | src-tauri/src/engine/torrent.rs:416-431 | the engine and the storage layout agree on the size of every piece |
| `Progress.Downloaded` | src-tauri/src/engine/mod.rs:3174-3196 | the loop over pieces counts exactly the file's bytes that lie in owned pieces |
| `Progress.GetTorrentFiles` | src-tauri/src/engine/mod.rs:3155-3215 | every file is reported with that count, its size and its percentage |
| `Progress.ProgressConserved` | src-tauri/src/engine/mod.rs:3155-3215 | the files' counts sum to the sizes of the owned pieces, for every layout and every set of pieces |
| `Progress.FullProgressIff` | src-tauri/src/engine/mod.rs:3198-3202 | a file shows 100 percent if and only if every byte of it lies in an owned piece |
| `RateLimiter.RunKeepsInv` | src-tauri/src/engine/torrent.rs:34-57 | the limiter's invariant over every run that keeps to the granted slots |
| `RateLimiter.WindowBound` | src-tauri/src/engine/torrent.rs:34-57 | in every such run no closed one-second window of the whole history holds more than the maximum, although old attempts are discarded |
| `RateLimiter.InWindowCounts` | src-tauri/src/engine/torrent.rs:34-49 | the count of a window is the number of attempts in a billion nanoseconds |
| `RateLimiter.SlotsAreExact` | src-tauri/src/engine/torrent.rs:34-49 | the answer is the maximum less the attempts of the last second |
| `RateLimiter.ConnectionRateLimiter.AvailableSlots` | src-tauri/src/engine/torrent.rs:34-49 | drops old attempts in place, answers as specified and keeps the window bound |
| `RateLimiter.ConnectionRateLimiter.RecordAttempts` | src-tauri/src/engine/torrent.rs:52-57 | records any number of attempts at the current time; keeps the window bound when they keep to the slots granted |
| `RateLimiter.OpenConnections` | src-tauri/src/engine/mod.rs:2683-2729 | the connecting step starts exactly as many connections as are waiting and as the free slots of the peer, half-open and global limits and of the limiter leave room for, so every window stays bounded |

## Left out

- Concurrency: every operation is one atomic step. In particular resume and start-next
  read the counts and write the state in one step, while the source takes separate locks.
- Sockets, tasks, file handles, timeouts and logging: files are byte arrays, the network
  is an oracle that answers each query of each round, clock readings, random numbers and
  the iteration order of hash maps are parameters.
- SHA-1 and SHA-256: the digest is an arbitrary function of the absorbed bytes.
- Memory counters, byte counters and sizes are unbounded integers; 32-bit wrap-around is
  modelled where the code depends on it (block ends in the coalescers, written lengths).
- BlockCache.BlockCache.AddBlock: takes non-empty blocks that end below 2^32 only; what an
  empty one does to the loop it calls is `HashAdvance.StopsIffNoneEmpty`.
- CachingManager.CachingDiskManager.WriteBlock: takes the same blocks, for the same reason.
- CachedRuns.ReadsAgreeWithDisk: runs contain reads, writes and clears of one set of
  registered torrents; registering, unregistering and moving between them is not in the runs.
- TorrentStorage.TorrentStorage.constructor: files are preallocated to their full length,
  so short files and the on-demand creation of files and directories are not modelled;
  path validation, v2 padding and `verify_all` are not either.
- Progress.GetTorrentFiles: percentages are real numbers, without floating-point rounding.
- Progress.FullProgressIff: speaks of these exact percentages, not of rounded ones.
- BencodeDecoder.DecodeInteger: the text that an InvalidInteger error carries is dropped.
- BencodeDecoder.DecodeList: depth and position are unbounded integers.
- DhtRoundTrip.ParseEncode: strings are at most 1,000,000,000 bytes, the decoder's limit,
  and texts are UTF-8, as the program's strings are. Node ids in messages are opaque
  strings of 20 bytes; `NodeId` treats their bits. Addresses are IPv4 or IPv6 values
  without scope or flow label.
- Lookup.GetPeers: one clock reading serves the whole lookup; `find_node` runs the same
  loop without peers and is not repeated.
- TorrentQueue.TorrentQueue.AddTorrent: `added_at` is taken as strictly increasing in the
  order of insertion, the limits as fixed, and completeness as a flag that only becomes true;
  which error laying out the storage gives is not modelled.
- TorrentQueue.TorrentQueue.RemoveTorrent: how files are deleted; only whether it failed.
- Choking.PeerTable.Connect: peers also carry bitfields and choke flags that the round
  does not read.
- The seeding rules by share ratio, trackers, magnets, piece selection, the peer wire
  codec, merkle trees, RSS, settings and persistence, and the user interface.
- The bandwidth token bucket and rate averages, which are floating point, and the second,
  unused choking algorithm of the peer crate.
