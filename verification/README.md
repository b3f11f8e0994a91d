# Unworkable, verified

A Dafny model of the core of *unworkable*, a BitTorrent client written in C, with proofs about it. Six parts of the
program are modelled, each in the form the program has: structures that are updated in place are classes with `modifies`
clauses, loops are loops with invariants, and each method is tied to a specification function about which the theorems are
proved.

| part | files |
|---|---|
| outstanding block requests, picker, endgame, PIECE/CHOKE/REJECT handlers | `Downloads.dfy`, `Session.dfy`, `Received.dfy`, `Picker.dfy`, `Events.dfy`, `Unexpected.dfy`, `Client.dfy`, `IndexOrder.dfy`, `PieceIndex.dfy` |
| whom we unchoke, and the peer list | `Choke.dfy` |
| piece layout, block reads and writes, hash check, fast resume | `Layout.dfy`, `Storage.dfy`, `Torrents.dfy`, `Resume.dfy` |
| peer wire framing and message encoders | `Wire.dfy`, `WireFormat.dfy` |
| the red-black tree behind the index | `RbTree.dfy` |
| SHA-1 | `Sha1.dfy`, `Sha1Example.dfy` |
| bencode | `Bencode.dfy`, `Lexer.dfy`, `Parser.dfy`, `ParseEncoded.dfy`, `Yyparse.dfy`, `BencodeFormat.dfy`, `BencodeTree.dfy`, `BencodeSearch.dfy`, `InfoHash.dfy` |

`Bytes.dfy`, `Options.dfy` and `Sequences.dfy` hold what they share. `dafny verify dfyconfig.toml` checks everything.

## Main results

1. **Verified data never changes.** In every run of a session (PIECE messages from any peers in any order, chokes,
   rejects, deaths, picker and endgame requests), once a piece has passed its hash check its flag and its stored octets
   stay the same; a piece that a run verified holds octets with the expected hash, all of them received
   (`Session.VerifiedDataNeverChanges`, `Session.VerifiedMeansReceivedAndHashed`). This rests on the exact condition under
   which `torrent_piece_map` covers a piece, on the disjointness of pieces, and on the confinement of writes. Over every run,
   each stored octet is that of the last accepted message that covers it, or what it was (`Received.LastMessageIsStored`,
   `Received.UncoveredStays`).
2. **Index and lists agree** in every reachable state (`Session.IndexAndListsAgree`).
3. **The red-black tree** is a heap of real nodes with parent pointers. Every insertion and removal keeps search order,
   colours, black heights and parent links, and changes the in-order listing by exactly one node (`RbTree.Head`). Used as
   the index of requests, it implements the map that the session is stated over (`PieceIndex.PieceIndex`), and the handlers
   and the picker of `Client.Client` run on it.
4. **Splitting does not matter** to the receive state machine, and encoded messages arrive as they were sent, however the
   stream is cut (`Wire.SplitInvariance`, `Messages.ConversationArrives`), in the octets that BEP 3 and BEP 6 lay down
   (`WireFormat.EncodeFormat`).
5. **SHA-1** with its circular buffer, rotated registers and streaming update computes the function of FIPS 180-4, whose
   transcription is held to a published digest (`Sha1Example.DigestOfAbc`).
6. **Bencode.** The lexer with its four shared globals and the shift-reduce machine of the grammar accept the encoding of a
   list of values exactly when no container is empty, nesting is at most fifteen deep and numbers fit; they then build
   exactly the tree of each value and leave the globals as they found them (`ParseEncoded.ParseOfEncoding`). On arbitrary
   input the machine stops and never pops an empty stack (`Parser.Run`, `Yyparse.NeverUnderflows`). A search for a key finds
   the entry that comes first in the input, at whatever depth (`BencodeSearch.SearchOfEncoding`).
7. **Choking**: at most four live peers are unchoked in every reachable state (`Choke.FromTheStart`).

## What the code does that one might not expect

- `torrent_piece_map` covers a piece exactly when `Layout.Sound` holds. Without empty files that means: no file shorter
  than the piece ends just where the piece starts. `Layout.LateStart` and `Layout.EmptyFileShifts` are inputs on which it
  maps the wrong octets (torrent.c:679-680, torrent.c:702-705).
- `piece_dl_idxnode_cmp` orders keys exactly when piece numbers and offsets are below 2^31; beyond that three keys can each
  precede the next in a circle (`IndexOrder.OrdersIff`, `IndexOrder.Circle`; network.c:66-71).
- The opportunistic unchoke tests the interest of the fastest peer instead of the peer it stands on, so it always picks the
  first peer of the list, whatever the random number (`Choke.Swarm.ChokeAlgorithm`; scheduler.c:409). The peer it lets in is
  interested exactly when the first peer is (`Choke.LuckyInterestedIff`, `Choke.LuckyBystander`).
- The endgame asks unchoked peers whose bitfield *lacks* a piece, although the comment says the opposite
  (scheduler.c:459-462). Every request of a pass goes to such a peer, so the peers it asks have the pieces exactly when it
  asks for nothing (`Unexpected.AskPiecesAdds`, `Unexpected.EndgameAsksHoldersIff`, `Unexpected.EndgameAsksNonHolder`).
- The rarest-first route tests the bitfield at the place in the rarity array instead of the piece number
  (scheduler.c:230-233). It chooses pieces that the peer has, in every session, exactly when the array leads from places in
  the bitfield to pieces in the bitfield; the other two routes always do (`Unexpected.RarestAlwaysHasIff`,
  `Unexpected.ChosenHasIff`, `Unexpected.RarestAsksNonHolder`).
- The fast-extension flag is taken from the info hash instead of the reserved octets (network.c:452): it is right exactly
  when the two bits happen to agree (`Messages.FastFlagRightIff`, `Messages.FastFlagLost`).
- The REJECT handler frees another peer's request exactly when the rejecting peer was not asked for the block and somebody
  was, since its lookup falls back on the index (network.c:780-800; `Unexpected.RejectFreesOwnIff`,
  `Unexpected.RejectSparesOthersIff`, `Unexpected.RejectTakesAnothers`).
- The info hash starts after the first *text* `4:info` in the file, which need not be the key that the parser's tree is
  searched for (`InfoHash.InfoHashOfFile`, `InfoHash.Shadowed`; torrent.c:70-77).
- A dictionary's first key length is lexed with `bstrflag` already set, since the parser needs no lookahead there; an empty
  dictionary's closing `e` is therefore read as the start of a number (`ParseEncoded.EmptyDict`).

## Model

| member | source | states |
|---|---|---|
| `Sha1Standard.PadIsMinimal` | openbsd-compat/sha1.c:147-160 | the padded length is a multiple of 64 with the least number of zero octets (section 5.1.1 of FIPS 180-4) |
| `Ring.CircularAt` | openbsd-compat/sha1.c:34-35 | a 16-place circular buffer still holds each of the last 16 words at its index modulo 16 |
| `Sha1.MixIsF` | openbsd-compat/sha1.c:40-44 | the rewritten Ch and Maj expressions of the round macros equal the functions of section 4.1.1 |
| `Sha1.SwapIsBigEndian` | openbsd-compat/sha1.c:28-30 | the two rotations and masks turn a little-endian load into the big-endian word |
| `Sha1.LoadedWord` | openbsd-compat/sha1.c:28-30 | the first 16 words of the buffer give the message schedule |
| `Sha1.ExpandedWord` | openbsd-compat/sha1.c:34-35 | later words of the buffer give the 80-word message schedule |
| `Sha1.NextWord` | openbsd-compat/sha1.c:28-35 | one use of blk0/blk returns word i of the schedule and advances the circular buffer in place |
| `Sha1.AddUp` | openbsd-compat/sha1.c:40-44 | one round macro equals one turn of section 6.1.2, up to the renaming of registers |
| `Sha1.Step` | openbsd-compat/sha1.c:71-90 | the macro for round i takes the registers after i rounds to those after i + 1 |
| `Sha1.Transform` | openbsd-compat/sha1.c:50-100 | the eighty rounds and final addition are the compression function of section 6.1.2 |
| `Sha1.BufferedLength` | openbsd-compat/sha1.c:128-129 | the 64-bit bit count, even when wrapped, tells how many octets are buffered |
| `Sha1.CountAdds` | openbsd-compat/sha1.c:129 | counting bits modulo 2^64 adds up |
| `Sha1.ShiftedDigit` | openbsd-compat/sha1.c:152-155 | the octet that a shift of the count brings down is its digit in base 256 |
| `Sha1.DigestAt` | openbsd-compat/sha1.c:169-172 | the octet that a shift of a word brings down is that octet of the digest |
| `Sha1.Context.CountOctets` | openbsd-compat/sha1.c:152-155 | the loop gives the count as a big-endian 64-bit integer |
| `Sha1.Context.DigestOctets` | openbsd-compat/sha1.c:169-172 | the loop gives the 20-octet digest of the five words |
| `Sha1.Context.Absorb` | openbsd-compat/sha1.c:130-135 | the block loop of an update folds the compression function over all full blocks |
| `Sha1.Context.Update` | openbsd-compat/sha1.c:123-140 | after any split into updates the state is the fold over full blocks and the buffer the remaining tail |
| `Sha1.Context.Pad` | openbsd-compat/sha1.c:147-160 | the padding loop ends, and what is added, with the count shifted out octet by octet, is exactly the padding of section 5.1.1 |
| `Sha1.Context.Final` | openbsd-compat/sha1.c:163-175 | the digest, shifted out of the words octet by octet, is the hash of everything that was fed in |
| `Sha1.HashChunks` | openbsd-compat/sha1.c:107-175 | for every message and every split the result is the standard's hash of the whole |
| `Sha1Example.DigestOfAbc` | openbsd-compat/sha1.c:22-175 | the standard's functions give the published digest of abc, which fixes their constants, rotations and padding |
| `Layout.LastPieceLength` | torrent.c:592-619 | the last length, computed with 32-bit wrap-around, is the true remainder |
| `Layout.PiecesCreate` | torrent.c:586-623 | all pieces but the last have the piece length, none is empty, and the lengths sum to the total |
| `Layout.MapIffSound` | torrent.c:634-738 | the segments concatenate to the piece's slice of the stream, with its length, exactly when the layout is sound for it |
| `Layout.SoundMaps` | torrent.c:666-735 | the same from any place in the file loop, with the length re-accumulated |
| `Layout.UnsoundMisses` | torrent.c:666-735 | on an unsound layout the segments are not those of the piece |
| `Layout.MapIffStartsWell` | torrent.c:666-735 | without empty files: exactly when no shorter file ends where the piece starts |
| `Layout.LateStart` | torrent.c:679-680 | a layout on which the offset is not reset |
| `Layout.EmptyFileShifts` | torrent.c:702-705 | a layout on which an empty file shifts the offset |
| `Layout.PieceMap` | torrent.c:634-738 | the loop with its running offset and length, refined to the mapping function |
| `Storage.WriteFlat` | torrent.c:338-385 | a write through the segments is an overwrite of the flat piece, and of nothing more |
| `Storage.WriteConfined` | torrent.c:338-385 | a write leaves any disjoint list of segments alone |
| `Storage.ReadAfterWrite` | torrent.c:338-466 | reading back a written range gives the data, across segment boundaries |
| `Storage.Disk.BlockWrite` | torrent.c:338-385 | the copy loop, for every range, including one that starts on a boundary |
| `Storage.Disk.BlockRead` | torrent.c:395-466 | a block inside the piece is the flat slice; NULL exactly when there are no segments or the offset is beyond them |
| `Storage.Disk.CheckHash` | torrent.c:750-782 | true exactly when there are mappings and what is read through them hashes to the expected digest; for a mapped piece that is the SHA-1 of its octets |
| `Torrents.SegmentsCover` | torrent.c:634-738 | the segments of a piece are its slice starting at index times piece length |
| `Torrents.PieceEnds` | torrent.c:586-623 | pieces lie end to end inside the total |
| `Torrents.PieceSegments` | torrent.c:634-738 | they fit the files, do not overlap each other, and add up to the piece length |
| `Torrents.PiecesApart` | torrent.c:634-738 | segments of different pieces are disjoint |
| `Bits.SetBit` | util.c:131-141 | sets that bit and no other |
| `Bits.MaskOr` | util.c:131-152 | octet masks of different bits do not meet |
| `Bits.MaskIs` | util.c:131-152 | the first bit of an octet is the most significant one |
| `Resume.BitfieldGet` | torrent.c:843-860 | the octets are the bit set of the verified pieces, spare bits zero, for every number of pieces |
| `Resume.Progress.Load` | torrent.c:921-961 | the flags in the file are added, with the count and total length of those pieces |
| `Resume.Progress.Dump` | torrent.c:887-912 | the file is the bit set |
| `Resume.Restored` | torrent.c:887-961 | what a dump wrote reads back as the same flags |
| `Resume.BufferBits` | torrent.c:938-945 | a bit beyond the end of a short file is not set, and what a long file has too much is ignored |
| `Resume.Restart` | torrent.c:887-961 | dump and load into a fresh copy restore the verified set, its size and its total length |
| `Downloads.CreateAgrees` | network.c:1355-1388 | a new request keeps index and lists in agreement |
| `Downloads.FreeAgrees` | network.c:1395-1413 | so does freeing one; an emptied index node goes |
| `Downloads.OrphanFirstAgrees` | network.c:554-561 | so does a CHOKE's orphaning of a request |
| `Downloads.ReleaseFirstAgrees` | network.c:1688-1696 | so does the release of a dead peer's request |
| `Downloads.RecycleAgrees` | scheduler.c:596-603 | so does handing an orphan to a peer |
| `Downloads.FindFacts` | network.c:1627-1654 | with a peer: a request on its list for the key, else any; without one: found exactly when some request has the key |
| `Downloads.FirstForIs` | network.c:1634-1639 | the entry found on a peer's list is the first one for the block |
| `Downloads.OrphanAllEffect` | network.c:550-562 | a CHOKE orphans exactly the peer's requests and nothing else |
| `Downloads.ReleaseAllEffect` | network.c:1683-1696 | a dead peer's complete requests stay as orphans, the others are gone, everybody else's are untouched |
| `Downloads.OwnershipIsListMembership` | network.c:1355-1413 | a request is on exactly its owner's list; orphans are on none |
| `Downloads.OneNode` | network.c:1355-1413 | a request sits in exactly one index node, the one with its key |
| `IndexOrder.CmpZeroIffSame` | network.c:61-73 | keys compare as equal only when they are |
| `IndexOrder.CmpIsLexicographicIff` | network.c:61-73 | the comparison is lexicographic exactly when the deciding difference survives the truncation to int |
| `IndexOrder.OrdersIff` | network.c:61-73 | it is a strict order on the keys of a torrent exactly when indices and offsets are below 2^31 |
| `IndexOrder.Circle` | network.c:66-71 | three keys that precede each other in a circle |
| `PieceIndex.ComparisonAgreesIff` | network.c:61-73 | comparing ranks is what the program's comparison of a key with the keys of the index does, exactly when no deciding difference is truncated |
| `PieceIndex.PieceIndex.NodeFor` | network.c:1369-1372 | the tree search finds the node of a key exactly when the index has the key, and that node is the only one |
| `PieceIndex.PieceIndex.First` | network.c:1641-1653 | the lookup without a peer returns the first entry of the key's node, or nothing |
| `PieceIndex.PieceIndex.Add` | network.c:1369-1384 | find or insert in the tree, then append: exactly the index update of a new request |
| `PieceIndex.PieceIndex.Drop` | network.c:1398-1410 | unlink, and remove an emptied node from the tree: exactly the index update of a freed request |
| `PieceIndex.PieceIndex.ListingIs` | openbsd-compat/sys/tree.h:672-675 | the keys in tree order are those of the index, each once, ascending |
| `PieceIndex.PieceIndex.FirstNode` | openbsd-compat/sys/tree.h:672-675 | the walk starts at the least key |
| `PieceIndex.PieceIndex.NextNode` | openbsd-compat/sys/tree.h:672-675 | and goes on to the next |
| `Session.BlocksTile` | scheduler.c:471-490 | the block offsets and lengths tile a piece: every octet is in exactly one block |
| `Session.CheckMeansReceived` | network.c:684-699 | when the handler reaches the hash check, every octet of the piece was brought by an accepted PIECE message |
| `Session.OnPieceKeeps` | network.c:650-748 | the PIECE handler keeps the invariant, including good_pieces as the number of flags |
| `Session.OnPieceSafe` | network.c:661-701 | a PIECE message cannot change the flag or the octets of a verified piece |
| `Session.OnPieceVerifies` | network.c:698-706 | a piece becomes verified only with all of it received and the expected hash of what is stored |
| `Session.ChosenIsWanted` | scheduler.c:515-581 | whichever route chose it, the piece is unverified and has an unassigned block |
| `Session.NoBadOffset` | scheduler.c:587-605 | the offset loop of the picker fails only for a piece whose blocks are all assigned |
| `Session.GimmeClosesOne` | scheduler.c:502-614 | a call that returns a request lowers the number of unassigned blocks by exactly one |
| `Session.EndgameIffNothingOpen` | scheduler.c:46-92 | endgame exactly when no unverified piece has an unassigned block |
| `Session.AskPiecesGood` | scheduler.c:442-495 | after an endgame pass every peer it asks holds a request for every block of every unverified piece; nothing is lost |
| `Session.StepKeeps` | network.c:538-860 | every event keeps the invariant of the session |
| `Session.BeginInv` | network.c:1475-1520 | a fresh session satisfies it |
| `Session.IndexAndListsAgree` | network.c:1355-1413 | in every reachable state the index and the lists agree and lookups are exact |
| `Session.VerifiedDataNeverChanges` | network.c:650-748 | over every run, a verified piece keeps its flag and its octets |
| `Session.VerifiedMeansReceivedAndHashed` | network.c:650-748 | over every run, a piece that became verified was wholly received and still has the expected hash |
| `Session.LeftIsConserved` | network.c:698-706 | over every run, left plus the lengths of verified pieces is constant and good_pieces counts the flags |
| `Received.PieceStores` | network.c:650-685 | a PIECE message that is taken is logged with its data and overwrites exactly its block of its piece; any other changes no data, flag or request |
| `Received.RunReplays` | network.c:650-748 | over every run the octets of a piece are those at the start with the accepted messages replayed in order |
| `Received.LastMessageIsStored` | network.c:1005-1025 | over every run a stored octet is that of the last accepted message that covers it |
| `Received.UncoveredStays` | network.c:1005-1025 | over every run an octet that no accepted message covers is what it was |
| `Received.AllCompleteIff` | network.c:686-697 | the completeness loop holds exactly when every block's request is complete |
| `Received.FreeBlocksExactly` | network.c:721-733 | the clean-up frees exactly the first request of each block |
| `Received.PieceChecks` | network.c:698-706 | the octets are counted on the request, and the piece becomes verified exactly when every block is then done and the digest of what is stored is the expected one |
| `Received.PieceFrees` | network.c:698-735 | after a hash check the first request of each block is gone, and without one nothing is |
| `Picker.StartedIs` | scheduler.c:515-527 | the first index node whose piece suits the peer, and none exactly when none does |
| `Picker.UsefulIs` | scheduler.c:529-562 | exactly the pieces that suit the peer, once each, ascending |
| `Picker.ChoosesNothingIff` | scheduler.c:515-581 | exactly when the picker chooses nothing, on each route |
| `Picker.RandomReaches` | scheduler.c:565-571 | on the random route exactly the pieces that suit can come up |
| `Picker.FirstUnassignedIs` | scheduler.c:589-605 | the offset loop stops at the first unassigned block |
| `Picker.UnassignedIff` | scheduler.c:82-91 | a block is unassigned exactly when it has no request or its first request is an incomplete orphan |
| `Picker.GimmeAsks` | scheduler.c:589-614 | the request returned is the recycled orphan or a new one of the block's length; no other request changes |
| `Picker.AskPiecesOnce` | scheduler.c:471-491 | an endgame pass asks no peer for a block twice |
| `Events.ChokeEffect` | network.c:550-562 | a CHOKE orphans exactly the peer's requests when the peer is not fast, and none when it is |
| `Events.PeerEffect` | network.c:563-567 | an UNCHOKE, a bitfield and a kill change only that peer |
| `Events.SlowRejectKills` | network.c:775-780 | a REJECT from a peer without the fast extension kills it and frees nothing |
| `Events.UnaskedPieceKills` | network.c:666-677 | a PIECE message kills its peer exactly when it is in range and nobody was asked for the block |
| `Events.ConnectEffect` | network.c:1662-1675 | a new peer is last in the list, choking us, without bitfield or requests |
| `Events.RemoveEffect` | network.c:1683-1696 | a freed peer's complete requests stay without owner, its others go, everybody else's stay |
| `Events.GoneEffect` | scheduler.c:304-315 | a dead peer leaves the list and is freed, and nothing else changes |
| `Events.AskEffect` | scheduler.c:330-333 | the picker is called exactly for a peer that does not choke us while some piece is unverified |
| `Events.TickEffect` | scheduler.c:666-667 | the endgame pass runs exactly when no unverified piece has an open block |
| `Unexpected.RejectFreesOwnIff` | network.c:772-799 | a REJECT frees at most one request, for the named block, and the rejecting peer's own exactly when it was asked for it |
| `Unexpected.RejectSparesOthersIff` | network.c:793-797 | nobody else loses a request exactly when the peer was asked for the block or nobody was |
| `Unexpected.RejectTakesAnothers` | network.c:793-797 | a run in which a peer loses its request to another's REJECT |
| `Unexpected.AskPiecesAdds` | scheduler.c:442-495 | every request that an endgame pass makes is for an unverified piece, from a peer whose bitfield lacks it |
| `Unexpected.EndgameAsksHoldersIff` | scheduler.c:459-462 | the peers asked have the pieces exactly when nothing is asked, which is when everybody considered is already asked for everything |
| `Unexpected.EndgameAsksNonHolder` | scheduler.c:459-462 | a run in which the endgame asks a peer that has nothing |
| `Unexpected.RarestPlace` | scheduler.c:228-250 | the rarest-first loop returns the piece at the first place where it stops, and nothing if there is none |
| `Unexpected.ChosenHasIff` | scheduler.c:515-581 | the peer has the chosen piece on the first two routes, and on the third exactly when the piece at the place of the stop is in its bitfield |
| `Unexpected.RarestAlwaysHasIff` | scheduler.c:228-250 | the third route is right in every session exactly when the rarity array fits the peer's bitfield |
| `Unexpected.RarestAsksNonHolder` | scheduler.c:228-250 | a run in which a peer is asked for a piece that it does not have |
| `Client.Client.DlFind` | network.c:1627-1654 | the lookup loops compute the specified lookup |
| `Client.Client.DlCreate` | network.c:1355-1388 | the new books, and nothing else changed |
| `Client.Client.DlFree` | network.c:1395-1413 | the books without the request |
| `Client.Client.OrphanRequests` | network.c:554-561 | the CHOKE loop orphans all requests of the peer |
| `Client.Client.OrphanHead` | network.c:1688-1692 | the first request loses its owner and leaves the list |
| `Client.Client.PeerFree` | network.c:1683-1696 | the release loop, then the peer is gone |
| `Client.Client.PieceAssigned` | scheduler.c:74-92 | the block loop decides the specified predicate |
| `Client.Client.IsEndgame` | scheduler.c:46-66 | the piece loop decides the specified predicate |
| `Client.Client.TakeBlock` | scheduler.c:587-611 | the offset loop takes the first unassigned block, creating or recycling its request |
| `Client.Client.GiveTo` | scheduler.c:600-603 | an orphaned request changes hands |
| `Client.Client.SeemsComplete` | network.c:685-697 | the completeness loop of the PIECE handler |
| `Client.Client.FreePiece` | network.c:722-727 | the clean-up loop after a good piece |
| `Client.Client.StoreBlock` | network.c:1005-1025 | the block is written and credited |
| `Client.Client.VerifyPiece` | network.c:698-735 | hash check, flag, counters and clean-up |
| `Client.Client.HandlePiece` | network.c:650-748 | the whole handler refines the step of the session |
| `Client.Client.ChooseFor` | scheduler.c:515-581 | the three routes, the first over the keys of the index in tree order |
| `Client.Client.StartedFor` | scheduler.c:515-527 | the walk over the tree finds the first begun piece that the peer has |
| `Client.Client.UsefulFor` | scheduler.c:529-562 | the array of the wanted pieces that the peer has |
| `Client.Client.RarestFor` | scheduler.c:212-245 | the rarest-first loop |
| `Client.Client.PieceGimme` | scheduler.c:501-614 | the picker as a whole refines the step of the session; without leave to create it changes nothing and only tells whether there is something to ask for |
| `Client.Client.AskPeer` | scheduler.c:471-493 | the offset loop of the endgame |
| `Client.Client.AskOnce` | scheduler.c:472-491 | a block is requested unless the peer has a request for it |
| `Client.Client.AskPeersFor` | scheduler.c:459-493 | the peer loop of the endgame |
| `Client.Client.EndgamePass` | scheduler.c:442-495 | the endgame pass refines the step of the session |
| `Client.Client.HandleChoke` | network.c:550-562 | the handler refines the step of the session |
| `Client.Client.HandleUnchoke` | network.c:563-567 | the handler refines the step of the session |
| `Client.Client.HandleReject` | network.c:772-799 | the handler refines the step of the session, for every index and offset |
| `Client.Client.Reap` | scheduler.c:304-315 | the removal refines the step of the session |
| `Client.Client.FillOne` | scheduler.c:330-360 | one request of the fill loop refines the step of the session |
| `Client.Client.EndgameIfDue` | scheduler.c:666-667 | the test and the pass refine the step of the session |
| `Choke.PassBound` | scheduler.c:381-435 | after a pass at most four peers are unchoked, whatever was before |
| `Choke.TopThreeUnchoked` | scheduler.c:382-392 | after a pass every interested peer among the three fastest is unchoked |
| `Choke.OthersChoked` | scheduler.c:417-433 | everybody else but the first of the list is choked |
| `Choke.PassKeepsRest` | scheduler.c:379-433 | off the ten seconds nothing changes, on them only choking bits, and a top peer without interest keeps its own |
| `Choke.LuckyExactly` | scheduler.c:393-416 | the first peer is let in exactly on the thirty seconds with somebody interested |
| `Choke.RankingBySpeed` | scheduler.c:141-151 | a ranking puts interested before others and faster before slower |
| `Choke.ReapKeeps` | scheduler.c:643-658 | every living peer stays, in order, the silent as killed |
| `Choke.ReapOnly` | scheduler.c:643-658 | and nobody else stays |
| `Choke.ListEvents` | network.c:217-239 | what coming, going, interest and death change in the list |
| `Choke.LuckyInterestedIff` | scheduler.c:405-415 | the peer let in for luck is interested exactly when the first of the list is |
| `Choke.LuckyBystander` | scheduler.c:405-415 | a pass that unchokes a peer without interest |
| `Choke.FastestInterested` | scheduler.c:143-155 | if anybody is interested, the top-ranked peer is |
| `Choke.StepKeeps` | scheduler.c:623-664 | every event keeps the bound and the count of peers |
| `Choke.FromTheStart` | scheduler.c:152-153 | in every reachable state at most four live peers are unchoked and num_peers is the length of the list |
| `Choke.Swarm.AddPeer` | network.c:217-239 | a known address is not added again |
| `Choke.Swarm.ReapAndKill` | scheduler.c:643-658 | the dead are removed and counted off, the silent killed |
| `Choke.Swarm.Speedrank` | scheduler.c:133-153 | the array that is handed to qsort holds every peer with its rate; the mismatch exit is taken exactly when num_peers is wrong |
| `Choke.Swarm.WalkTo` | scheduler.c:405-413 | the walk depends on the fastest peer's interest only |
| `Choke.Swarm.UnchokeFastest` | scheduler.c:382-392 | exactly the interested among the three fastest are unchoked |
| `Choke.Swarm.ChokeOthers` | scheduler.c:417-433 | exactly those not among the three fastest and not picked are choked |
| `Choke.Swarm.ChokeAlgorithm` | scheduler.c:369-435 | the pass as a whole, for every ranking and every random number |
| `Choke.Swarm.Scheduler` | scheduler.c:623-664 | a tick refines the step of the run and never takes the mismatch exit |
| `Wire.EntryResumes` | network.c:398-420 | an incomplete read leaves a state from which the rest continues as if read at once |
| `Wire.EntryIgnoresRest` | network.c:398-420 | a complete unit does not depend on what follows it in the buffer |
| `Wire.DriveAppend` | network.c:386-529 | processing two buffers in turn is processing their concatenation |
| `Wire.SplitInvariance` | network.c:386-529 | every way of splitting a stream dispatches the same messages and reaches the same state |
| `Wire.Entry` | network.c:386-510 | each entry on a non-empty buffer consumes at least one octet, so the re-invocation ends |
| `Wire.Connection.Finish` | network.c:421-509 | what happens when a unit is complete: handshake parts, length, body |
| `Wire.Connection.ReadOnce` | network.c:386-510 | one entry, updating the peer's fields |
| `Wire.Connection.HandleResponse` | network.c:386-529 | the handler with its self re-invocation |
| `Messages.DecodeBody` | network.c:538-860 | decoding what an encoder wrote gives the message |
| `Messages.DriveMessage` | network.c:474-506 | one encoded message dispatches that message and leaves the receiver idle; a keep-alive dispatches nothing |
| `Messages.MessagesArrive` | network.c:929-1278 | every sequence of messages, in any chunks, arrives as sent |
| `Messages.DriveHandshake` | network.c:345-376 | a handshake for the same torrent establishes the connection |
| `Messages.ConversationArrives` | network.c:345-529 | handshake and messages, in any chunks, arrive as sent |
| `Messages.WrongHandshakeKills` | network.c:448-464 | another info hash kills the peer |
| `Messages.WrongProtocolKills` | network.c:422-445 | a first part that is not the protocol string kills the peer |
| `Messages.FastFlagRightIff` | network.c:448-457 | the recorded flag is the announced one exactly when its bit equals that of the info hash |
| `Messages.FastFlagLost` | network.c:448-457 | a torrent on which an announced flag is lost |
| `Messages.FastBitIs` | network.c:452 | the flag is bit 0x04 of its octet |
| `WireFormat.NetworkOrder` | network.c:929-1278 | the four octets of a number weigh 256^3, 256^2, 256 and 1, written and read |
| `WireFormat.EncodeFormat` | network.c:929-1278 | every message octet by octet: length prefix, id, fields in network order |
| `WireFormat.HandshakeFormat` | network.c:364-376 | the handshake octet by octet, with the protocol string in characters |
| `WireFormat.LengthLimit` | network.c:475-485 | a length above 16 MB kills the peer, and no smaller one |
| `WireFormat.OnlyKeepAlivesGo` | network.c:486-492 | without keep-alives all messages are received, in order |
| `WireFormat.KeepAliveGoes` | network.c:486-492 | a keep-alive makes no difference |
| `RbTree.Head.RotateLeft` | openbsd-compat/sys/tree.h:335-353 | the rotation relinks exactly the nodes of a left rotation, parent links included |
| `RbTree.Head.RotateRight` | openbsd-compat/sys/tree.h:355-373 | the mirror image |
| `RbTree.Head.InsertRoundLeft` | openbsd-compat/sys/tree.h:396-412 | one round keeps nodes, order and balance but for the one red pair, and climbs |
| `RbTree.Head.InsertRoundRight` | openbsd-compat/sys/tree.h:413-429 | the mirror image |
| `RbTree.Head.InsertColor` | openbsd-compat/sys/tree.h:390-432 | the loop ends with a red-black tree of the same nodes in the same order |
| `RbTree.Head.Insert` | openbsd-compat/sys/tree.h:578-606 | the listing gains exactly the node at its place; an equal key changes nothing and is returned |
| `RbTree.Head.RemoveRoundLeft` | openbsd-compat/sys/tree.h:440-471 | one round either settles the balance or moves the missing black node up |
| `RbTree.Head.RemoveRoundRight` | openbsd-compat/sys/tree.h:472-503 | the mirror image |
| `RbTree.Head.RemoveColor` | openbsd-compat/sys/tree.h:434-508 | the loop ends with a red-black tree of the same nodes in the same order |
| `RbTree.Head.Splice` | openbsd-compat/sys/tree.h:559-570 | the only child takes the node's place |
| `RbTree.Head.Substitute` | openbsd-compat/sys/tree.h:537-551 | the successor takes over links and colour of the removed node |
| `RbTree.Head.RemoveOne` | openbsd-compat/sys/tree.h:557-574 | a node with at most one child leaves |
| `RbTree.Head.RemoveTwo` | openbsd-compat/sys/tree.h:519-556 | a node with two children is replaced by its successor |
| `RbTree.Head.Remove` | openbsd-compat/sys/tree.h:510-575 | search order, balance and links are kept, and the listing loses exactly that node |
| `RbTree.Head.Perform` | openbsd-compat/sys/tree.h:510-606 | every sequence of insertions and removals keeps the tree valid and its listing as specified |
| `RbTree.Head.Lookup` | openbsd-compat/sys/tree.h:609-624 | finds a node exactly when some node has the key |
| `RbTree.Head.Next` | openbsd-compat/sys/tree.h:626-645 | the in-order successor, by parent pointers |
| `RbTree.Head.MinMax` | openbsd-compat/sys/tree.h:647-660 | the first or last node |
| `RbTree.Head.Foreach` | openbsd-compat/sys/tree.h:672-675 | every node once, keys strictly ascending |
| `RbTree.InsertSortedAscends` | openbsd-compat/sys/tree.h:578-606 | inserting in order keeps the listing ascending |
| `RbTree.WithoutInserted` | openbsd-compat/sys/tree.h:510-606 | removing undoes inserting |
| `RbTree.PlugBalanced` | openbsd-compat/sys/tree.h:390-432 | a balanced subtree in a fitting context makes a red-black tree |
| `RbTree.Unplug` | openbsd-compat/sys/tree.h:390-432 | and conversely |
| `Bencode.StrtonumDecimal` | parse.y:110-124 | decimal text reads back as the number exactly when it fits a long long |
| `Bencode.TreeFaithful` | parse.y:135-284 | content, keys and order of children can be read off the tree |
| `BencodeFormat.ValueFormat` | parse.y:135-284 | every value in characters, with canonical decimal numbers |
| `BencodeFormat.PartsFormat` | parse.y:180-258 | items and entries follow each other in order |
| `BencodeFormat.OneFormat` | parse.y:206-250 | an entry is its key before its value |
| `BencodeFormat.NumeralReads` | openbsd-compat/strtonum.c:35-72 | spaces, a sign and digits up to the end of the C string read as the number, if it fits |
| `BencodeFormat.OnlyNumeralsRead` | openbsd-compat/strtonum.c:35-72 | and nothing else reads as a number |
| `Lexer.Scanner.Yylex` | parse.y:287-378 | the loop with its globals computes the specified token and state |
| `Lexer.ScanProgress` | parse.y:287-378 | every token but end of input and the empty string takes an octet |
| `Lexer.ScanNumber` | parse.y:325-349 | a number is lexed up to its end, with bstrflag set or not |
| `Lexer.ScanBody` | parse.y:312-377 | a string body of the announced length is taken whole, whatever it contains, and the globals are zero again |
| `Lexer.ScanLost` | parse.y:318-326 | in string context a text starting with e is never a number |
| `Parser.StepSinks` | parse.y:95-284 | every step lowers a measure |
| `Parser.Run` | parse.y:391-401 | the parser stops on every input |
| `ParseEncoded.DriveInt` | parse.y:146-155 | an encoded number becomes its node, or fails out of range |
| `ParseEncoded.DriveString` | parse.y:130-144 | an encoded string becomes its node |
| `ParseEncoded.DriveFirstKey` | parse.y:260-270 | so does a first key, whose length is lexed after bstrflag is set |
| `ParseEncoded.DriveClose` | parse.y:171-178 | the late insertion at the head restores the order of children; a dictionary's end is one past its closing e |
| `ParseEncoded.EmptyList` | parse.y:180-204 | an empty list is a syntax error |
| `ParseEncoded.EmptyDict` | parse.y:252-284 | an empty dictionary is a syntax error, whatever follows |
| `ParseEncoded.DriveItems` | parse.y:192-203 | items are appended to the innermost open container, in order |
| `ParseEncoded.DriveEntries` | parse.y:206-258 | so are dictionary entries |
| `ParseEncoded.DriveValue` | parse.y:95-284 | a value at its place leaves its tree on the stack and everything else as it was, exactly when it is within the limits |
| `ParseEncoded.ParseOfEncoding` | parse.y:95-378 | parsing an encoding gives the trees, an empty container stack and zero globals exactly when the values are within the limits; otherwise it fails |
| `ParseEncoded.RoundTrip` | parse.y:95-378 | decoding undoes encoding |
| `Yyparse.StepSound` | parse.y:95-284 | on any input, bstack holds exactly the enclosing containers, innermost on top |
| `Yyparse.NeverUnderflows` | parse.y:403-431 | on any input nothing is popped from or peeked at on an empty stack, and acceptance leaves it empty |
| `Yyparse.BencParser.StackPush` | parse.y:424-431 | the sixteenth nested container is refused |
| `Yyparse.BencParser.StackPop` | parse.y:403-411 | the top container |
| `Yyparse.BencParser.AddToPeek` | bencode.c:34-38 | the child goes to the end of the top container |
| `Yyparse.BencParser.ActClose` | parse.y:271-284 | pop and insertion at the head |
| `Yyparse.BencParser.ActText` | parse.y:110-144 | the actions of numbers and strings |
| `Yyparse.BencParser.ActItem` | parse.y:95-250 | the actions of values in their places |
| `Yyparse.BencParser.ActEnd` | parse.y:146-284 | the actions at a closing e |
| `Yyparse.BencParser.Parse` | parse.y:391-401 | the parser with its globals and arrays refines the machine |
| `BencodeTree.Find` | bencode.c:75-98 | the value of the first entry with that key in the order of the input, an entry before those inside it |
| `BencodeTree.FindAmong` | bencode.c:87-96 | the same over the children of a container |
| `BencodeSearch.SearchOfEncoding` | bencode.c:75-98 | in the parse of every input within the limits a search finds something exactly when some entry at any depth has the key, and then the value of the first one in the input |
| `BencodeTree.EncodedEndsRight` | parse.y:271-284 | from each dictionary's start to its end lies its encoding, and the last octet is its e |
| `BencodeTree.EndsOfEncoding` | parse.y:342-354 | the same for every dictionary of an encoded input |
| `InfoHash.FirstInfo` | torrent.c:70-73 | the first textual occurrence of the key, or none at all |
| `InfoHash.HashedIffFirst` | torrent.c:54-80 | a dictionary is hashed whole exactly when the first textual occurrence stands right before it |
| `InfoHash.InfoValueHashedIff` | torrent.c:54-80 | the info value is hashed exactly when no NUL and no other such text comes before its key |
| `InfoHash.FoundIn` | bencode.c:75-98 | what a search finds in the tree of an encoded value is the value of an entry of its encoding |
| `InfoHash.InfoHashOfFile` | torrent.c:94-121 | for every torrent file within the parser's limits, the dictionary that the search for info finds is what is hashed exactly when its key is plainly info and is the first such text of the file |
| `InfoHash.Shadowed` | torrent.c:70-74 | for every info dictionary, a torrent file on which something else is hashed |

## Left out

- Sockets, libevent buffers, timers, accept, connect and name resolution: a read takes the first octets of what is available.
- mmap, msync, flock, growth of files and unmapping: a file is a sequence of octets and a mapping a (file, offset, length) segment.
- announce.c, ctl_server.c, progressmeter.c, trace.c, xmalloc.c and the Python programs: tracker, user interface, logging, thin helpers.
- network_crypto_dh, which is unfinished, and the splay trees of tree.h, which the program does not use.
- Clock, random numbers, transfer rates and what qsort returns are parameters; qsort is taken to return some ranking by rate, which its comparison gives for rates that differ by less than 2^31.
- dl_queue_len is not modelled: CHOKE also counts it down for complete requests, so it is no exact count (network.c:555-560, network.c:680). How many requests scheduler_fill_requests makes in one go is therefore not modelled either; each is a picker event.
- The exit of the program when the last piece is verified, HAVE and CANCEL messages sent after a good piece, and our own interest in peers.
- Handlers of messages that touch neither requests nor data (HAVE, BITFIELD, REQUEST, CANCEL, SUGGEST, ALLOWEDFAST) beyond the decoding of their fields.
- Messages.Decode: a body shorter than the fields that are read from it decodes to None, where the program would read beyond it.
- Wire.Connection.Finish: its preconditions are the states in which a unit has just been completed; other states do not occur.
- PieceIndex.PieceIndex.Add: a key whose comparison with some key of the index is truncated is outside the contract, as it is for NodeFor, First and Drop; the tree is then not ordered by the comparison (`IndexOrder.OrdersIff`).
- Client.Client: only torrents with at most 2^31 pieces, of less than 2^31 octets each (`Client.Bounded`), for the same reason. The results of `Session` have no such bound.
- The tree is keyed by integers, the ranks of the keys. The other fields of an index node are kept in maps beside the tree. Removal of a node that is not in the tree is undefined in the program and not modelled.
- Loops over blocks assume that piece length plus 16384 is below 2^32, as the program does.
- The number of pieces plus 7 is taken not to wrap at 32 bits.
- The lexer's buffer is a sequence: its growth, and the missing terminator of a text that exactly fills it, are not modelled. A key is kept as its octets; as a C string it ends at its first NUL, which is how `BencodeTree.Find` compares it.
- The state tables that yacc generates are modelled as a function of the symbols on the stack, with reductions taken without lookahead where a state has only one. What a failed parse leaves in the globals is not modelled.
- torrent_parse_file, which only copies found values into a structure, and benc_node_freeall.
