# Negentropy: verified model

Negentropy reconciles two sets of items over a network. An item is a 64-bit timestamp and a 32-byte id; both sides keep
their items sorted and exchange messages that describe ranges of the timestamp/id space by fingerprints or by id lists,
until the client knows which ids only it has and which only the server has.

This project models the C++ implementation in Dafny and proves what it is for. `dafny verify dfyconfig.toml` checks
everything.

## What is modelled

**Order and sums** (`Types`, `SortedItems`, `Accumulators`, `Fingerprints`). Items and bounds have integer ranks that agree
with the source's comparison; bounds compare with their id prefix padded by zero bytes. Sums of ids are numbers modulo
2^256; the byte buffer with its carry loops is proved to hold them, in four 64-bit limbs as in C++ and in eight 32-bit limbs
as in JavaScript.

**The B+tree** (`BTreeNodes` to `BTreeVerify`). Nodes live in a map from node ids. `TreeOk` in `BTreeNodes` is the whole
invariant: the nodes of a level hold, left to right, exactly the first items and ids of the nodes one level down (at the
leaves, exactly the stored items); every node but the last of its level has at least MIN_ITEMS keys and none more than
MAX_ITEMS; sibling links chain each level; every node's sum and count are those of the items below it; the root is alone and
has two children unless it is a leaf; every node in the map belongs to exactly one level. Beside it `SlotsOk` in `NodeSlots` says
that every node in the map has MAX_ITEMS + 1 key slots, its keys in the first ones and zero in all others, and `BTree.Logged`
that the listed calls to the node storage lead to the present nodes. `BTree.Valid` is all three, for every reachable tree: all
methods that change keys load a node's slots into an array, work on them in place and store them back. Insertion and erasure
climb the breadcrumbs level by level, and one lemma per way of rewriting a level (replace, split, merge, rebalance, drop)
carries the invariant upwards. The proofs are for all constants with REBALANCE_THRESHOLD at least 2 * MIN_ITEMS, which both
shipped sets satisfy and the source's static assertions do not imply (`SharingNeedsThreshold`). `BTreeVerify` is the
repository's own check of a tree: a store that passes it is a tree in all that the check looks at (`BTreeRows` puts the levels
together from the walk), and `PassingIsTree` says exactly what it does not look at.

**Node storage** (`StoreCalls`, `LmdbStores`, `PersistentTrees`). The source's tree calls virtual functions to make, write and
delete nodes and to set the root, and two storages implement them. `BTree` works on the in-memory one and lists the calls it
makes. `LmdbStores` is the write-back cache over LMDB, proved call by call against the in-memory storage, and
`PersistentTrees` makes a tree's calls there: after any sequence of insertions and erasures, each flushed and opened again
from the table, the table holds a valid tree with the right contents. Reading a missing node is an error over LMDB; no
operation on a valid tree does it, since every read in `BTree` is proved to find its node.

**The protocol** (`Encoding`, `Wire`, `Grammar`, `Splits`, `Coverage`, `Replies`, `FrameLimits`, `RefusedRanges`,
`DroppedChunks`, `Messages`, `Reports`, `Conversations`).
A message is a list of ranges. `Grammar` states the wire format by itself, as what stands at the front of a byte string, how
ranges are spelled and what is wrong with bytes that are no range; readers and writers agree with it in both directions. `Replies.Run` is the reconciliation loop as a state machine over the ranges of a query, with
every decision that depends on encoded sizes. Theorems about single replies (tiling, frame bound, truncation, wire round
trip) and about whole runs (soundness, exactness, termination) are proved about it.

**The objects** (`Vectors`, `Storages`, `Negentropies`, `Syncing`). The array storage, the protocol object with its fields
and loops over bytes, and the loop of a client and a server that exchange messages. They are proved against the
specifications above; `Syncing.Sync` ends in exact reports for any mixture of array and tree storages. The methods state the
timestamp written last after every outcome, errors included: when a storage refuses the range of an id list, a responder has
already written the pending Skip (`Replies.Lost`).

SHA-256 is a function parameter (`Wire.Hash` stands for its first 16 bytes). Nothing is assumed about it except in
`RunIsExact` and `Sync`, which take as hypothesis that fingerprints of the two given sets differ wherever the sets differ
inside a range. Runs assume what the documentation asks of callers: an id never stands for two different items, and no item
uses the infinity timestamp.

## Where the code differs from its documentation

* The documentation says that timestamp offsets reset at the beginning of each message. `initiate` does not reset
  `lastTimestampOut`. An object that answered a query before and then initiates sends a first message that is read shifted.
  `OpeningRoundTrip` gives the exact condition: it is read as meant if and only if the last written timestamp is 0 or the set
  has fewer than 32 items. `Syncing.AnswerThenInitiate` makes both calls on one object, for any query, malformed and refused
  ones included, and `Syncing.StaleOpening` brings every object with at least 32 items into the state in which the message is
  not read as meant.
* A mode is cast to a 32-bit enumeration, so a mode code that is 0, 1 or 2 modulo 2^32 is accepted (`Wire.ModeRefused`;
  `Wire.WideModeExample` is the code 2^32 taken for a Skip).
* The tree's `findLowerBound` does not clamp its answer up to `begin`, while the array's does. `TreeMatchesArray` gives the
  exact condition under which they agree (`TreeGoesBackExample` is an input on which they do not). So a tree may be asked for
  a range of positions that ends before it starts, which is the error "bad range". `RefusedRanges.TreeFailsExactly` says when:
  a query fails over a tree exactly if, before the frame is full, one of its ranges is more than a Skip and its bound has
  items below it, but fewer than the last earlier bound that has any; otherwise the query goes on from that bound, which may
  be further back. Over an array, and for bounds in order, no query fails (`ArrayNeverFails`, `OrderedNeverFails`);
  `TreeFailsExample` is a query that does.
* A written bound is read back exactly if and only if its timestamp is not below the one written before; otherwise it is read
  as infinity (`BoundRoundTrip`; `BoundBackInTime` is an instance). All replies satisfy the condition (`RepliesInTime`).
* When a chunk does not fit the frame and is dropped, the closing fingerprint starts behind the dropped range but is read as
  starting at the last bound that was sent. `ClosingAfterDrop` gives the exact condition under which the two agree: the sender
  has no items in the gap between the two places. `DropExample` is, for every hash function, a query of at most thirteen ranges
  that makes a sender with a limit of 4096 drop a chunk with items in the gap. A list that is cut short does not have this
  problem (`TruncatedReply`).

## Model

| member | source | states |
|---|---|---|
| Types.ItemOrder | cpp/negentropy/types.h:45-51 | The item comparison is the integer order of ranks, in both directions, and a rank determines its item. |
| Types.BoundRankFacts | cpp/negentropy/types.h:54-72 | A bound that is an item ranks like the item, the default bound is the bottom of the space, and infinity is above every item below the infinity timestamp. |
| Accumulators.Accumulator.Add | cpp/negentropy/types.h:98-136 | The four-limb carry loop on the 32-byte buffer is addition modulo 2^256. |
| Accumulators.Accumulator.AddLimb | cpp/negentropy/types.h:109-135 | One limb keeps the carry invariant: the bytes below it and the carry hold the exact sum. |
| Accumulators.Accumulator.Negate | cpp/negentropy/types.h:138-147 | Complement plus one is the additive inverse modulo 2^256. |
| Accumulators.Accumulator.Sub | cpp/negentropy/types.h:149-162 | Subtraction undoes addition of the same id. |
| Accumulators.Accumulator.SetToZero | cpp/negentropy/types.h:86-88 | The buffer stands for zero. |
| Accumulators.WrapCarries | cpp/negentropy/types.h:120-126 | Comparing with an operand after each wrapping addition detects the carry exactly, and at most one of the two additions wraps. |
| Accumulators.ChangesInAnyOrder | cpp/negentropy/types.h:90-162 | The same additions and subtractions in any order give the same sum. |
| Accumulators.RemovalUndoesAddition | cpp/negentropy/types.h:149-162 | Adding an id and later removing it leaves the sum unchanged, whatever happened in between. |
| Accumulators.LeNumInjective | cpp/negentropy/types.h:83-96 | Equal sums have equal bytes. |
| Accumulators.AddWords | js/Negentropy.js:113-133 | The JavaScript loop over eight 32-bit limbs computes the same sum as the C++ one. |
| Fingerprints.GetFingerprint | cpp/negentropy/types.h:168-180 | The fingerprint is the hash of the 32 bytes of the buffer followed by the count in as few digits as possible. |
| Wire.PrintInput | cpp/negentropy/types.h:168-180 | The fingerprint of some items is the hash of 32 bytes that are the sum of their ids, little-endian, and of their number in as few digits as possible. |
| Wire.PrintInputs | docs/negentropy-protocol-v1.md:73-81 | Fingerprints of two lists of items hash the same bytes if and only if the sums of ids and the numbers of items, as 64-bit words, are equal; so equal fingerprints mean these are equal or the hash collides. |
| SortedItems.IdSumIsTotal | docs/negentropy-protocol-v1.md:73-81 | The sum is that of the ids read as little-endian numbers, modulo 2^256. |
| Encoding.EncodeVarInt | cpp/negentropy/encoding.h:42-59 | The bytes spell the number: their lower seven bits are its base-128 digits, most significant first, bit eight is set on all but the last, and the first of several digits is not zero. |
| Encoding.DecodeVarInt | cpp/negentropy/encoding.h:28-40 | The bytes up to the first one below 128 are consumed, and yield the number they spell modulo 2^64; without such a byte the end is premature. |
| Encoding.SpellsExactly | docs/negentropy-protocol-v1.md:13-17 | The bytes written for a number are the only ones that spell it with as few digits as possible. |
| Encoding.NumberIs | cpp/negentropy/encoding.h:28-40 | A number is read from the front of a byte string if and only if it stands there. |
| Encoding.VarIntRoundTrip | cpp/negentropy/encoding.h:28-59 | Every 64-bit number is read back, whatever follows it. |
| Encoding.VarIntShortest | cpp/negentropy/encoding.h:42-59 | No byte string that decodes to a number is shorter than the one written: as few digits as possible. |
| Encoding.VarIntAtMostTen | cpp/negentropy/encoding.h:42-59 | At most ten bytes, and one byte below 128. |
| Wire.BoundRoundTrip | cpp/negentropy.h:263-300 | A bound is read back exactly if and only if its timestamp is not below the one written before; otherwise its timestamp is read as infinity. |
| Wire.RangesRoundTrip | cpp/negentropy.h:263-300 | Ranges with timestamps that do not decrease are read back exactly, with modes and payloads, and all input is consumed. |
| Wire.ModeRefused | cpp/negentropy.h:112-186 | Once bound and mode are read, the range is refused for its mode exactly if the lowest 32 bits of the mode are above 2. |
| Grammar.RangeRead | cpp/negentropy.h:98-186 | Stated by itself: a timestamp code of 0 for infinity or one more than a difference that sticks at infinity, a prefix of at most 32 bytes behind its length, a mode of 32 bits, and a fingerprint of 16 bytes or counted ids of 32 bytes. A range is read exactly if it stands at the front. |
| Grammar.RangeUnread | cpp/negentropy.h:98-186 | Each of the four errors is raised exactly if the bytes show it: a number without an end, fewer bytes than announced, a prefix over 32 bytes, a mode above 2. |
| Grammar.ParseIs | cpp/negentropy.h:93-186 | The ranges of a message are those that stand at its front one after the other, up to its end or up to bytes that are no range, which give the error. |
| Grammar.RangeSpelling | docs/negentropy-protocol-v1.md:35-64 | A range is written exactly as it is spelled: the numbers in as few digits as possible, 0 for infinity or one more than the difference in 64 bits, the length and the prefix, the mode 0, 1 or 2, and the payload. |
| Grammar.MessageSpelling | docs/negentropy-protocol-v1.md:25-64 | A message is written exactly as it is spelled: the byte 0x61 and its ranges, each after the timestamp of the one before. |
| Grammar.CutRange | cpp/negentropy/encoding.h:11-40 | A range that is cut off anywhere is refused: because parsing ends prematurely if the cut is in a prefix, a fingerprint or ids, and because a number ends prematurely otherwise. |
| Grammar.BrokenTail | cpp/negentropy.h:93-186 | Ranges in chronological order followed by bytes that are no range are read up to there, with the error of these bytes. |
| Splits.GetMinimalBound | cpp/negentropy.h:302-317 | The loop over common id bytes computes the separator. |
| Splits.SeparatorSeparates | cpp/negentropy.h:302-317 | The separator of two items lies above the earlier and at or below the later one. |
| Splits.SeparatorIsMinimal | cpp/negentropy.h:302-317 | No bound with the later item's timestamp and a shorter prefix separates them. |
| Splits.BucketSizes | cpp/negentropy.h:223-230 | Sixteen buckets hold all items, and bucket sizes differ by at most one. |
| Coverage.SplitTiles | cpp/negentropy.h:207-255 | The ranges of a split have ascending bounds from the lower to the upper end, leave no gap, contain no Skip, and each describes exactly the own items between its bounds; fewer than 32 items give one id list. |
| Coverage.BucketCovers | cpp/negentropy.h:223-251 | Each bucket's bounds enclose exactly the bucket's items. |
| Replies.ReplyTiles | cpp/negentropy.h:93-202 | Without a limit the reply and the implicit final Skip tile the space: exactly the ranks whose range needs an answer are covered by a range that is not a Skip, each range describes exactly the own items inside it, and a Skip is neither last nor next to another Skip. |
| Replies.RangeTiled | cpp/negentropy.h:98-202 | Each range of a query that needs an answer is tiled exactly by its own reply ranges, after the Skip up to where it starts; any other range adds nothing. |
| Replies.StoppedStays | cpp/negentropy.h:188-195 | After a full frame the rest of the query has no effect. |
| Replies.ArrayNeverFails | cpp/negentropy/storage/Vector.h:58-63 | Over an array no range of a query is refused, in whatever order the bounds come. |
| Replies.TreeFailsExample | cpp/negentropy/storage/btree/core.h:593-601 | Over a tree a query with bounds out of order is refused, which the array answers. |
| RefusedRanges.TreeFailsExactly | cpp/negentropy.h:98-186 | A query fails over a tree exactly if, before the frame is full, a range other than a Skip has a bound with items below it but fewer than the place reached; a query that does not fail goes on from the place of the last bound with items below it. |
| RefusedRanges.TreeFailsUnlimited | cpp/negentropy/storage/btree/core.h:593-601 | Without a frame limit the bounds and kinds of the ranges alone decide whether a tree refuses the query. |
| RefusedRanges.RefusedTimestamp | cpp/negentropy.h:101-186 | When a range is refused, the timestamp written last is that of the reply before it, or of the pending Skip if a responder was asked to list. |
| FrameLimits.OrderedNeverFails | cpp/negentropy.h:98-202 | A query whose bounds are in order is refused by neither storage, under any limit. |
| FrameLimits.FrameBound | cpp/negentropy.h:98-202 | No reply exceeds the frame size limit; before the closing range it is at most the limit minus 200. |
| FrameLimits.StepInFrame | cpp/negentropy.h:164-202 | One range keeps the bound: pending skip, full bound, count, one overshooting id and the closing fingerprint fit in the slack. |
| FrameLimits.OpeningFits | cpp/negentropy.h:48-58 | The first message has at most 997 bytes. |
| FrameLimits.UnstoppedIsUnlimited | cpp/negentropy.h:98-202 | Until the frame is full a limited party does exactly what an unlimited one does. |
| FrameLimits.FullExactly | cpp/negentropy.h:164-195 | For any query and any limit of at least 4096 the frame is declared full if and only if the reply without a limit has more bytes than the limit minus 200. |
| FrameLimits.TruncatedListing | cpp/negentropy.h:160-195 | A list cut short has at least one id, is a prefix of the own items, ends at the first item left out, and always fills the frame; with its last id, and not before, the frame and the ids come within 200 bytes of the limit. |
| FrameLimits.TruncatedReply | cpp/negentropy.h:160-195 | After a list cut short the reply ends with a fingerprint of exactly the items from the list's end bound on, and every range of the reply is exact. |
| FrameLimits.RepliesHonestly | cpp/negentropy.h:80-205 | Under any limit a reply to an ordered message is ordered and each id list is exactly the responder's items between its two bounds. |
| DroppedChunks.ClosingAfterDrop | cpp/negentropy.h:188-195 | When the run over an ordered query drops a chunk, what was sent before is exact; the closing fingerprint is of the items the receiver takes it for exactly if the sender has none from the last bound sent to the end of the dropped range, and the reply is exact only if it is equal to the fingerprint of those items. |
| DroppedChunks.DropExample | cpp/negentropy.h:188-195 | For every hash function, a limit of 4096 and a query of at most thirteen ranges drop a chunk with own items in that gap. |
| Messages.RepliesInTime | cpp/negentropy.h:80-205 | Whatever bytes are asked about, the timestamps of a reply never decrease. |
| Messages.ReplyRoundTrip | cpp/negentropy.h:263-300 | The bytes of any reply, limited or not, are read back as the intended ranges and consumed completely. |
| Messages.ParsedInTime | cpp/negentropy.h:263-276 | Timestamps read from any bytes never decrease. |
| Messages.OpeningRoundTrip | cpp/negentropy.h:48-58 | The first message is read as meant if and only if the last written timestamp is 0 or there are fewer than 32 items. |
| Reports.RangeReported | cpp/negentropy.h:136-156 | Comparing one list reports exactly the differences inside its range, each once. |
| Reports.MessageReports | cpp/negentropy.h:127-156 | The reports of a whole message are exactly the differences in its listed ranges, each once, and nothing else; a full frame cuts the ranges looked at. |
| Conversations.OpeningTiles | cpp/negentropy.h:48-58 | The first message tiles the whole space up to infinity and describes the client's items exactly. |
| Conversations.RunIsSound | cpp/negentropy.h:64-205 | Under any frame limits and any fingerprint function, every reported have id is held by the client and not the server, and every need id the reverse, at any point of a run. |
| Conversations.RunSettles | cpp/negentropy.h:80-205 | The run invariant: items under a skipped range are fully reported, items under any other range not at all. |
| Conversations.RunIsExact | cpp/negentropy.h:80-205 | When a run without limits is over, the have ids are exactly client minus server and the need ids exactly server minus client, each once. |
| Conversations.ClientShrinks | cpp/negentropy.h:207-255 | The fingerprints of a client's next message cover at most a sixteenth, rounded up, of what its previous ones covered, and there are none if that was fewer than 32 items. |
| Conversations.RunIsShort | cpp/negentropy.h:207-255 | If client message n has a fingerprint, so had all before it, and the client has more than 31 * 16^n items; after a message without one nothing follows the server's answer. |
| Conversations.RunEnds | cpp/negentropy.h:207-255 | Every run without limits ends after logarithmically many messages, for any fingerprint function. |
| SortedItems.IdSumIsNet | cpp/negentropy/storage/Vector.h:65-75 | The sum of a range of items is what adding their ids one by one gives. |
| Vectors.SortedInOrder | cpp/negentropy/storage/Vector.h:28 | Sorting yields the items in order. |
| Vectors.Vector.Insert | cpp/negentropy/storage/Vector.h:14-18 | Appends an item unless the storage is sealed or the id has the wrong size. |
| Vectors.Vector.Seal | cpp/negentropy/storage/Vector.h:24-33 | Sorts in place, keeps all items, and fails exactly if already sealed or if two items are equal; it stays sealed in either case. |
| Vectors.Vector.Size | cpp/negentropy/storage/Vector.h:39-42 | The number of items, or an error if the storage is not sealed. |
| Vectors.Vector.GetItem | cpp/negentropy/storage/Vector.h:44-47 | The item at a position, or an error if there is none or the storage is not sealed. |
| Vectors.Vector.Iterate | cpp/negentropy/storage/Vector.h:49-56 | Visits exactly the positions of the range in order until the callback stops. |
| Vectors.Vector.FindLowerBound | js/Negentropy.js:235-252 | The halving loop finds the first position in the range whose item is not below the bound. |
| Vectors.Vector.Fingerprint | cpp/negentropy/storage/Vector.h:65-75 | The hash of the sum of the ids in the range, as 32 bytes, and of their number in as few digits as possible. |
| BTreeNodes.SharingNeedsThreshold | cpp/negentropy/storage/btree/core.h:38-58 | Rebalancing leaves both neighbours at least MIN_ITEMS keys if and only if the threshold is at least twice MIN_ITEMS; the static assertions do not imply that, and both shipped sets of constants meet it. |
| BTrees.BTree.SearchItem | cpp/negentropy/storage/btree/core.h:132-158 | The breadcrumbs lead from the root to the leaf where the item belongs, and the item is found if and only if it is stored. |
| BTrees.BTree.FindSlot | cpp/negentropy/storage/btree/core.h:140-150 | The scan over the stored slots, one slot past the used ones, ends at the last key not above the item: the slot read behind the last key is zero. |
| BTrees.BTree.InsertItem | cpp/negentropy/storage/btree/core.h:167-294 | Keeps the whole invariant, with all unused slots of all nodes zero; adds exactly the new item at its place, and returns false exactly if it is present, with nodes, slots, root and next id left as they were. |
| BTrees.BTree.InsertAt | cpp/negentropy/storage/btree/core.h:200-269 | One breadcrumb of an insertion hands the invariant to the next level, whether the node fits the key or is split. |
| BTrees.BTree.SplitNode | cpp/negentropy/storage/btree/core.h:220-266 | A full node is split, packed at the right edge and evenly elsewhere, with links, sums and counts of both halves. |
| BTrees.BTree.PlaceKey | cpp/negentropy/storage/btree/core.h:206-266 | The key is merged into the node if it has room, and otherwise the node is split and a key for its right half is handed up. |
| BTrees.BTree.InsertFirst | cpp/negentropy/storage/btree/core.h:168-182 | The first item makes a root leaf. |
| BTrees.BTree.Accumulate | cpp/negentropy/storage/btree/core.h:520-529 | Adding up keys one by one gives their total weight. |
| BTrees.BTree.MakeRoot | cpp/negentropy/storage/btree/core.h:273-291 | A split root gets a new root above its halves. |
| BTrees.BTree.EraseItem | cpp/negentropy/storage/btree/core.h:304-498 | Keeps the whole invariant, with all unused slots of all nodes zero; removes exactly the item, and returns false exactly if it is absent, with nodes, slots, root and next id left as they were. |
| BTrees.BTree.EraseAt | cpp/negentropy/storage/btree/core.h:321-484 | One breadcrumb of an erasure hands the invariant to the next level. The node is evened out with a neighbour exactly if it is left with fewer keys than MIN_ITEMS and its parent has more than one child, with the right one if it is the first child and with the left one otherwise; else it is removed exactly if it is empty. |
| BTrees.BTree.UpdateNode | cpp/negentropy/storage/btree/core.h:325-347 | The node loses the item's weight and the key of a deleted child, and the keys of changed children are refreshed. |
| BTrees.BTree.EvenOutRight | cpp/negentropy/storage/btree/core.h:422-447 | The node merges into its right neighbour exactly if together they have at most REBALANCE_THRESHOLD keys; otherwise they share the keys, the left one taking half rounded up. The invariant goes up. |
| BTrees.BTree.EvenOutLeft | cpp/negentropy/storage/btree/core.h:448-473 | The same with the left neighbour. |
| BTrees.BTree.Rebalance | cpp/negentropy/storage/btree/core.h:351-420 | Two neighbours share their keys evenly in either direction, with sums and counts moved along. |
| BTrees.BTree.ShareToLeft | cpp/negentropy/storage/btree/core.h:360-388 | Keys move in place from the front of the right node to the end of the left one, with their weight; slots they leave are zero. |
| BTrees.BTree.ShareToRight | cpp/negentropy/storage/btree/core.h:389-419 | Keys move in place from the end of the left node to the front of the right one, with their weight; slots they leave are zero. |
| BTrees.BTree.MergeIntoRight | cpp/negentropy/storage/btree/core.h:429-442 | All keys move into the right neighbour, which takes over the left link. |
| BTrees.BTree.MergeIntoLeft | cpp/negentropy/storage/btree/core.h:455-467 | All keys move into the left neighbour, which takes over the right link. |
| BTrees.BTree.UnlinkNode | cpp/negentropy/storage/btree/core.h:476-483 | An emptied node leaves its sibling chain and the store. |
| BTrees.BTree.FinishErase | cpp/negentropy/storage/btree/core.h:486-497 | An emptied tree loses its root, and a root with a single child is replaced by it. |
| BTrees.BTree.Insert | cpp/negentropy/storage/btree/core.h:163-165 | An id of the wrong size is an error and leaves every field as it was. |
| BTrees.BTree.Erase | cpp/negentropy/storage/btree/core.h:300-302 | An id of the wrong size is an error and leaves every field as it was. |
| BTreeInsert.InsertLift | cpp/negentropy/storage/btree/core.h:190-269 | What an insertion did to one level is exactly the change pending one level up, with the left-most key repaired. |
| BTreeErase.EraseLift | cpp/negentropy/storage/btree/core.h:321-484 | What an erasure did to one level is exactly the change pending one level up, with the keys of changed children refreshed. |
| BTreeErase.InsertThenErase | cpp/negentropy/storage/btree/core.h:163-498 | A new item adds exactly itself to the contents, and erasing it restores them. |
| BTreeErase.EraseThenInsert | cpp/negentropy/storage/btree/core.h:163-498 | Erasing removes exactly the item, and inserting it again restores the contents. |
| BTreeRewrite.SplitLevel | cpp/negentropy/storage/btree/core.h:222-266 | A level whose node is split is a correct level again. |
| BTreeRewrite.RebalanceLevel | cpp/negentropy/storage/btree/core.h:351-420 | A level with two rebalanced neighbours is a correct level again. |
| BTreeRewrite.MergeLevel | cpp/negentropy/storage/btree/core.h:422-473 | A level with two merged neighbours is a correct level again. |
| BTreeRewrite.DropLevel | cpp/negentropy/storage/btree/core.h:476-483 | A level without its emptied last node is a correct level again. |
| BTreeOffsets.StartIsPrefix | cpp/negentropy/storage/btree/core.h:531-552 | At every level the nodes before a node account for a prefix of the items, in sum and in count. |
| BTreeOffsets.LoneInterior | cpp/negentropy/storage/btree/core.h:540-544 | An interior node with as many keys as items has a single key, is the last of its level and holds only the last item. |
| SortedItems.TreeMatchesArray | cpp/negentropy/storage/btree/core.h:593-601 | The tree's lower bound equals the array's exactly if all items before the range are below the bound or none is. |
| SortedItems.TreeGoesBackExample | cpp/negentropy/storage/btree/core.h:593-601 | After both of two items, the tree finds the second one again where the array stays behind it. |
| BTrees.BTree.TraverseToOffset | cpp/negentropy/storage/btree/core.h:531-552 | The walk ends in the node that holds the wanted position, with the ids of everything to its left summed up. |
| BTrees.BTree.TraverseToOffsetAux | cpp/negentropy/storage/btree/core.h:540-552 | The walk within a subtree ends at the wanted position, or passes over the whole subtree and has summed it up. |
| BTrees.BTree.AccumLeftOf | cpp/negentropy/storage/btree/core.h:623-636 | The sum of the ids before a position, from whole subtrees and part of one node. |
| BTrees.BTree.GetItem | cpp/negentropy/storage/btree/core.h:565-573 | Item i of the sorted sequence, or an error past the end. |
| BTrees.BTree.Size | cpp/negentropy/storage/btree/core.h:558-563 | The number of stored items. |
| BTrees.BTree.Iterate | cpp/negentropy/storage/btree/core.h:575-591 | Visits exactly the positions of the range in order across leaves until the callback stops. |
| BTrees.BTree.FindLowerBound | cpp/negentropy/storage/btree/core.h:593-601 | The number of smaller items clamped to the end of the range, with the two early answers of the source. |
| BTrees.BTree.FindLowerBoundAux | cpp/negentropy/storage/btree/core.h:603-618 | The count gathered on the way down is the number of smaller items. |
| BTrees.BTree.RangeSum | cpp/negentropy/storage/btree/core.h:620-641 | Prefix sum plus negated prefix sum is the sum of exactly the ids in the range. |
| BTrees.BTree.Fingerprint | cpp/negentropy/storage/btree/core.h:620-643 | The same for the tree: the hash of the sum of the ids in the range, as 32 bytes, and of their number in as few digits as possible. |
| BTreeVerify.Verify | cpp/negentropy/storage/btree/debug.h:107-185 | A valid tree passes every check. A store that passes is empty, or there are ascending contents and levels of nodes such that the leaves hold exactly the contents, every other level exactly the first items and ids of the one below, and the top level is the root; every stored node stands in them exactly once and is sized, weighed, ordered, indexed and zeroed as in a valid tree; and the leaves are linked in both directions. |
| BTreeVerify.PassingIsTree | cpp/negentropy/storage/btree/debug.h:107-185 | A store that passes is a valid tree with these contents exactly if what the check does not look at is in order: the links of inner levels, the link behind the last leaf, two children of a root that is no leaf, ids below the next one, and the constants. |
| BTreeRows.RowsShape | cpp/negentropy/storage/btree/debug.h:48-105 | The nodes that a walk comes by, depth by depth, are the levels of a tree if none is seen twice, keys show their children's first items, inner nodes hold no items and the items of the leaves ascend. |
| BTreeVerify.ValidIsGiven | cpp/negentropy/storage/btree/debug.h:48-105 | A valid tree meets what the check takes for granted: all children are stored and every node has its slots. |
| BTreeVerify.VerifyNode | cpp/negentropy/storage/btree/debug.h:48-105 | The walk over a subtree finds no error in a valid tree; without an error it has added up the subtree and checked every node it saw, none of them twice; depth by depth, each row of nodes is the children of the row above, the last row is the leaves it listed, and the count is that of their items unless inner nodes hold items too. |
| BTreeVerify.CheckZeroed | cpp/negentropy/storage/btree/debug.h:96-98 | Passes exactly if all slots behind the used ones are zero. |
| BTreeVerify.VerifyLeaves | cpp/negentropy/storage/btree/debug.h:115-139 | The chain of a valid tree's leaves passes; a chain that passes runs through leaves in the order they were seen, linked both ways, and out of the store, and its items ascend and are as many as counted. |
| BTreeVerify.VerifyStore | cpp/negentropy/storage/btree/debug.h:173-183 | Passes exactly if the nodes seen are the nodes stored: no leaks and no dangling nodes. |
| BTreeVerify.AllSeen | cpp/negentropy/storage/btree/debug.h:173-183 | After the walk exactly the stored nodes have been seen, and the leaves in chain order. |
| NodeSlots.Slots.Add | cpp/negentropy/storage/btree/core.h:208-215 | Merging a key into the slots in place keeps them ascending and the unused slots zero. |
| NodeSlots.Slots.MergeLast | cpp/negentropy/storage/btree/core.h:210-211 | The key behind the used slots is merged into them in order. |
| NodeSlots.Slots.Split | cpp/negentropy/storage/btree/core.h:222-255 | The slots of a full node and its new neighbour hold the merged keys in order, unused slots zero. |
| NodeSlots.Slots.RemoveAtSlot | cpp/negentropy/storage/btree/core.h:331-333 | Shifting down removes exactly one key and zeroes the slot that becomes free. |
| NodeSlots.MoveLeft | cpp/negentropy/storage/btree/core.h:360-388 | The first keys of the right node move behind those of the left one; the slots they leave become zero. |
| NodeSlots.MoveRight | cpp/negentropy/storage/btree/core.h:389-419 | The last keys of the left node move in front of those of the right one; the slots they leave become zero. |
| NodeSlots.MoveIntoRight | cpp/negentropy/storage/btree/core.h:432-435 | The right node's slots hold the left keys followed by its own. |
| NodeSlots.MoveIntoLeft | cpp/negentropy/storage/btree/core.h:458-460 | The left node's slots hold its own keys followed by the right ones. |
| LmdbStores.BTreeLMDB.constructor | cpp/negentropy/storage/BTreeLMDB.h:41-47 | Opening yields the stored metadata, or that of a new tree, and the stored nodes. |
| LmdbStores.BTreeLMDB.GetNodeRead | cpp/negentropy/storage/BTreeLMDB.h:68-78 | Reads through the cache what an in-memory store would hold; a missing node is an error. |
| LmdbStores.BTreeLMDB.GetNodeWrite | cpp/negentropy/storage/BTreeLMDB.h:80-97 | Copies a node into the cache without changing what the store stands for. |
| LmdbStores.BTreeLMDB.SetNode | cpp/negentropy/storage/BTreeLMDB.h:80-103 | A change through a node pointer has the effect it has in memory. |
| LmdbStores.BTreeLMDB.MakeNode | cpp/negentropy/storage/BTreeLMDB.h:99-103 | The new id is the next one and is not in use; the node starts empty. |
| LmdbStores.BTreeLMDB.DeleteNode | cpp/negentropy/storage/BTreeLMDB.h:105-109 | Removes a node from cache and table as from memory; metadata cannot be deleted. |
| LmdbStores.BTreeLMDB.Flush | cpp/negentropy/storage/BTreeLMDB.h:53-63 | Afterwards the table alone holds the node map and the metadata, so reopening gives the same tree; other trees are untouched. |
| LmdbStores.FreshId | cpp/negentropy/storage/BTreeLMDB.h:99-103 | No node in cache or table has the next id. |
| LmdbStores.OtherTreeUndisturbed | cpp/negentropy/storage/BTreeLMDB.h:122-142 | Calls on one tree keep the cache of another tree over the same table valid. |
| BTrees.BTree.MakeNode | cpp/negentropy/storage/BTreeMem.h:28-32 | The in-memory store hands out the next id with an empty node. |
| BTrees.BTree.DeleteNode | cpp/negentropy/storage/BTreeMem.h:34-36 | The in-memory store forgets the node. |
| BTrees.BTree.WriteNode | cpp/negentropy/storage/BTreeMem.h:24-26 | A write through a node pointer changes that node only, and is one call of the list. |
| BTrees.BTree.SetRootNodeId | cpp/negentropy/storage/BTreeMem.h:42-44 | The root id is kept, and setting it is one call of the list. |
| PersistentTrees.MakeCall | cpp/negentropy/storage/BTreeLMDB.h:66-117 | A call changes what the LMDB storage shows exactly as it changes the in-memory one, and leaves other trees in the table alone. |
| PersistentTrees.MakeCalls | cpp/negentropy/storage/BTreeLMDB.h:66-117 | So does any list of calls that writes and deletes stored nodes only. |
| PersistentTrees.Save | cpp/negentropy/storage/BTreeLMDB.h:41-63 | When the calls of a tree were made to the storage and it was flushed, opening it again shows the nodes, the root and the next id of the tree, from the table alone. |
| PersistentTrees.Change | cpp/README.md:71-84 | An insertion or erasure, a flush and a fresh start from the table give a valid tree with exactly the changed contents. |
| PersistentTrees.ChangeAll | cpp/README.md:71-84 | After any sequence of insertions and erasures, each flushed and opened again, the table holds a valid tree with the contents these changes lead to, and other trees in the table are untouched. |
| PersistentTrees.LastEditDecides | cpp/README.md:71-84 | Those contents are in order and hold exactly the items whose last change was to add them. |
| Storages.Storage.FindLowerBound | cpp/negentropy/storage/base.h:15 | The answer of either storage for any bound, or the error for a bad range; `TreeMatchesArray` says where they agree. |
| Storages.Storage.Fingerprint | cpp/negentropy/storage/base.h:17 | Array and tree give the same fingerprint for the same items and range, the hash of their sum and number, or the same error. |
| Storages.Storage.Size | cpp/negentropy/storage/base.h:9 | The number of items, or an error for an unsealed array. |
| Storages.Storage.Slice | cpp/negentropy/storage/base.h:13 | Array and tree iterate over the same items, or give the same error. |
| Negentropies.Negentropy.Create | cpp/negentropy.h:44-46 | Succeeds exactly for a limit of 0 or at least 4096. |
| Negentropies.Negentropy.Initiate | cpp/negentropy.h:48-58 | The byte 0x61 and the split of the whole set as it is spelled against the timestamp written last, which becomes infinity; fails if initiated before. |
| Negentropies.Negentropy.Reconcile | cpp/negentropy.h:64-69 | For any bytes: the error or the version byte for other versions, else the ranges at the front of the query are answered up to its end, a full frame, a refused range or bytes that are no range, and only the last two fail. Without a limit it succeeds exactly if the query is ranges to its end and none is refused. Within the limit, with the timestamp written last, after an error too. |
| Negentropies.Negentropy.ReconcileIds | cpp/negentropy.h:71-77 | The same for the initiator, with the reports appended to the caller's lists. Without a limit it succeeds exactly if the query is ranges to its end and none is refused; nothing is returned only if all bytes were read as ranges and the reply has none. |
| Negentropies.Negentropy.ReconcileAux | cpp/negentropy.h:80-205 | For any bytes over either storage: exactly the reply, the reports or the error, by the version byte and the ranges at the front of the query, and in each case the timestamp of the last range written, sent or not. |
| Negentropies.Negentropy.ReconcileRanges | cpp/negentropy.h:93-204 | The loop over the ranges of a query: it ends with the input, with a range that cannot be read unless the frame was full before, with a range the storage refuses, or with a full frame, and leaves the written timestamp where the state machine says. |
| Negentropies.ReplyMeans | cpp/negentropy.h:93-204 | The answer to ranges at the front of a query: "bad range" if one is refused, the message if all bytes are ranges or the frame was full, else the error of the bytes behind them. |
| Negentropies.SuccessMeans | cpp/negentropy.h:93-204 | Without a limit a query is answered exactly if it is ranges to its end and none is refused. |
| Negentropies.Negentropy.OneRange | cpp/negentropy.h:109-186 | Reading and answering one range, or the error of the input or of the storage, raised before anything is reported; the written timestamp changes only by the Skip that a refused list has already written. |
| Negentropies.Negentropy.OnePayload | cpp/negentropy.h:115-186 | The payload is read and answered by mode; an unknown mode or a short input is an error and changes nothing, and a refused range changes at most the written timestamp. |
| Negentropies.Negentropy.AnswerPrint | cpp/negentropy.h:117-126 | A differing fingerprint is answered by a split after the pending skip. |
| Negentropies.Negentropy.CompareIds | cpp/negentropy.h:127-156 | The loops over the received and the own ids report the differences. |
| Negentropies.ReadIdList | cpp/negentropy.h:128-134 | The loop reads as many ids as announced or reports a premature end. |
| Negentropies.MatchIds | cpp/negentropy.h:139-151 | The loop over the own items splits the ids into those only here and those left over. |
| Negentropies.AppendAll | cpp/negentropy.h:153-156 | All ids left over are appended, each once. |
| Negentropies.Negentropy.ListIds | cpp/negentropy.h:157-183 | The responder lists its ids up to the first that finds the frame full; if the storage refuses the range, the pending Skip is already written, and its timestamp is the last one. |
| Negentropies.Negentropy.CollectIds | cpp/negentropy.h:160-174 | Ids are collected up to the first item that finds the frame full, which becomes the end bound: 32 bytes for each id bring the frame within 200 bytes of the limit, and one id less does not. |
| Negentropies.Negentropy.EncodeListing | cpp/negentropy.h:158-182 | The pending skip, the end bound, the count and the ids, as bytes. |
| Negentropies.Negentropy.EncodeSplit | cpp/negentropy.h:207-255 | The bytes of the ranges of a split, with the written timestamp left at the upper bound. |
| Negentropies.Negentropy.EncodeBuckets | cpp/negentropy.h:222-252 | The loop over sixteen buckets writes the ranges of the split in order. |
| Negentropies.Negentropy.DoSkip | cpp/negentropy.h:101-107 | A pending skip is written up to the previous bound. |
| Negentropies.Negentropy.EncodeBound | cpp/negentropy.h:280-300 | The number of the timestamp, the length and the prefix, the numbers in as few digits as possible; the timestamp becomes the last one. |
| Negentropies.Negentropy.EncodeTimestampOut | cpp/negentropy.h:280-290 | Spells 0 for infinity and 1 + (t - last) for a later or equal timestamp, modulo 2^64 for an earlier one; the timestamp becomes the last one. |
| Negentropies.Negentropy.DecodeTimestampIn | cpp/negentropy.h:263-270 | Of the number c at the front, 0 yields infinity, and any other last + c - 1, or infinity if that exceeds 64 bits; without a number the end is premature. |
| Negentropies.Negentropy.DecodeBound | cpp/negentropy.h:263-276 | A bound exactly if one stands at the front, and each error exactly if the bytes show it. |
| Negentropies.ReplyFits | cpp/negentropy.h:80-205 | Whatever is asked, the answer keeps to the frame size limit. |
| Negentropies.FrameFull | cpp/negentropy.h:188-195 | When the frame is full the closing bytes are right although the dropped chunk already advanced the written timestamp. |
| Negentropies.RangeFails | cpp/negentropy.h:98-186 | After an error of the input or of the storage, the rest of the query does not matter, and what was sent, reported and written before stays. |
| Syncing.ExchangeOnce | cpp/negentropy.h:64-77 | One exchange over bytes is one round of the run. |
| Syncing.Start | cpp/negentropy.h:48-58 | A fresh client's first message is the opening of the run. |
| Syncing.Sync | cpp/negentropy.h:48-77 | Without frame limits the loop of a client and a server ends, and the collected ids are exactly the differences, each once. |
| Syncing.SyncFor | cpp/negentropy.h:48-77 | Under any limits the loop makes the given number of exchanges, or fewer if the client has nothing more to ask; what is collected by then is what the run has reported, and only differences. |
| Syncing.AnswerBroken | cpp/negentropy.h:64-204 | A party of either role that is sent a message followed by bytes that are no range fails with exactly the error of these bytes, unless its frame was full before; without a limit it always fails. |
| Syncing.AnswerCut | cpp/negentropy/encoding.h:11-40 | So it does on a message cut off inside its last range, with the error that depends on what the cut goes through. |
| Syncing.AnswerThenInitiate | cpp/negentropy.h:48-69 | One object answers any query, or fails on it, and then initiates: its first message is read as meant exactly if the timestamp written last was 0 or it has fewer than 32 items. |
| Syncing.StaleOpening | cpp/negentropy.h:48-69 | Every object with at least 32 items that has answered a list up to second 5 sends a first message that is not read as meant. |

## Left out

- SHA-256 itself: a function parameter; collision freedom on the two given sets is an explicit hypothesis where it is needed.
- LMDB itself: a map keyed by tree id and number; the 16-byte keys, transactions and crashes are not modelled.
- Raw pointers, `memcpy` and endianness: nodes are values in a map, and a node's slots are loaded into an array to be changed and stored back; a pointer kept across a flush is not modelled.
- BTrees.BTree: a node's sum is a number, not the byte buffer; `Accumulators` proves the buffer operations against the arithmetic on numbers that the tree uses. The map of slots repeats the used keys of the map of nodes.
- 64-bit overflow of node ids, item counts and sizes: these are unbounded; storages of the protocol object are required to hold fewer than 2^64 items.
- Completeness under a frame size limit: a closing fingerprint may not match the range the receiver reads (see `ClosingAfterDrop`); only soundness, size, truncation and wire properties are claimed there.
- Callbacks with side effects: `iterate` takes a pure callback and returns the items visited; the loops of the protocol object run over those items.
- `std::sort`, `std::reverse` and `std::inplace_merge`: replaced by an insertion sort, a function and an insertion into the slots.
- Destroying a storage, `SubRange`, the C wrapper, the drivers in other languages, and the JavaScript protocol class and its unused `negate`.
- Negentropies.Negentropy.ReconcileAux: an array storage must have been sealed without an error.
- Negentropies.Negentropy.Initiate: over an unsealed array the error is modelled, but not which other fields an exception in the middle of a call leaves changed.
- BTreeVerify.VerifyLeaves: where the chain goes on past the leaves that were seen, the source reads past the end of a list; that is an error here.
- BTreeVerify.Verify: the root and all children must be stored, since the source dereferences them unchecked; its leak check over LMDB is not modelled.
- PersistentTrees.ChangeAll: the tree's calls are made to the LMDB storage after the operation, not during it.
- LmdbStores.BTreeLMDB: the stored nodes are their used keys, counts, links and sums; their unused slots are not repeated there.
- LmdbStores.BTreeLMDB.SetNode: stands for all changes through a node pointer while the node is in the cache.
