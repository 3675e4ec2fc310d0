# go-mini-opera in Dafny

A model of the hard parts of a Lachesis-based node, and proofs about it.

- **Weighted random selection** (`WeightedSlots`, `WeightedChance`, `WeightedSelect`): the growing 8-ary tree with its index map is a map from items to positive weights; every stored item is selected by exactly as many random values as it weighs; the retrying `choose` is a function of its random draws, terminates whatever the weights do meanwhile, and averaged over all draws returns items in proportion to their weights.
- **Event codec** (`Numbers`, `FastBits`, `GenericBits`, `BitArrays`, `FastBuffer`, `EventCodec`, `EventLaws`, `EventForms`, `EventLayout`, `EventSerializer`, `EventBuild`): the encoder and the decoder, as loops over buffers and bit headers, compute the functions `Encode` and `Decode`; for these, round trip, the exact set of byte strings that decode to an event, the place of every field and the cause of every error on the bytes, injectivity of the signed bytes and of identifiers, detection of truncation, and agreement of cached with recomputed hash and size.
- **Event processing** (`EventOrder`, `Consensus`, `ConsensusSafety`, `ConsensusRuns`, `GossipService`, `PackServer`): the store with its caches, the block callbacks and `processEvent` compute a step function on the tables; over every run packs partition the events and their records add up the events' sizes, pinned packs never change, heads are exactly the childless events and cover all others, and blocks are append-only and independent of the order of application.
- **Server pool** (`PoolQueue`, `PoolView`, `ServerPool`): the two access queues are bounded sequences in order of last access; every turn of the event loop is a step of a relation on what can be seen of the pool (table, states, flags, evictions), and over every run the counters obey a conservation law in which each difference is traced to the event that caused it; dialing terminates; a restart restores the order of the known nodes.
- **Exec queue and migrations** (`ExecQueue`, `Migration`): every interleaving of callers and worker; every series of failing and repeated executions.

Methods model code that changes things in place; each is tied by its `ensures` to a function or to an invariant, and the lemmas are about those.

## Where the code does less than it says

- The generic bit array never flushes the high bits of a last number that straddles two bytes. `BitArrays.LosslessIff` says for which widths and lengths it is lossless, `BitArrays.GenericRoundTrip` what comes back otherwise.
- The decoder accepts encodings it would not produce. `EventForms.CanonicalIff` names the header bits, `EventForms.AcceptedIff` and `EventForms.OtherForms` give them all for every event, and `EventBuild.CachesIff` and `EventBuild.WrongCaches` show that exactly for those inputs the cached hash is of other bytes than the signed ones.
- A truncated event is refused only if more bytes are missing than the payload has (`EventLaws.TruncationDetected`).
- Setters leave the caches: what `Build` makes of them is right if and only if nothing but the signature or the epochs of the parents changed (`EventBuild.BuildAfterSetters`, `EventBuild.StaleIff`).
- An engine call that fails after it has sealed the epoch leaves heads of the old epoch in the table, and the new epoch's blocks in place (`ConsensusRuns.FailedHeadsIff`, `ConsensusRuns.FailureAfterSealBreaksHeads`). Everything else is proved for such engines too; `ConsensusRuns.HeadsExactAfter` says after which runs the heads are exact.
- `clear` during a running function loses the next accepted one (`ExecQueue.LostIffHazard`, `ExecQueue.ClearLosesTheNext`).
- The comment on `connect` says that a connection the pool did not dial should be rejected; the code accepts it without counting it. Each counter is exact if and only if no event of the run met that branch with an entry of its flag (`ServerPool.ServerPool.RunOfNew`); `ServerPool.UndialedLosesPlace` drives one below zero.
- The target of five servers does not bound their number: discovered entries are dialed only up to five in all, but without fast discovery known entries are then dialed up to five of them, however many others there are (`ServerPool.ServerPool.CheckDial`).
- The timer of a dialed entry is ignored once the entry has been evicted, so the place it holds is never given back: it stays dialed in every further run, and the counters can never again fall below the number of such entries less the undialed connections (`PoolView.StuckForever`, `ServerPool.ServerPool.RunStuck`).
- A peer refuses a pack record without heads as an empty message, but such records are pinned and served: exactly those closed by an input that found no heads, which is when the epoch had no event and none was left over (`ConsensusRuns.EveryPinnedPack`, `ConsensusRuns.HeadlessIff`); `ConsensusRuns.HeadlessPack` is a run that pins one.

## Assumptions

- sha256, Keccak and signing are arbitrary functions. An identifier is the epoch and the Lamport time, four big-endian bytes each, and the first 24 bytes of the hash.
- Weights are non-negative integers of any size; random draws are arbitrary values in their range, and a chance is the average over all of them.
- Input slices have no spare capacity, so that reading past the end panics; the decoder's recovered panic is the error `Invalid`. An event has fewer than 2^32 parents.
- The consensus engine applies the Atropos of a block among its events. The epoch check is equality with the current epoch, and an event reaches `processEvent` only after its parents, which are of its epoch.
- Tables are maps and sets; the 32-bit numbers of epochs, packs and blocks do not overflow. The size of a pack does wrap at 32 bits, as in the code.
- The server pool has been started, so its server is set. Timers and network requests are events that may arrive at any time; entries are registered and disconnected only while their connection is live.

## Model

| member | source | states |
|---|---|---|
| WeightedSlots.FullIffNoFree | gossip/randselect.go:90-97 | a row of slots is full exactly when the search for a free slot runs off its end |
| WeightedSlots.TalliedUpdate | gossip/randselect.go:98-100 | rewriting one slot below one branch and adding the difference keeps all partial sums and the item count right |
| WeightedSlots.FlatFirstFree | gossip/randselect.go:90-114 | the first free slot of a node is that of its first branch with room |
| WeightedSlots.FlatPick | gossip/randselect.go:142-153 | descending into a branch is a prefix-sum search over the flattened leaves |
| WeightedSlots.PickInterval | gossip/randselect.go:142-153 | a slot is picked exactly by the values from the sum of the earlier weights up to that sum plus its weight |
| WeightedSlots.SelectedInProportion | gossip/randselect.go:142-153 | the number of random values that select a slot is its weight |
| WeightedSlots.StoredInProportion | gossip/randselect.go:142-153 | the number of random values that choose an item is its stored weight |
| WeightedSlots.KeptInProportion | gossip/randselect.go:67-75 | counting pairs of draws, an item whose weight dropped is kept in proportion to its current weight |
| WeightedChance.RejectedFell | gossip/randselect.go:73-75 | a round rejects the item it drew if and only if the item's weight fell and the second draw is not below the current weight |
| WeightedChance.KeepSum | gossip/randselect.go:73-75 | of the second draws, as many keep the item as it still weighs, and all others lead to a row with the same shares |
| WeightedChance.ReturnsInProportion | gossip/randselect.go:58-77 | averaged over all draws of all rounds, choose returns an item with a chance equal to its share in the current weights, a rise being seen only once the item is drawn |
| WeightedSlots.WriteIsPut | gossip/randselect.go:37-56 | writing or freeing a slot together with the index map is one update of the map from items to weights |
| WeightedSlots.AppendFrees | gossip/randselect.go:46-52 | adding free slots behind the row changes neither the index nor the stored weights |
| WeightedSlots.EmptyIffWeightless | gossip/randselect.go:64-66 | the sum of the weights is zero exactly when the set is empty |
| WeightedSelect.Node.Empty | gossip/randselect.go:22 | a node without items is valid and has only free slots |
| WeightedSelect.Node.Above | gossip/randselect.go:46-51 | the root added above a full one keeps its slots, in front, and its sums |
| WeightedSelect.Node.SkippedIffFull | gossip/randselect.go:92 | the loop of insert skips a branch exactly when it has no free slot |
| WeightedSelect.Node.FirstRoom | gossip/randselect.go:91-97 | finds the branch of the first free slot of the row; the panic is unreachable |
| WeightedSelect.Node.Install | gossip/randselect.go:98-113 | rewriting one branch and the counters gives a valid node with exactly one slot changed |
| WeightedSelect.Node.Insert | gossip/randselect.go:90-114 | takes the first free slot of the row, returns its index and changes no other slot |
| WeightedSelect.Node.Locate | gossip/randselect.go:130-132 | division by the branch size finds the branch and the place of a slot |
| WeightedSelect.Node.SetWeight | gossip/randselect.go:118-139 | rewrites one used slot, frees it for weight zero, returns the difference and keeps all sums |
| WeightedSelect.Node.Choose | gossip/randselect.go:142-153 | returns the item and weight of the slot that the prefix-sum search over the row picks; the panic is unreachable |
| WeightedSelect.WeightedRandomSelect.constructor | gossip/randselect.go:21-23 | the new set is empty |
| WeightedSelect.WeightedRandomSelect.SetWeight | gossip/randselect.go:37-56 | the map from items to weights changes at the item only, the sum by the difference, and no item changes its index, also across growth |
| WeightedSelect.WeightedRandomSelect.Reset | gossip/randselect.go:39-43 | a stored item gets the weight, or is removed for zero |
| WeightedSelect.WeightedRandomSelect.Add | gossip/randselect.go:53 | a new item is stored and all others keep their index |
| WeightedSelect.WeightedRandomSelect.Grow | gossip/randselect.go:46-52 | a level is added without changing the set or any index, and makes room |
| WeightedSelect.WeightedRandomSelect.Update | gossip/randselect.go:27-29 | sets the item's weight to its current one |
| WeightedSelect.WeightedRandomSelect.Remove | gossip/randselect.go:32-34 | removes the item and nothing else |
| WeightedSelect.WeightedRandomSelect.Draw | gossip/randselect.go:67-68 | any draw below the sum gives a stored item with its stored weight |
| WeightedSelect.WeightedRandomSelect.Correct | gossip/randselect.go:69-72 | stores the drawn item's current weight in its slot and leaves every other slot as it is |
| WeightedSelect.WeightedRandomSelect.Round | gossip/randselect.go:64-75 | one round returns the item if and only if its two draws keep it; otherwise choose goes on with the corrected row |
| WeightedSelect.WeightedRandomSelect.Choose | gossip/randselect.go:62-77 | terminates for weights that change arbitrarily; returns nil exactly if the set ends empty, otherwise an item that was stored and whose current weight is positive; adds no item, moves none, and removes only items that reported zero; its result, its rounds and the row it leaves are those that the draws determine by the keep-or-reject rule |
| FastBits.Size | utils/fast/bits.go:64-71 | the least number of bytes that holds the bits |
| FastBits.NoStraddle | utils/fast/bits.go:99-106 | for widths 1, 2 and 4 no number straddles two bytes |
| FastBits.PushPacks | utils/fast/bits.go:79-89 | or-ing the shifted number into its byte appends it to the packed row |
| FastBits.FieldInByte | utils/fast/bits.go:92-96 | shifting and masking one byte gives the field of the packed row |
| FastBits.BitArrayWriter.Push | utils/fast/bits.go:79-89 | appends the number and touches no byte outside the array's slice |
| FastBits.BitArrayReader.Pop | utils/fast/bits.go:92-96 | returns the next field of the packed row |
| GenericBits.PushStep | utils/bits.go:90-112 | one push stores the low byte of accumulator and number, and the accumulator keeps the rest |
| GenericBits.KeptField | utils/bits.go:102-109 | reading is exact, except that a straddling last number loses its high bits |
| GenericBits.AccumulatorFits | utils/bits.go:90-112 | the 16-bit accumulator never overflows |
| GenericBits.BitArrayWriter.Push | utils/bits.go:90-112 | appends the number without leaving the buffer or the accumulator |
| GenericBits.BitArrayReader.Pop | utils/bits.go:115-132 | returns the next field of the number the bytes hold |
| BitArrays.GenericRoundTrip | utils/bits.go:90-132 | for every width from 1 to 7, all numbers come back but a straddling last one, which comes back modulo a power of two |
| BitArrays.LosslessIff | utils/bits.go:102-109 | the generic array is lossless for a width and a length if and only if the last number does not straddle two bytes |
| BitArrays.FastRoundTrip | utils/fast/bits.go:79-106 | the fast array returns the numbers written |
| BitArrays.SameBytes | utils/fast/bits.go:79-106 | for its widths the fast array writes the same bytes as the generic one |
| BitArrays.NeverStraddles | utils/fast/bits.go:27-38 | for widths 1, 2 and 4 the generic array is always flushed |
| FastBuffer.Buffer.WriteByte | utils/fast/buffer.go:18-21 | appends one byte at the cursor and changes nothing else |
| FastBuffer.Buffer.Write | utils/fast/buffer.go:24-31 | appends the bytes at the cursor and changes nothing else |
| FastBuffer.Buffer.Read | utils/fast/buffer.go:34-40 | takes the next bytes, or fails exactly when too few are left |
| EventCodec.CompactValue | inter/event_serializer.go:129-139 | the compact form has the value of the number and no zero last byte |
| EventCodec.CompactUnique | inter/event_serializer.go:248-263 | a byte string the reader takes for canonical is the compact form of its value |
| EventCodec.RoundTrip | inter/event_serializer.go:56-246 | an event of version 0 whose parents are of its epoch decodes from its encoding with every field |
| EventLaws.SignedIgnoresSig | inter/event.go:19-26 | the signed bytes do not depend on the signature |
| EventLaws.SignedInjective | inter/event.go:19-26 | events with equal signed bytes agree in every field but the signature |
| EventLaws.SignedIff | inter/event.go:19-26 | for any events of version 0, the signed bytes are equal if and only if the events agree up to the signature and the epochs of their parents |
| EventLaws.RehomedEncodes | inter/event_serializer.go:117-119 | the encoding does not depend on the epochs of the parents |
| EventLaws.RoundTripOfAny | inter/event_serializer.go:218-222 | any event of version 0 decodes with every field, its parents moved to its epoch |
| EventLaws.TruncationDetected | inter/event_serializer.go:218-228 | for every event of version 0, a prefix of its encoding is accepted if and only if at most as many bytes are missing as the payload has |
| EventLaws.EncodingIsCanonical | inter/event_serializer.go:98-115 | the encoder's headers are canonical |
| EventForms.SpellingDecodes | inter/event_serializer.go:192-246 | an event decodes from each of its spellings: any padding bits, any nonzero root field for a root, any time bytes with the right sum modulo 2^64 |
| EventForms.AcceptedIsSpelling | inter/event_serializer.go:142-246 | an accepted byte string decodes to an event with every field within its machine width, also after a truncating cast, and is one of that event's spellings |
| EventForms.AcceptedIff | inter/event_serializer.go:142-246 | a byte string decodes to an event if and only if it is one of the event's spellings |
| EventForms.FormsDiffer | inter/event_serializer.go:174-216 | different forms of an event are different byte strings |
| EventForms.NonCanonicalIff | inter/event_serializer.go:197-216 | a spelling is the encoding if and only if it has the encoder's form; in every other form it is accepted too |
| EventForms.OtherForms | inter/event_serializer.go:197-216 | every event has other forms: a set padding bit, root field 2 for a root, a ninth byte in the time |
| EventForms.CanonicalIff | inter/event_serializer.go:174-216 | an accepted byte string is the encoding of what it decodes to if and only if time length, root flag and padding bits of its header are canonical |
| EventLayout.HeaderBits | inter/event_serializer.go:174-192 | which bits of the first three bytes hold the version, the lengths of the numbers and the root flag |
| EventLayout.DecodedLayout | inter/event_serializer.go:197-240 | where every field of an accepted byte string lies: the numbers in their order, the parents without their epoch, the payload, and the signature in the last 64 bytes |
| EventLayout.ReadUintsIff | inter/event_serializer.go:197-214 | the numbers are read if and only if all are there and none is padded; a padded one is reported rather than missing bytes |
| EventLayout.DecodeErrors | inter/event_serializer.go:142-231 | for each of the four errors, and for success, the bytes that lead to it |
| EventSerializer.WriteUintCompact | inter/event_serializer.go:129-139 | appends the compact form within the given size and returns its length |
| EventSerializer.WriteFields64 | inter/event_serializer.go:101-104 | writes the 64-bit fields and pushes their sizes |
| EventSerializer.WriteFields32 | inter/event_serializer.go:105-108 | writes the 32-bit fields and pushes their sizes |
| EventSerializer.WriteParents | inter/event_serializer.go:117-119 | appends each parent without its epoch |
| EventSerializer.MarshalBinary | inter/event_serializer.go:56-127 | computes the encoding; for every version below 16 no buffer overflows and no header value is too big |
| EventSerializer.ReadUintCompact | inter/event_serializer.go:248-263 | sums the bytes in 64 bits and refuses a zero last byte |
| EventSerializer.ReadFields | inter/event_serializer.go:197-212 | reads the numbers whose sizes the header holds, up to the first error |
| EventSerializer.ReadParentTails | inter/event_serializer.go:218-222 | reads the parents and puts the epoch back in front of each |
| EventSerializer.UnmarshalBinary | inter/event_serializer.go:142-246 | computes the decoding on every input, a recovered panic being an error |
| EventBuild.MutableEvent.SetSig | inter/event.go:61 | right caches stay right |
| EventBuild.MutableEvent.HashToSign | inter/event.go:79-97 | hashes the signed bytes of the current fields |
| EventBuild.MutableEvent.Build | inter/event.go:113-134 | with right caches, or none, the built event has the identifier, hash and size of its fields; otherwise what the caches hold; the identifier spells epoch and Lamport time and ends in the first 24 bytes of the hash |
| EventBuild.SameIdIff | inter/event.go:74-77 | two events built with right caches share an identifier if and only if epoch, Lamport time and the first 24 bytes of their hashes agree |
| EventBuild.SameIdSameEvent | inter/event.go:74-77 | unless those bytes collide, that is so if and only if the events agree up to the signature and the epochs of their parents |
| EventBuild.MutableEvent.UnmarshalBinary | inter/event_serializer.go:142-246 | sets the fields and fills the caches, rightly for a canonical header; an error changes nothing |
| EventBuild.AcceptedLayout | inter/event_serializer.go:224-228 | the signature of an accepted byte string is its last 64 bytes |
| EventBuild.CachesIff | inter/event_serializer.go:242-243 | the bytes hashed for the cache are the signed bytes of the decoded event if and only if the header is canonical |
| EventBuild.WrongCaches | inter/event_serializer.go:242-243 | in every form but the encoder's, an event decodes and a hash of other bytes than the signed ones is cached |
| EventBuild.BuildAfterSetters | inter/event.go:113-134 | built after any setters, the event carries the right hash, identifier and size if and only if hash and length are those of the fields the caches were filled from |
| EventBuild.StaleIff | inter/event.go:113-134 | unless the hash collides, that is so if and only if nothing but the signature or the epochs of the parents changed |
| EventBuild.Transmit | inter/event.go:107-134 | sender and receiver of an event build the same identifier, hash and size |
| EventBuild.Sign | inter/event.go:95-97 | signing the hash and setting the signature keeps hash, identifier and size |
| EventOrder.SortEvents | inter/events.go:44-48 | sorting by identifier gives a sorted permutation of the events |
| EventOrder.SortedUnique | inter/events.go:44-48 | a sorted list is determined by its elements, so the sorting algorithm does not matter |
| EventOrder.SortIdsSorts | inter/events.go:28-34 | the specification's sorted list is sorted and a permutation |
| EventOrder.BlockEventsOrderFree | gossip/consensus_callbacks.go:32-53 | the event list of a block is the same for any order of application |
| EventOrder.IdOrderIsLamportOrder | inter/events.go:46-48 | events of one epoch in identifier order are in Lamport order |
| EventOrder.SortedByLamport | inter/events.go:44-48 | a sorted list of identifiers lists events of one epoch by Lamport time |
| Consensus.FindAtropos | gossip/consensus_callbacks.go:32-42 | finds an applied event with the Atropos's identifier, or there is none |
| Consensus.BlockOrderFree | gossip/consensus_callbacks.go:32-53 | the whole block is the same for any order of application |
| Consensus.BlockAtropos | gossip/consensus_callbacks.go:49-51 | a block has its Atropos's identifier and the creation time of the last event applied with it |
| Consensus.BlockEvents | gossip/consensus_callbacks.go:43-53 | a block lists exactly the applied events with a payload, in increasing order of identifiers and, within an epoch, of Lamport times |
| Consensus.RunBlocksFrame | gossip/consensus_callbacks.go:43-83 | emitting blocks touches only blocks and counters, and the epoch never falls |
| ConsensusSafety.EventsStep | gossip/consensus_callbacks.go:105-112 | connecting an event keeps the event table closed under parents of the same epoch |
| ConsensusSafety.PacksStep | gossip/pack.go:21-39 | connecting an event keeps every event in exactly one pack, a pack of its epoch |
| ConsensusSafety.InfosStep | gossip/pack.go:28-38 | pinned packs keep their record, the records keep counting their packs, at most 250 events each, and adding up the sizes of their events in 32 bits, and only the open pack has room |
| ConsensusSafety.HeadsStep | gossip/consensus_callbacks.go:117-127 | the heads of the current epoch stay exactly its childless events, and heads left from another epoch neither come nor go |
| ConsensusSafety.HeadsExactIff | gossip/consensus_callbacks.go:117-127 | all heads are childless events of the current epoch if and only if none is left from another |
| ConsensusSafety.CoverStep | gossip/consensus_callbacks.go:117-127 | every event of the epoch still reaches a head |
| ConsensusSafety.PinsStep | gossip/pack.go:31-35 | a pack is pinned with the heads from before the event that closes it, and holds that event |
| ConsensusSafety.PinsSeal | gossip/pack.go:41-52 | the last pack of a sealed epoch is pinned in the same way, unless it is empty |
| ConsensusSafety.FrozenStep | gossip/pack.go:21-39 | neither events nor stored record of a pinned pack change |
| ConsensusSafety.SealPacks | gossip/pack.go:41-52 | sealing pins the open pack and keeps the partition and the records |
| ConsensusSafety.BlocksStep | gossip/consensus_callbacks.go:43-83 | block indices stay without gaps, old blocks stay, and the epoch's block count stays below its maximum |
| ConsensusSafety.BlocksCounted | gossip/consensus_callbacks.go:54-77 | over any series of blocks the epoch rises by one exactly at each seal, which is computed from the cheaters alone, and the count is that of the blocks since the last |
| ConsensusSafety.BlocksConsecutive | gossip/consensus_callbacks.go:54-56 | a series of blocks gets consecutive indices |
| ConsensusSafety.NoSealIff | gossip/consensus_callbacks.go:59-64 | the epoch stays if and only if no block has cheaters and the count stays below the maximum |
| ConsensusSafety.StepSafe | gossip/consensus_callbacks.go:91-137 | whatever the engine does, processEvent keeps the whole invariant, the pinned packs, the events and the blocks; a rejected event changes neither events, packs nor heads, even when the engine had sealed |
| ConsensusSafety.RejectedSafe | gossip/consensus_callbacks.go:105-111 | after an engine failure only blocks and counters may differ, and the epoch exactly if a block sealed |
| ConsensusSafety.ConnectedSafe | gossip/consensus_callbacks.go:105-132 | connecting an event keeps the invariant, whether or not the epoch is sealed |
| ConsensusSafety.PackClosesIff | gossip/pack.go:28-35 | connecting an event closes the open pack if and only if it is the 250th, or the sizes then reach 2 MiB in 32 bits, or the epoch ends |
| ConsensusRuns.GenesisInv | gossip/apply_genesis.go:80-89 | the state after genesis meets the invariant |
| ConsensusRuns.RunSafe | gossip/consensus_callbacks.go:91-137 | every run, with an engine that may seal and fail at will, keeps the invariant, and whatever was pinned, connected or put into a block stays unchanged |
| ConsensusRuns.EveryRun | gossip/consensus_callbacks.go:91-137 | after every run from genesis the invariant holds, each connected event is in exactly one pack, of its epoch, and an event of the current epoch reaches a head and is one exactly if it is childless |
| ConsensusRuns.AnswerIff | gossip/consensus_callbacks.go:93-111 | each error, and success, has exactly one cause |
| ConsensusRuns.ConnectedIff | gossip/consensus_callbacks.go:107-115 | over every run the table holds exactly the events it held and those answered without an error |
| ConsensusRuns.ConnectedOnce | eventcheck/ban.go:12-18 | once an event is connected, a running service never bans anyone for sending it again |
| ConsensusRuns.TipStays | gossip/store_heads.go:70-81 | a validator's last event stays while none of its events is connected and the epoch lasts |
| ConsensusRuns.TipIsLast | gossip/consensus_callbacks.go:119-121 | over every run a validator's last event is the last one connected since the epoch began, or none |
| ConsensusRuns.PinnedHeadsCover | gossip/pack.go:31-34 | the heads pinned with a pack are those before the input that closed it, and cover, at the end of every run, every event of the epoch connected before that; all packs up to it hold nothing else but the closing event |
| ConsensusRuns.ClosingInput | gossip/pack.go:31-35 | every pack that a run pins was closed by one of its inputs |
| ConsensusRuns.EveryPinnedPack | gossip/pack.go:31-35 | after every run from genesis each pinned pack has its closing input; its heads are those before that input, cover every event of the epoch connected before it, and are none if and only if there was no such event and no head was left over |
| ConsensusRuns.HeadlessIff | gossip/handler.go:635-638 | in every state that meets the invariant there are no heads, as a peer refuses them, if and only if the heads are exact and the epoch has no event |
| ConsensusRuns.HeadlessPack | gossip/handler.go:635-638 | a run from genesis that pins a pack whose record has no heads: the first event seals its epoch |
| ConsensusRuns.RunChain | gossip/consensus_callbacks.go:43-83 | blocks, counters and epoch after a run are those of the series of blocks emitted during it, by failed engine calls too |
| ConsensusRuns.RunCounted | gossip/consensus_callbacks.go:43-83 | over every run the blocks get consecutive indices, the epoch rises by one exactly at each seal, and the count is that of the blocks since the last |
| ConsensusRuns.HeadsExactAfter | gossip/consensus_callbacks.go:105-132 | after every run the heads are exactly the childless events of the epoch if and only if no engine call that sealed and failed has left any since the last completed seal |
| ConsensusRuns.HeadsExact | gossip/consensus_callbacks.go:105-132 | without an engine call that seals and fails, they are exact after every run |
| ConsensusRuns.ConnectedHeadsIff | gossip/consensus_callbacks.go:117-132 | connecting an event keeps the heads as exact as they were, and a completed seal makes them exact |
| ConsensusRuns.FailedHeadsIff | gossip/consensus_callbacks.go:105-111 | after an engine failure the heads are exact if and only if no block sealed and they were exact, or some block sealed and there were none |
| ConsensusRuns.FailureAfterSealBreaksHeads | gossip/consensus_callbacks.go:105-111 | a run from genesis that ends with a stale head: one connected event, then an engine call that seals on a cheater and fails |
| GossipService.Store.constructor | gossip/apply_genesis.go:80-89 | the tables after genesis, with coherent caches |
| GossipService.Store.SetEvent | gossip/store_event.go:30-39 | stores the event in table and cache |
| GossipService.Store.DelEvent | gossip/store_event.go:15-27 | removes the event from table and cache |
| GossipService.Store.GetEvent | gossip/store_event.go:42-62 | returns what the table holds, through the cache |
| GossipService.Store.GetPackInfo | gossip/store_pack.go:22-44 | returns what the table holds, through the cache |
| GossipService.Store.GetPackInfoOrDefault | gossip/store_pack.go:47-54 | the stored record, or an empty one with the pack's index |
| GossipService.Store.GetStoredPackInfo | gossip/store_pack.go:57-63 | the record as peers are served it, past the cache, equals the cached one whenever there is one |
| GossipService.Store.SetPackInfo | gossip/store_pack.go:66-76 | stores the record in table and cache |
| GossipService.Store.GetBlockState | gossip/store_decided_state.go:20-30 | returns the stored block state, through the cache |
| GossipService.Store.SetBlockState | gossip/store_decided_state.go:14-17 | stores the block state in table and cache |
| GossipService.Store.GetEpoch | gossip/store_decided_state.go:39-54 | returns the stored epoch, through the cache |
| GossipService.Store.SetEpochState | gossip/store_decided_state.go:33-36 | stores the epoch in table and cache |
| GossipService.BlockCallbacks.ApplyEvent | gossip/consensus_callbacks.go:32-42 | collects exactly the events with payload and finds the Atropos |
| GossipService.BlockCallbacks.EndBlock | gossip/consensus_callbacks.go:43-83 | stores the block made of the applied events and seals after the maximum of blocks or on a cheater; the stored block has the Atropos's identifier and creation time |
| GossipService.Service.PacksOnNewEvent | gossip/pack.go:21-39 | computes the pack step on the tables and keeps the caches coherent |
| GossipService.Service.PacksOnNewEpoch | gossip/pack.go:41-52 | computes the pinning of the last pack on the tables |
| GossipService.Service.RunBlock | gossip/consensus_callbacks.go:22-88 | one block through the callbacks adds the block the specification names |
| GossipService.Service.RunEngine | gossip/consensus_callbacks.go:108 | all blocks of an engine call |
| GossipService.Service.ProcessEvent | gossip/consensus_callbacks.go:91-137 | ends in the state and with the verdict of the step function that StepSafe is about |
| GossipService.Service.Settle | gossip/consensus_callbacks.go:117-132 | replaces the parents by the event among the heads, or starts a new epoch's store |
| PackServer.Serve | gossip/consensus_callbacks.go:91-137 | the service, fed with any inputs, ends in the state of the run and keeps the invariant |
| PackServer.ReplyPack | gossip/handler.go:602-617 | the cut-off never takes an event away from a pack |
| PackServer.ReplyPackInfos | gossip/handler.go:563-591 | the requested records of pinned packs in order, up to the end of the request or the first record that reaches the size limit |
| PackServer.ServedIsFinal | gossip/handler.go:571-582 | a request for pinned packs is served the same records, and the packs hold the same events, after any further run |
| PackServer.ServedComplete | gossip/handler.go:577-580 | every pinned pack that is asked for is served, in the order of the request |
| PackServer.ServedIff | gossip/handler.go:571-580 | a record is served if and only if it is stored for a pack that was asked for and is pinned |
| PoolQueue.PoolEntryQueue.MemberIff | gossip/serverpool.go:847-855 | the index test is membership |
| PoolQueue.PoolEntryQueue.FetchOldest | gossip/serverpool.go:831-843 | terminates and takes the least recently accessed entry, or returns nil exactly for an empty queue |
| PoolQueue.PoolEntryQueue.Remove | gossip/serverpool.go:846-850 | takes the entry out of the order if it is there |
| PoolQueue.PoolEntryQueue.SetLatest | gossip/serverpool.go:854-867 | moves or adds the entry to the end; evicts the oldest exactly when a new entry meets a full queue |
| PoolQueue.AccessedLaw | gossip/serverpool.go:854-867 | after an access the entry is last and the others are as they were, in order, except that the oldest is gone exactly when a new entry met a full queue |
| PoolView.Recounted | gossip/serverpool.go:280-286 | how a change of one entry's state changes the numbers of busy and linked entries; its flag may change only while it is idle |
| PoolView.FilledMore | gossip/serverpool.go:547-561 | rounds of dialing compose: only idle fit entries are dialed, and a fit entry on offer whose weight does not fade is dialed or stays on offer |
| PoolView.AcceptedNoneIff | gossip/serverpool.go:344-350 | a run accepted no idle entry with a flag if and only if none of its events met the branch that does |
| PoolView.StuckForever | gossip/serverpool.go:294-297 | an entry evicted while dialed is dialed at every later point of every run |
| PoolView.StuckAreBusy | gossip/serverpool.go:606-616 | such entries are among those the counters count |
| ServerPool.ChooseReady | gossip/serverpool.go:709-728 | only an idle entry that is not waiting for a retry is chosen, and nil only from an empty set; the choice is that of choose for the weights such entries report |
| ServerPool.ChooseAddress | gossip/serverpool.go:588 | choosing among an entry's addresses, which weigh at least one, always gives one of them, the one that choose returns for their weights |
| ServerPool.ServerPool.constructor | gossip/serverpool.go:127-148 | the new pool is empty and meets the invariant |
| ServerPool.ServerPool.Dial | gossip/serverpool.go:577-602 | always takes effect on an idle entry: it becomes dialed at one of its addresses and is counted by its flag |
| ServerPool.ServerPool.FillKnown | gossip/serverpool.go:547-554 | terminates with the target reached, and not passed, or the set of known entries empty |
| ServerPool.ServerPool.FillNew | gossip/serverpool.go:555-561 | terminates with five servers selected in all or the set of new entries empty; never dials beyond five |
| ServerPool.ServerPool.FillTargets | gossip/serverpool.go:547-561 | known entries come first, up to three; new ones are dialed only while fewer than five are selected in all |
| ServerPool.ServerPool.CheckDial | gossip/serverpool.go:545-574 | terminates with all targets reached or the sets empty; dials only idle entries that wait for no retry; an entry on offer whose weight does not fade is dialed or stays on offer; keeps the conservation law and the limits; at most three known entries are dialed before the new ones, which fill up to five in all, and known ones beyond three, up to five, only without fast discovery |
| ServerPool.ServerPool.CheckDialTimeout | gossip/serverpool.go:606-620 | an entry still dialed becomes idle, gives its place back, waits for a retry and uses up a short one; any other is left alone |
| ServerPool.ServerPool.OnTimeout | gossip/serverpool.go:294-297 | the same in the loop, except that the timer of an evicted entry changes nothing |
| ServerPool.ServerPool.Disconnect | gossip/serverpool.go:264-290 | the entry becomes idle, gives back a place by its flag, leaves the wait group and waits for a retry |
| ServerPool.ServerPool.Accept | gossip/serverpool.go:348-361 | the entry joins the wait group; from idle it becomes busy without being counted, and that is recorded by its flag; the address it connected from is then its only one |
| ServerPool.ServerPool.RemoveEntry | gossip/serverpool.go:507-512 | an evicted entry leaves both selection sets and the table |
| ServerPool.ServerPool.SetLatest | gossip/serverpool.go:854-867 | the queue's order changes as specified and the other queue not at all, although both use one index field |
| ServerPool.ServerPool.Touch | gossip/serverpool.go:854-867 | the same with the eviction callback, which removes exactly the oldest entry when a new one meets a full queue |
| ServerPool.ServerPool.FindOrNewNode | gossip/serverpool.go:403-434 | returns the node's entry, a new idle one if there is none, which moves to the end of the new queue unless it is known; the address it was seen at joins its addresses, and no other entry changes its own |
| ServerPool.ServerPool.AcceptListed | gossip/serverpool.go:340-361 | a listed node without a live connection becomes connected and no other entry changes; it counts as undialed exactly when its entry was idle |
| ServerPool.ServerPool.AcceptNew | gossip/serverpool.go:340-361 | a node that is not listed gets one new entry, connected and not counted; no other entry changes state |
| ServerPool.ServerPool.Connect | gossip/serverpool.go:334-362 | refuses exactly trusted and already connected nodes; otherwise connects the listed entry of the node, or one new entry, and counts the acceptances of idle entries by their flag |
| ServerPool.ServerPool.Promote | gossip/serverpool.go:369-372 | a new entry leaves the new queue and becomes known |
| ServerPool.ServerPool.Register | gossip/serverpool.go:364-375 | the entry becomes registered, known and last in the known queue; the counters stay |
| ServerPool.ServerPool.UpdateWeights | gossip/serverpool.go:537-539 | both selection sets hold the entry's current weights, zero meaning absence |
| ServerPool.ServerPool.UpdateCheckDial | gossip/serverpool.go:537-541 | keeps the invariant; the entry, if it may be dialed and its weight does not fade, is dialed unless the target is met |
| ServerPool.ServerPool.Retry | gossip/serverpool.go:299-303 | the delay of an entry ends unless the entry was evicted, and an idle one whose weight does not fade is then dialed unless enough servers are selected |
| ServerPool.ServerPool.Discover | gossip/serverpool.go:314-318 | ignores exactly trusted nodes; a discovered entry that may be dialed, and whose weight does not fade, is dialed unless enough servers are selected |
| ServerPool.ServerPool.Step | gossip/serverpool.go:292-379 | every turn of the loop keeps conservation, limits, queues and selection sets, and is a step of the relation on views: it moves only the entry of its event, to the state the event asks for, or dials idle ones; an undialed acceptance is recorded exactly when the event meets that branch |
| ServerPool.ServerPool.Run | gossip/serverpool.go:255-401 | the same for every run of the loop, whatever arrives and whatever the weights are: the views before, between and after the events are linked by the relation, and the undialed acceptances are those that this trace shows, flag by flag |
| ServerPool.ServerPool.RunOfNew | gossip/serverpool.go:255-401 | after any run of a new pool each counter is the number of its busy entries less the events of the trace that connected an idle entry with its flag, and the wait group is the number of linked entries; a counter is exact if and only if no event did so, and if none did for either flag both are within 0 and 5 |
| ServerPool.ServerPool.RunStuck | gossip/serverpool.go:294-297 | entries evicted while dialed are still dialed after any further run, and the counters together are never below their number less the undialed acceptances |
| ServerPool.UndialedLosesPlace | gossip/serverpool.go:282-286 | one undialed connection and its end leave a counter at minus one |
| ServerPool.ServerPool.EndConnections | gossip/serverpool.go:386-395 | terminates with the wait group at zero and no live connection |
| ServerPool.ServerPool.SaveNodes | gossip/serverpool.go:493-502 | lists the known nodes, least recently connected first |
| ServerPool.ServerPool.Quit | gossip/serverpool.go:381-398 | ends all connections and saves the known nodes in order |
| ServerPool.ServerPool.LoadNode | gossip/serverpool.go:448-459 | the entry is known and idle; unless it is trusted it is last in the known queue and offered for selection by its weight |
| ServerPool.ServerPool.LoadNodes | gossip/serverpool.go:437-460 | the known queue holds the untrusted nodes of the list, the last thousand, in order |
| ServerPool.Restart | gossip/serverpool.go:437-502 | saving and loading into a new pool restores the order of the known nodes |
| ExecQueue.StepInv | gossip/execqueue.go:22-88 | every critical section keeps order of acceptance, capacity, and that the worker never sleeps with work to do |
| ExecQueue.Calls | gossip/execqueue.go:60-86 | a function is accepted if and only if the queue is open and fewer than its capacity are pending or running; clear leaves none pending; no call starts or loses one |
| ExecQueue.Looks | gossip/execqueue.go:29-45 | whenever the worker looks it leaves a closed queue, or starts the first function it finds, and sleeps only if there is none |
| ExecQueue.NeverStuck | gossip/execqueue.go:37-43 | the worker can always take a step unless it is gone or sleeps over an open, empty queue |
| ExecQueue.QuitEnds | gossip/execqueue.go:78-88 | in every interleaving after quit each step of the worker, of at most three, brings it nearer to its end, and then quit returns |
| ExecQueue.RunInv | gossip/execqueue.go:22-88 | in every interleaving functions start in order of acceptance, each at most once, within the capacity |
| ExecQueue.RunAccounted | gossip/execqueue.go:22-88 | in every interleaving, each accepted function is exactly one of started, pending, removed by clear, or lost |
| ExecQueue.RunsInOrder | gossip/execqueue.go:22-69 | without clear, the functions started are always a prefix of those accepted |
| ExecQueue.NothingAfterQuit | gossip/execqueue.go:78-88 | after quit nothing is accepted or started, and quit returns only with the worker gone |
| ExecQueue.LostIffHazard | gossip/execqueue.go:29-35 | the worker drops a function unrun if and only if one was accepted after a clear during a running function |
| ExecQueue.ClearLosesTheNext | gossip/execqueue.go:71-76 | the shortest run that loses a function |
| ExecQueue.NewQueue | gossip/execqueue.go:15-20 | a new queue meets what the lemmas about runs ask for |
| ExecQueue.ExecQueue.Enqueue | gossip/execqueue.go:60-69 | is the step of the state machine, and tells whether the function was accepted |
| ExecQueue.ExecQueue.Clear | gossip/execqueue.go:72-76 | is the step of the state machine |
| ExecQueue.ExecQueue.Quit | gossip/execqueue.go:80-86 | is the step of the state machine |
| ExecQueue.ExecQueue.WaitNext | gossip/execqueue.go:29-45 | is the worker's step, entering or woken, and returns the function it starts |
| Migration.IDs | utils/migration/migration.go:88-94 | the identifier of the name the chain begins with, then those of the steps in order |
| Migration.SweepSnoc | utils/migration/migration.go:67-80 | the last step of a chain is attempted only after all others |
| Migration.SweepIs | utils/migration/migration.go:67-80 | each step from the remembered one on is attempted once, in order, as long as the attempts succeed, and the first that fails is the last one made |
| Migration.Exec | utils/migration/migration.go:52-81 | from a remembered step exactly the later ones run, in order, until one fails, and the last success is stored; an unknown identifier, and no other, is an error that runs nothing |
| Migration.ExecRepeatedly | utils/migration/migration.go:52-81 | over any series of executions each step succeeds at most once, in order, exactly as far as the store remembers; after one that ends well all have, and another leaves store and log as they are |

## Left out

- The consensus engine, event checks other than the epoch check, ordering buffer and downloaders: they are parts of lachesis-base; the engine is an arbitrary outcome.
- Databases, flushing and RLP framing: tables are maps; order of keys and crashes between writes are not captured.
- Statistics and floating-point weights of the server pool (`poolStats`, `Weight`): only that a weight is zero for entries that must not be dialed, and at least one for addresses. The set of an entry's addresses is built anew for each choice instead of being kept.
- Trusted-peer dialing, discovery and statistics events of the server pool.
- 64-bit overflow of weight sums in the selection tree.
- WeightedChance.ReturnsInProportion: the current weights are fixed during one call.
- EventOrder.SortEvents: an insertion sort on a sequence stands for the library's sort in place; by SortedUnique any sort gives the same identifiers.
- EventSerializer.UnmarshalBinary: allocating room for a huge number of parents is not captured.
- BitArrays.GenericRoundTrip: width 0 is not covered.
- PackServer.ReplyPack: the refusal of future epochs and the decoding of the request are not captured, and pack heads are sets.
- Migration.Exec: identifiers of different steps are assumed to differ; the identifier of the beginning counts as unknown, as in the code.
- ServerPool.ServerPool.Run: a registration or disconnection of an entry without a live connection is skipped, because callers send none.
- `canQueue` of the exec queue: it is the guard of Enqueue and changes nothing.
- Message handling, peers, emitter, event checking threads, command line, logging and metrics.
