/** What every step of event processing keeps: packs partition the connected events, pinned packs
    never change, the epoch's heads are its childless events, blocks are append-only. */
module ConsensusSafety {
  import opened EventCodec
  import opened EventBuild
  import opened Consensus

  // ---------- one event: what each part of the state becomes ----------

  /** The state once the engine has run: the event is stored, packs and heads are as before. */
  ghost predicate Stored(s: State, t: State, e: Built) {
    && t.events == s.events[e.id := e]
    && t.packs == s.packs && t.packInfos == s.packInfos && t.packsNum == s.packsNum && t.heads == s.heads
    && s.epoch <= t.epoch
  }

  ghost predicate NewEvent(s: State, e: Built) {
    e.id !in s.events && e.event.epoch == s.epoch && Ready(s, e)
  }

  lemma EventsStep(s: State, t: State, e: Built)
    requires EventsOk(s) && NewEvent(s, e)
    requires t.events == s.events[e.id := e] && s.epoch <= t.epoch
    ensures EventsOk(t)
  {
  }

  /** The pack tables after an event, seen through their getters. */
  lemma PacksView(s: State, run: State, e: Built, epoch: nat, j: nat)
    requires NewEvent(s, e) && Stored(s, run, e)
    ensures var t, k := PacksOnNewEvent(run, e), PacksNum(s, s.epoch);
      var info := Added(Info(s, s.epoch, k), k, e);
      var here := epoch == s.epoch && j == k;
      && Pack(t, epoch, j) == (if here then Pack(s, epoch, j) + {e.id} else Pack(s, epoch, j))
      && Info(t, epoch, j) == (if !here then Info(s, epoch, j) else if Full(info) then info.(heads := s.heads) else info)
      && PacksNum(t, epoch) == (if epoch == s.epoch && Full(info) then k + 1 else PacksNum(s, epoch))
      && t.packInfos.Keys == s.packInfos.Keys + {(s.epoch, k)} && s.packsNum.Keys <= t.packsNum.Keys
      && t.events == run.events && t.heads == s.heads && t.epoch == run.epoch
  {
  }

  ghost predicate Viewed(s: State, t: State, e: Built) {
    var k := PacksNum(s, s.epoch);
    var info := Added(Info(s, s.epoch, k), k, e);
    && (forall epoch: nat, j: nat {:trigger Pack(t, epoch, j)} ::
          Pack(t, epoch, j) == if epoch == s.epoch && j == k then Pack(s, epoch, j) + {e.id} else Pack(s, epoch, j))
    && (forall epoch: nat, j: nat {:trigger Info(t, epoch, j)} ::
          Info(t, epoch, j) == if !(epoch == s.epoch && j == k) then Info(s, epoch, j)
                               else if Full(info) then info.(heads := s.heads) else info)
    && (forall epoch: nat {:trigger PacksNum(t, epoch)} ::
          PacksNum(t, epoch) == if epoch == s.epoch && Full(info) then k + 1 else PacksNum(s, epoch))
    && t.packInfos.Keys == s.packInfos.Keys + {(s.epoch, k)} && s.packsNum.Keys <= t.packsNum.Keys
    && t.events == s.events[e.id := e] && t.heads == s.heads && s.epoch <= t.epoch
  }

  lemma PacksViewed(s: State, run: State, e: Built)
    requires NewEvent(s, e) && Stored(s, run, e)
    ensures Viewed(s, PacksOnNewEvent(run, e), e)
  {
    hide Pack, Info, PacksNum, PacksOnNewEvent, Full, Added;
    var t, k := PacksOnNewEvent(run, e), PacksNum(s, s.epoch);
    var info := Added(Info(s, s.epoch, k), k, e);
    PacksView(s, run, e, 0, 0);
    forall epoch: nat, j: nat
      ensures Pack(t, epoch, j) == if epoch == s.epoch && j == k then Pack(s, epoch, j) + {e.id} else Pack(s, epoch, j)
      ensures Info(t, epoch, j) == if !(epoch == s.epoch && j == k) then Info(s, epoch, j)
                                   else if Full(info) then info.(heads := s.heads) else info
    {
      PacksView(s, run, e, epoch, j);
    }
    forall epoch: nat
      ensures PacksNum(t, epoch) == if epoch == s.epoch && Full(info) then k + 1 else PacksNum(s, epoch)
    {
      PacksView(s, run, e, epoch, 0);
    }
  }

  lemma PacksTypedStep(s: State, t: State, e: Built)
    requires PacksTyped(s) && InfosOk(s) && NewEvent(s, e) && Viewed(s, t, e)
    ensures PacksTyped(t)
  {
    hide Pack, Info, PacksNum, Full, Added;
    forall epoch: nat, j: nat, id: Hash | id in Pack(t, epoch, j)
      ensures id in t.events && t.events[id].event.epoch == epoch && 1 <= j <= PacksNum(t, epoch)
    {
      assert 1 <= PacksNum(s, epoch) <= PacksNum(t, epoch);
    }
  }

  lemma PacksTotalStep(s: State, t: State, e: Built)
    requires PacksTotal(s) && NewEvent(s, e) && Viewed(s, t, e)
    ensures PacksTotal(t)
  {
    hide Pack, Info, PacksNum, Full, Added;
    forall id: Hash | id in t.events
      ensures exists j: nat :: id in Pack(t, t.events[id].event.epoch, j)
    {
      if id == e.id {
        assert id in Pack(t, s.epoch, PacksNum(s, s.epoch));
      } else {
        var j: nat :| id in Pack(s, s.events[id].event.epoch, j);
        assert id in Pack(t, t.events[id].event.epoch, j);
      }
    }
  }

  lemma PacksDisjointStep(s: State, t: State, e: Built)
    requires PacksTyped(s) && PacksDisjoint(s) && NewEvent(s, e) && Viewed(s, t, e)
    ensures PacksDisjoint(t)
  {
    hide Pack, Info, PacksNum, Full, Added;
    forall epoch: nat, j: nat, k: nat, id: Hash | id in Pack(t, epoch, j) && id in Pack(t, epoch, k)
      ensures j == k
    {
      if id == e.id {
        assert id !in Pack(s, epoch, j) && id !in Pack(s, epoch, k);
      } else {
        assert id in Pack(s, epoch, j) && id in Pack(s, epoch, k);
      }
    }
  }

  /** Adding to the open pack keeps the packs a partition ... */
  lemma PacksStep(s: State, t: State, e: Built)
    requires PacksOk(s) && InfosOk(s) && NewEvent(s, e) && Viewed(s, t, e)
    ensures PacksOk(t)
  {
    hide PacksTyped, PacksTotal, PacksDisjoint, InfosOk, Viewed, NewEvent;
    PacksTypedStep(s, t, e);
    PacksTotalStep(s, t, e);
    PacksDisjointStep(s, t, e);
  }

  /** ... and the records exact. */
  lemma InfosStep(s: State, t: State, e: Built)
    requires EventsOk(s) && PacksOk(s) && InfosOk(s) && NewEvent(s, e) && Viewed(s, t, e)
    ensures InfosOk(t)
  {
    hide EventsOk, PacksTyped, PacksTotal, PacksDisjoint, Recorded, CountsOk, SizesOk, RoomOk, Viewed, NewEvent;
    RecordedStep(s, t, e);
    CountsStep(s, t, e);
    SizesStep(s, t, e);
    RoomStep(s, t, e);
  }

  lemma RecordedStep(s: State, t: State, e: Built)
    requires Recorded(s) && Viewed(s, t, e)
    ensures Recorded(t)
  {
    hide Pack, Info, PacksNum, Full, Added;
  }

  lemma CountsStep(s: State, t: State, e: Built)
    requires EventsOk(s) && PacksOk(s) && CountsOk(s) && RoomOk(s) && NewEvent(s, e) && Viewed(s, t, e)
    ensures CountsOk(t)
  {
    hide Pack, Info, PacksNum;
    var epoch, k := s.epoch, PacksNum(s, s.epoch);
    assert e.id !in Pack(s, epoch, k);
    assert Info(s, epoch, k).index == k && !Full(Info(s, epoch, k));
    forall ep: nat, j: nat
      ensures Info(t, ep, j).index == j && Info(t, ep, j).numOfEvents == |Pack(t, ep, j)| <= 250
    {
      assert Info(s, ep, j).index == j;
    }
  }

  lemma SizesStep(s: State, t: State, e: Built)
    requires PacksTyped(s) && SizesOk(s) && NewEvent(s, e) && Viewed(s, t, e)
    ensures SizesOk(t)
  {
    hide Pack, Info, PacksNum, SizeSum, Full;
    var k := PacksNum(s, s.epoch);
    forall ep: nat, j: nat
      ensures Info(t, ep, j).size == SizeSum(t.events, Pack(t, ep, j)) % 0x1_0000_0000
    {
      assert e.id !in Pack(s, ep, j);
      assert Info(s, ep, j).size == SizeSum(s.events, Pack(s, ep, j)) % 0x1_0000_0000;
      if ep == s.epoch && j == k {
        SizeSumMore(s.events, Pack(s, ep, j), e);
        Wrap(SizeSum(s.events, Pack(s, ep, j)), e.size);
      } else {
        SizeSumSame(s.events, t.events, Pack(s, ep, j));
      }
    }
  }

  lemma Wrap(a: nat, b: nat)
    ensures (a % 0x1_0000_0000 + b % 0x1_0000_0000) % 0x1_0000_0000 == (a + b) % 0x1_0000_0000
  {
  }

  lemma RoomStep(s: State, t: State, e: Built)
    requires RoomOk(s) && NewEvent(s, e) && Viewed(s, t, e)
    ensures RoomOk(t)
  {
    hide Pack, Info, PacksNum, Added, Full;
    var epoch, k := s.epoch, PacksNum(s, s.epoch);
    forall ep: nat
      ensures !Full(Info(t, ep, PacksNum(t, ep)))
    {
      assert !Full(Info(s, ep, PacksNum(s, ep)));
      assert PacksNum(s, epoch) < k + 1 ==> !Full(Info(s, epoch, k + 1));
    }
  }

  // ---------- sealing ----------

  /** The pack tables after the last pack of the epoch was pinned. */
  ghost predicate SealViewed(s: State, t: State, epoch: nat) {
    && (forall ep: nat, j: nat {:trigger Pack(t, ep, j)} :: Pack(t, ep, j) == Pack(s, ep, j))
    && (forall ep: nat, j: nat {:trigger Info(t, ep, j)} ::
          Info(t, ep, j) == if ep == epoch && j == PacksNum(s, epoch) then Info(s, ep, j).(heads := s.heads) else Info(s, ep, j))
    && (forall ep: nat {:trigger PacksNum(t, ep)} :: PacksNum(t, ep) == PacksNum(s, ep) + if ep == epoch then 1 else 0)
    && t.packInfos.Keys == s.packInfos.Keys + {(epoch, PacksNum(s, epoch))} && s.packsNum.Keys <= t.packsNum.Keys
    && t.events == s.events && t.epoch == s.epoch
  }

  lemma SealIsViewed(s: State, epoch: nat, t: State)
    requires var u := PacksOnNewEpoch(s, epoch);
      t.packs == u.packs && t.packInfos == u.packInfos && t.packsNum == u.packsNum && t.events == s.events && t.epoch == s.epoch
    ensures SealViewed(s, t, epoch)
  {
  }

  lemma SealPacks(s: State, t: State, epoch: nat)
    requires PacksOk(s) && InfosOk(s) && SealViewed(s, t, epoch)
    ensures PacksOk(t) && InfosOk(t)
  {
    hide Recorded, CountsOk, SizesOk, RoomOk, PacksTyped, PacksTotal, PacksDisjoint, SealViewed;
    SealTyped(s, t, epoch);
    SealTotal(s, t, epoch);
    SealCounts(s, t, epoch);
    SealSizes(s, t, epoch);
    SealRoom(s, t, epoch);
  }

  lemma SealTyped(s: State, t: State, epoch: nat)
    requires PacksTyped(s) && PacksDisjoint(s) && Recorded(s) && SealViewed(s, t, epoch)
    ensures PacksTyped(t) && PacksDisjoint(t) && Recorded(t)
  {
    hide Pack, Info, PacksNum;
    forall ep: nat, k: nat, id: Hash | id in Pack(t, ep, k)
      ensures id in t.events && t.events[id].event.epoch == ep && 1 <= k <= PacksNum(t, ep)
    {
      assert id in Pack(s, ep, k);
    }
  }

  lemma SealTotal(s: State, t: State, epoch: nat)
    requires PacksTotal(s) && SealViewed(s, t, epoch)
    ensures PacksTotal(t)
  {
    hide Pack, Info, PacksNum;
    forall id: Hash | id in t.events
      ensures exists j: nat :: id in Pack(t, t.events[id].event.epoch, j)
    {
      var j: nat :| id in Pack(s, s.events[id].event.epoch, j);
      assert id in Pack(t, t.events[id].event.epoch, j);
    }
  }

  lemma SealCounts(s: State, t: State, epoch: nat)
    requires CountsOk(s) && SealViewed(s, t, epoch)
    ensures CountsOk(t)
  {
    hide Pack, Info, PacksNum;
    forall ep: nat, j: nat
      ensures Info(t, ep, j).index == j && Info(t, ep, j).numOfEvents == |Pack(t, ep, j)| <= 250
    {
      assert Info(s, ep, j).index == j;
    }
  }

  lemma SealSizes(s: State, t: State, epoch: nat)
    requires SizesOk(s) && SealViewed(s, t, epoch)
    ensures SizesOk(t)
  {
    hide Pack, Info, PacksNum, SizeSum;
    forall ep: nat, j: nat
      ensures Info(t, ep, j).size == SizeSum(t.events, Pack(t, ep, j)) % 0x1_0000_0000
    {
      assert Info(s, ep, j).size == SizeSum(s.events, Pack(s, ep, j)) % 0x1_0000_0000;
    }
  }

  lemma SealRoom(s: State, t: State, epoch: nat)
    requires RoomOk(s) && SealViewed(s, t, epoch)
    ensures RoomOk(t)
  {
    hide Pack, Info, PacksNum;
    var last := PacksNum(s, epoch);
    forall ep: nat
      ensures !Full(Info(t, ep, PacksNum(t, ep)))
    {
      assert !Full(Info(s, ep, PacksNum(s, ep)));
      assert last < last + 1 ==> !Full(Info(s, epoch, last + 1));
    }
  }

  // ---------- heads ----------

  lemma NoChildYet(s: State, e: Built, id: Hash)
    requires EventsOk(s) && NewEvent(s, e)
    ensures HasChild(s.events[e.id := e], id) <==> HasChild(s.events, id) || id in e.event.parents
    ensures !HasChild(s.events[e.id := e], e.id)
  {
    var ev := s.events[e.id := e];
    if HasChild(s.events, id) {
      var c: Hash :| Child(s.events, id, c);
      assert Child(ev, id, c);
    }
    if id in e.event.parents {
      assert Child(ev, id, e.id);
    }
    if HasChild(ev, id) && id !in e.event.parents {
      var c: Hash :| Child(ev, id, c);
      assert Child(s.events, id, c);
    }
    assert forall c: Hash :: !Child(ev, e.id, c);
  }

  /** Replacing the parents by the new event keeps the epoch's heads exactly its childless events, and
      neither adds nor removes a head of another epoch. */
  lemma HeadsStep(s: State, t: State, e: Built)
    requires EventsOk(s) && LiveHeads(s) && NewEvent(s, e)
    requires t.events == s.events[e.id := e] && t.epoch == s.epoch
    requires t.heads == s.heads - (set p | p in e.event.parents) + {e.id}
    ensures LiveHeads(t) && (HeadsOk(t) <==> HeadsOk(s))
  {
    hide HasChild;
    forall id: Hash | id in t.events && t.events[id].event.epoch == t.epoch
      ensures id in t.heads <==> !HasChild(t.events, id)
    {
      NoChildYet(s, e, id);
    }
    HeadsExactIff(s);
    HeadsExactIff(t);
    assert forall id: Hash :: id in s.heads && s.events[id].event.epoch != s.epoch ==> id in t.heads;
  }

  /** The heads are exact if and only if none is left from another epoch. */
  lemma HeadsExactIff(s: State)
    requires LiveHeads(s)
    ensures HeadsOk(s) <==> forall id: Hash :: id in s.heads ==> s.events[id].event.epoch == s.epoch
  {
    hide HasChild;
  }

  /** Every event still reaches a head: through the new event if its head was a parent. */
  lemma CoverStep(s: State, t: State, e: Built)
    requires EventsOk(s) && Covered(s) && NewEvent(s, e)
    requires t.events == s.events[e.id := e] && t.epoch == s.epoch
    requires t.heads == s.heads - (set p | p in e.event.parents) + {e.id}
    ensures Covered(t)
  {
    hide Reach;
    forall id: Hash | id in t.events && t.events[id].event.epoch == t.epoch
      ensures Dominated(t.events, id, t.heads)
    {
      if id == e.id {
        ReachSelf(t.events, id);
      } else {
        DominatedMore(s.events, t.events, id, s.heads);
        var h: Hash :| h in s.heads && Reach(t.events, id, h);
        if h in e.event.parents {
          assert Child(t.events, h, e.id);
          ReachChild(t.events, id, h, e.id);
        }
      }
    }
  }

  // ---------- pinned packs ----------

  /** Packs that s has pinned are the same in t, and so are their stored records. */
  ghost predicate Frozen(s: State, t: State) {
    && (forall epoch: nat {:trigger PacksNum(s, epoch)} :: PacksNum(s, epoch) <= PacksNum(t, epoch))
    && (forall epoch: nat, k: nat {:trigger Pack(t, epoch, k)} :: k < PacksNum(s, epoch) ==> Pack(t, epoch, k) == Pack(s, epoch, k))
    && (forall epoch: nat, k: nat {:trigger Info(t, epoch, k)} :: k < PacksNum(s, epoch) ==> Info(t, epoch, k) == Info(s, epoch, k))
    && (forall epoch: nat, k: nat {:trigger (epoch, k) in t.packInfos} :: k < PacksNum(s, epoch) ==>
          ((epoch, k) in t.packInfos <==> (epoch, k) in s.packInfos))
    && s.packsNum.Keys <= t.packsNum.Keys
  }

  ghost predicate EventsKept(s: State, t: State) {
    forall id: Hash :: id in s.events ==> id in t.events && t.events[id] == s.events[id]
  }

  lemma FrozenStep(s: State, t: State, e: Built)
    requires NewEvent(s, e) && Viewed(s, t, e)
    ensures Frozen(s, t) && EventsKept(s, t)
  {
    hide Pack, Info, PacksNum, Full, Added;
  }

  /** What connecting e pins: packs of its epoch, with the heads before it; each holds e or is empty. */
  ghost predicate Pins(s: State, t: State, e: Built) {
    && (forall epoch: nat :: PacksNum(s, epoch) < PacksNum(t, epoch) ==> epoch == s.epoch)
    && (forall k: nat :: PacksNum(s, s.epoch) <= k < PacksNum(t, s.epoch) ==>
          && Info(t, s.epoch, k).heads == s.heads
          && (Pack(t, s.epoch, k) == {} || e.id in Pack(t, s.epoch, k)))
  }

  lemma PinsStep(s: State, t: State, e: Built)
    requires NewEvent(s, e) && Viewed(s, t, e)
    ensures Pins(s, t, e)
  {
    hide Pack, Info, PacksNum, Full, Added;
  }

  /** Sealing pins one more pack: the one the closing event is in, or an empty one after it. */
  lemma PinsSeal(s: State, p: State, t: State, e: Built)
    requires PacksOk(s) && NewEvent(s, e) && Viewed(s, p, e) && SealViewed(p, t, s.epoch)
    ensures Pins(s, t, e) && Frozen(p, t) && EventsKept(p, t)
  {
    hide Pack, Info, PacksNum, Full, Added, PacksOk;
    LastPack(s, p, e);
    PinsStep(s, p, e);
  }

  /** After an event the open pack holds it, or is empty because the event closed the one before. */
  lemma LastPack(s: State, p: State, e: Built)
    requires PacksOk(s) && NewEvent(s, e) && Viewed(s, p, e)
    ensures var k := PacksNum(p, s.epoch);
      Pack(p, s.epoch, k) == {} || e.id in Pack(p, s.epoch, k)
  {
    hide Pack, Info, PacksNum, Full, Added;
    var k := PacksNum(p, s.epoch);
    if k != PacksNum(s, s.epoch) {
      EmptyBeyond(s, s.epoch, k);
    }
  }

  lemma EmptyBeyond(s: State, epoch: nat, k: nat)
    requires PacksTyped(s) && PacksNum(s, epoch) < k
    ensures Pack(s, epoch, k) == {}
  {
    hide Pack, PacksNum;
    assert forall id: Hash :: id !in Pack(s, epoch, k);
  }

  // ---------- blocks ----------

  /** The blocks of s are still there in t. */
  ghost predicate BlocksExtend(s: State, t: State) {
    && s.lastBlock <= t.lastBlock
    && forall n: nat :: n <= s.lastBlock && n in s.blocks ==> n in t.blocks && t.blocks[n] == s.blocks[n]
  }

  lemma {:induction false} BlocksStep(s: State, blocks: seq<Emitted>)
    requires BlocksOk(s) && forall b :: b in blocks ==> WellFormed(b)
    ensures BlocksOk(RunBlocks(s, blocks)) && BlocksExtend(s, RunBlocks(s, blocks))
    decreases |blocks|
  {
    if blocks == [] {
    } else {
      BlocksStep(AddBlock(s, BlockOf(blocks[0]), blocks[0].cheaters), blocks[1..]);
    }
  }

  lemma {:induction false} RunBlocksSnoc(s: State, bs: seq<Emitted>, b: Emitted)
    requires forall x :: x in bs + [b] ==> WellFormed(x)
    ensures RunBlocks(s, bs + [b]) == AddBlock(RunBlocks(s, bs), BlockOf(b), b.cheaters)
    decreases |bs|
  {
    if bs == [] {
      assert (bs + [b])[1..] == [];
    } else {
      assert (bs + [b])[1..] == bs[1..] + [b] && (bs + [b])[0] == bs[0];
      RunBlocksSnoc(AddBlock(s, BlockOf(bs[0]), bs[0].cheaters), bs[1..], b);
    }
  }

  function Trues(flags: seq<bool>): nat {
    if flags == [] then 0 else Trues(flags[..|flags| - 1]) + if flags[|flags| - 1] then 1 else 0
  }

  /** Blocks since the last one that sealed, if `before` had passed at the start. */
  function Since(flags: seq<bool>, before: nat): nat {
    if flags == [] then before
    else if flags[|flags| - 1] then 0 else Since(flags[..|flags| - 1], before) + 1
  }

  /** Which blocks seal, given only the cheaters of each: one that has some, or that is the max-th since
      the last seal. */
  function SealFlags(blocks: seq<Emitted>, before: nat, max: nat): (flags: seq<bool>)
    ensures |flags| == |blocks|
  {
    if blocks == [] then []
    else
      var flags := SealFlags(blocks[..|blocks| - 1], before, max);
      flags + [Since(flags, before) + 1 >= max || blocks[|blocks| - 1].cheaters != 0]
  }

  lemma RunNone(s: State)
    ensures RunBlocks(s, []) == s
  {
  }

  /** Over any series of blocks the epoch counts the seals and EpochBlocks the blocks since the last. */
  lemma {:induction false} BlocksCounted(s: State, blocks: seq<Emitted>)
    requires forall b :: b in blocks ==> WellFormed(b)
    ensures var t, flags := RunBlocks(s, blocks), SealFlags(blocks, s.epochBlocks, s.maxEpochBlocks);
      && t.epoch == s.epoch + Trues(flags) && t.epochBlocks == Since(flags, s.epochBlocks)
    decreases |blocks|
  {
    hide RunBlocks, BlockOf, WellFormed;
    if blocks == [] {
      RunNone(s);
    } else {
      var n := |blocks| - 1;
      var bs, b := blocks[..n], blocks[n];
      assert blocks == bs + [b];
      BlocksCounted(s, bs);
      RunBlocksFrame(s, bs);
      RunBlocksSnoc(s, bs, b);
    }
  }

  /** No block of the series seals, read off the blocks and the count before them. */
  predicate NoSeal(blocks: seq<Emitted>, before: nat, max: nat) {
    forall i :: 0 <= i < |blocks| ==> blocks[i].cheaters == 0 && before + i + 1 < max
  }

  lemma {:induction false} NoSealIff(s: State, blocks: seq<Emitted>)
    requires forall b :: b in blocks ==> WellFormed(b)
    ensures s.epoch <= RunBlocks(s, blocks).epoch
    ensures NoSeal(blocks, s.epochBlocks, s.maxEpochBlocks) <==> RunBlocks(s, blocks).epoch == s.epoch
    ensures NoSeal(blocks, s.epochBlocks, s.maxEpochBlocks) ==> RunBlocks(s, blocks).epochBlocks == s.epochBlocks + |blocks|
    decreases |blocks|
  {
    hide RunBlocks, BlockOf, WellFormed;
    if blocks == [] {
      RunNone(s);
    } else {
      var n := |blocks| - 1;
      var bs, b := blocks[..n], blocks[n];
      assert blocks == bs + [b];
      assert forall i :: 0 <= i < n ==> bs[i] == blocks[i];
      NoSealIff(s, bs);
      RunBlocksFrame(s, bs);
      RunBlocksSnoc(s, bs, b);
    }
  }

  /** ... and the blocks get consecutive indices, each the block made of what the engine emitted. */
  lemma {:induction false} BlocksConsecutive(s: State, blocks: seq<Emitted>, i: nat)
    requires (forall b :: b in blocks ==> WellFormed(b)) && i < |blocks|
    ensures var t := RunBlocks(s, blocks);
      && t.lastBlock == s.lastBlock + |blocks|
      && s.lastBlock + 1 + i in t.blocks && t.blocks[s.lastBlock + 1 + i] == BlockOf(blocks[i])
    decreases |blocks|
  {
    hide RunBlocks, BlockOf, WellFormed;
    var n := |blocks| - 1;
    var bs, b := blocks[..n], blocks[n];
    assert blocks == bs + [b];
    RunBlocksSnoc(s, bs, b);
    if n == 0 {
      RunNone(s);
    } else {
      BlocksConsecutive(s, bs, if i < n then i else 0);
    }
  }

  // ---------- one step ----------

  /** One call of `processEvent` keeps the invariant, the pinned packs, the events and the blocks,
      whatever the engine does; a rejected event leaves events, packs and heads as they were. */
  lemma StepSafe(s: State, e: Built, o: Outcome)
    requires Inv(s) && EngineOk(o)
    requires NewEvent(s, e) || s.stopped || e.id in s.events || e.event.epoch != s.epoch
    ensures var (t, verdict) := ProcessEvent(s, e, o);
      && Inv(t) && Frozen(s, t) && EventsKept(s, t) && BlocksExtend(s, t)
      && (verdict.Connected? ==> t.events == s.events[e.id := e] && Pins(s, t, e))
      && (verdict.Rejected? ==>
            && t.events == s.events && t.packs == s.packs && t.packInfos == s.packInfos
            && t.packsNum == s.packsNum && t.heads == s.heads && t.tips == s.tips)
  {
    hide Pack, Info, PacksNum, EventsOk, PacksOk, InfosOk, LiveHeads, Covered, BlocksOk, PacksOnNewEvent, PacksOnNewEpoch, RunBlocks, Frozen, EventsKept, BlocksExtend, Pins;
    Unchanged(s);
    if s.stopped || e.id in s.events || e.event.epoch != s.epoch {
    } else if o.failed {
      RejectedSafe(s, e, o);
    } else {
      ConnectedSafe(s, e, o);
    }
  }

  lemma Unchanged(s: State)
    requires BlocksOk(s)
    ensures Frozen(s, s) && EventsKept(s, s) && BlocksExtend(s, s)
  {
  }

  /** A failed engine leaves only its blocks and counters behind, also when it had sealed. */
  lemma RejectedSafe(s: State, e: Built, o: Outcome)
    requires Inv(s) && EngineOk(o)
    requires NewEvent(s, e) && !s.stopped && o.failed
    ensures var t := ProcessEvent(s, e, o).0;
      && Inv(t) && Frozen(s, t) && EventsKept(s, t) && BlocksExtend(s, t)
      && t == s.(blocks := t.blocks, lastBlock := t.lastBlock, epochBlocks := t.epochBlocks, epoch := t.epoch)
      && s.epoch <= t.epoch && (t.epoch == s.epoch <==> NoSeal(o.blocks, s.epochBlocks, s.maxEpochBlocks))
  {
    hide Pack, Info, PacksNum, PacksOk, InfosOk, Frozen, RunBlocks, NoSeal;
    var stored := s.(events := s.events[e.id := e]);
    RunBlocksFrame(stored, o.blocks);
    NoSealIff(stored, o.blocks);
    BlocksStored(s, e);
    BlocksStep(stored, o.blocks);
    var t := ProcessEvent(s, e, o).0;
    assert t.events == s.events;
    SameTables(s, t);
    SamePacksOk(s, t);
    EpochOnly(s, t);
  }

  /** A new epoch without events has its heads in order. */
  lemma EpochOnly(s: State, t: State)
    requires EventsOk(s) && LiveHeads(s) && Covered(s)
    requires t.events == s.events && t.heads == s.heads && s.epoch <= t.epoch
    ensures EventsOk(t) && LiveHeads(t) && Covered(t)
  {
    hide HasChild, Dominated;
  }

  /** The pack tables look the same in both states. */
  ghost predicate SamePacks(s: State, t: State) {
    && (forall epoch: nat, k: nat {:trigger Pack(t, epoch, k)} :: Pack(t, epoch, k) == Pack(s, epoch, k))
    && (forall epoch: nat, k: nat {:trigger Info(t, epoch, k)} :: Info(t, epoch, k) == Info(s, epoch, k))
    && (forall epoch: nat {:trigger PacksNum(t, epoch)} :: PacksNum(t, epoch) == PacksNum(s, epoch))
    && t.packInfos == s.packInfos && t.packsNum == s.packsNum && t.events == s.events
  }

  lemma SameTables(s: State, t: State)
    requires t.packs == s.packs && t.packInfos == s.packInfos && t.packsNum == s.packsNum && t.events == s.events
    ensures SamePacks(s, t)
  {
  }

  /** The pack invariants read nothing but the pack tables and the events. */
  lemma SamePacksOk(s: State, t: State)
    requires PacksOk(s) && InfosOk(s) && SamePacks(s, t)
    ensures PacksOk(t) && InfosOk(t) && Frozen(s, t) && EventsKept(s, t)
  {
    hide Pack, Info, PacksNum, SizeSum;
    forall id: Hash | id in t.events
      ensures exists j: nat :: id in Pack(t, t.events[id].event.epoch, j)
    {
      var j: nat :| id in Pack(s, s.events[id].event.epoch, j);
      assert id in Pack(t, t.events[id].event.epoch, j);
    }
    forall epoch: nat, k: nat
      ensures Info(t, epoch, k).index == k && Info(t, epoch, k).numOfEvents == |Pack(t, epoch, k)| <= 250
      ensures Info(t, epoch, k).size == SizeSum(t.events, Pack(t, epoch, k)) % 0x1_0000_0000
      ensures PacksNum(t, epoch) < k ==> !Full(Info(t, epoch, k))
    {
      assert Info(s, epoch, k).index == k;
    }
    forall epoch: nat
      ensures 1 <= PacksNum(t, epoch) && !Full(Info(t, epoch, PacksNum(t, epoch)))
    {
      assert !Full(Info(s, epoch, PacksNum(s, epoch)));
    }
  }

  lemma ConnectedSafe(s: State, e: Built, o: Outcome)
    requires Inv(s) && EngineOk(o)
    requires NewEvent(s, e) && !s.stopped && !o.failed
    ensures var t := ProcessEvent(s, e, o).0;
      && Inv(t) && Frozen(s, t) && EventsKept(s, t) && BlocksExtend(s, t)
      && t.events == s.events[e.id := e] && Pins(s, t, e)
  {
    hide Pack, Info, PacksNum, EventsOk, PacksOk, InfosOk, LiveHeads, HeadsOk, Covered, BlocksOk, RunBlocks, Frozen, EventsKept, BlocksExtend, Viewed, SealViewed, Pins;
    var stored := s.(events := s.events[e.id := e]);
    RunBlocksFrame(stored, o.blocks);
    BlocksStored(s, e);
    BlocksStep(stored, o.blocks);
    var run := RunBlocks(stored, o.blocks);
    var p := PacksOnNewEvent(run, e);
    PacksViewed(s, run, e);
    PacksStep(s, p, e);
    InfosStep(s, p, e);
    PinsStep(s, p, e);
    FrozenStep(s, p, e);
    var t := ProcessEvent(s, e, o).0;
    EventsStep(s, t, e);
    BlocksSame(s, run, t);
    if run.epoch == s.epoch {
      HeadsStep(s, t, e);
      CoverStep(s, t, e);
      SameTables(p, t);
      SamePacksOk(p, t);
      SamePins(s, p, t, e);
      FrozenTrans(s, p, t);
    } else {
      SealIsViewed(p, s.epoch, t);
      SealPacks(p, t, s.epoch);
      PinsSeal(s, p, t, e);
      FreshAfter(s, t, e);
      FrozenTrans(s, p, t);
    }
  }

  /** When the open pack is closed: by its 250th event, or when its events reach two megabytes, counted in
      32 bits; and by the end of the epoch in any case. */
  lemma PackClosesIff(s: State, e: Built, o: Outcome)
    requires Inv(s) && EngineOk(o) && NewEvent(s, e) && !s.stopped && !o.failed
    ensures var t, k := ProcessEvent(s, e, o).0, PacksNum(s, s.epoch);
      var closes := |Pack(s, s.epoch, k)| + 1 >= 250
                    || (SizeSum(s.events, Pack(s, s.epoch, k)) + e.size) % 0x1_0000_0000 >= 2097152;
      && PacksNum(t, s.epoch) == k + (if closes then 1 else 0) + (if t.epoch != s.epoch then 1 else 0)
      && Pack(t, s.epoch, k) == Pack(s, s.epoch, k) + {e.id}
  {
    hide Pack, Info, PacksNum, PacksOk, EventsOk, Recorded, LiveHeads, Covered, BlocksOk, RunBlocks, SizeSum, Viewed, SealViewed;
    var stored := s.(events := s.events[e.id := e]);
    RunBlocksFrame(stored, o.blocks);
    var run := RunBlocks(stored, o.blocks);
    var p := PacksOnNewEvent(run, e);
    PacksViewed(s, run, e);
    FullIff(s, p, e);
    var t := ProcessEvent(s, e, o).0;
    if run.epoch == s.epoch {
      SameTables(p, t);
      assert PacksNum(t, s.epoch) == PacksNum(p, s.epoch) && Pack(t, s.epoch, PacksNum(s, s.epoch)) == Pack(p, s.epoch, PacksNum(s, s.epoch));
    } else {
      SealIsViewed(p, s.epoch, t);
      Sealed(p, t, s.epoch, PacksNum(s, s.epoch));
    }
  }

  lemma FullIff(s: State, p: State, e: Built)
    requires CountsOk(s) && SizesOk(s) && Viewed(s, p, e)
    ensures var k := PacksNum(s, s.epoch);
      var closes := |Pack(s, s.epoch, k)| + 1 >= 250
                    || (SizeSum(s.events, Pack(s, s.epoch, k)) + e.size) % 0x1_0000_0000 >= 2097152;
      PacksNum(p, s.epoch) == k + (if closes then 1 else 0) && Pack(p, s.epoch, k) == Pack(s, s.epoch, k) + {e.id}
  {
    hide Pack, Info, PacksNum, SizeSum;
    var k := PacksNum(s, s.epoch);
    assert Info(s, s.epoch, k).index == k;
    Wrap(SizeSum(s.events, Pack(s, s.epoch, k)), e.size);
  }

  lemma Sealed(s: State, t: State, epoch: nat, k: nat)
    requires SealViewed(s, t, epoch)
    ensures PacksNum(t, epoch) == PacksNum(s, epoch) + 1 && Pack(t, epoch, k) == Pack(s, epoch, k)
  {
    hide Pack, Info, PacksNum;
  }

  lemma SamePins(s: State, p: State, t: State, e: Built)
    requires Pins(s, p, e) && SamePacks(p, t)
    ensures Pins(s, t, e)
  {
    hide Pack, Info, PacksNum;
  }

  lemma BlocksStored(s: State, e: Built)
    requires BlocksOk(s)
    ensures BlocksOk(s.(events := s.events[e.id := e]))
  {
  }

  lemma BlocksSame(s: State, run: State, t: State)
    requires BlocksOk(run) && t.blocks == run.blocks && t.lastBlock == run.lastBlock && t.epochBlocks == run.epochBlocks && t.maxEpochBlocks == run.maxEpochBlocks
    ensures BlocksOk(t)
    ensures forall u: State :: u.blocks == s.blocks && u.lastBlock == s.lastBlock && BlocksExtend(u, run) ==> BlocksExtend(s, t)
  {
  }

  lemma FrozenTrans(s: State, p: State, t: State)
    requires Frozen(s, p) && Frozen(p, t) && EventsKept(s, p) && p.events == t.events
    ensures Frozen(s, t) && EventsKept(s, t)
  {
    hide Pack, Info, PacksNum;
  }

  lemma FreshAfter(s: State, t: State, e: Built)
    requires EventsOk(s) && NewEvent(s, e) && t.events == s.events[e.id := e] && t.heads == {} && s.epoch < t.epoch
    ensures HeadsOk(t) && LiveHeads(t) && Covered(t)
  {
  }
}
