/** The store with its caches, and the service's event processing, as they run: each method is
    proved to compute the functions of Consensus on the tables, whatever the caches hold or forget. */
module GossipService {
  import opened EventCodec
  import opened EventBuild
  import opened EventOrder
  import opened Consensus
  import opened Options

  class Store {
    // Tables.
    var events: map<Hash, Built>
    var packs: map<(nat, nat), set<Hash>>
    var packInfos: map<(nat, nat), PackInfo>
    var packsNum: map<nat, nat>
    var heads: set<Hash>
    var tips: map<nat, Hash>
    var blocks: map<nat, Block>
    var blockState: (nat, nat)
    var epochState: nat
    // Caches: the LRU caches may have forgotten any entry, or be switched off.
    const caching: bool
    var cachedEvents: map<Hash, Built>
    var cachedInfos: map<(nat, nat), PackInfo>
    var cachedBlockState: Option<(nat, nat)>
    var cachedEpochState: Option<nat>

    /** Whatever is cached is what is stored. */
    ghost predicate Coherent()
      reads this
    {
      && (!caching ==> cachedEvents == map[] && cachedInfos == map[])
      && (forall id :: id in cachedEvents ==> id in events && events[id] == cachedEvents[id])
      && (forall k :: k in cachedInfos ==> k in packInfos && packInfos[k] == cachedInfos[k])
      && (cachedBlockState.Some? ==> cachedBlockState.value == blockState)
      && (cachedEpochState.Some? ==> cachedEpochState.value == epochState)
    }

    /** The contents of the tables. */
    ghost function Tables(maxEpochBlocks: nat, stopped: bool): State
      reads this
    {
      State(maxEpochBlocks, stopped, events, packs, packInfos, packsNum, heads, tips, blocks,
            blockState.0, blockState.1, epochState)
    }

    /** The state after genesis. */
    constructor (genesis: Block, caching: bool)
      ensures Coherent()
      ensures events == map[] && packs == map[] && packInfos == map[] && packsNum == map[] && heads == {} && tips == map[]
      ensures blocks == map[0 := genesis] && blockState == (0, 0) && epochState == 1
    {
      this.caching := caching;
      events, packs, packInfos, packsNum, heads, tips := map[], map[], map[], map[], {}, map[];
      blocks, blockState, epochState := map[0 := genesis], (0, 0), 1;
      cachedEvents, cachedInfos := map[], map[];
      cachedBlockState, cachedEpochState := None, None;
    }

    // ---------- events ----------

    method SetEvent(e: Built)
      requires Coherent()
      modifies this`events, this`cachedEvents
      ensures Coherent() && events == old(events)[e.id := e]
    {
      events := events[e.id := e];
      if caching {
        var forgotten: set<Hash> := *;
        cachedEvents := (cachedEvents - forgotten)[e.id := e];
      }
    }

    method DelEvent(id: Hash)
      requires Coherent()
      modifies this`events, this`cachedEvents
      ensures Coherent() && events == old(events) - {id}
    {
      events := events - {id};
      cachedEvents := cachedEvents - {id};
    }

    method GetEvent(id: Hash) returns (r: Option<Built>)
      requires Coherent()
      modifies this`cachedEvents
      ensures Coherent()
      ensures r == if id in events then Some(events[id]) else None
    {
      if caching && id in cachedEvents {
        return Some(cachedEvents[id]);
      }
      if id !in events {
        return None;
      }
      if caching {
        var forgotten: set<Hash> := *;
        cachedEvents := (cachedEvents - forgotten)[id := events[id]];
      }
      r := Some(events[id]);
    }

    method HasEvent(id: Hash) returns (r: bool)
      ensures r <==> id in events
    {
      r := id in events;
    }

    // ---------- packs ----------

    method GetPackInfo(epoch: nat, k: nat) returns (r: Option<PackInfo>)
      requires Coherent()
      modifies this`cachedInfos
      ensures Coherent()
      ensures r == if (epoch, k) in packInfos then Some(packInfos[(epoch, k)]) else None
    {
      if caching && (epoch, k) in cachedInfos {
        return Some(cachedInfos[(epoch, k)]);
      }
      if (epoch, k) !in packInfos {
        return None;
      }
      if caching {
        var forgotten: set<(nat, nat)> := *;
        cachedInfos := (cachedInfos - forgotten)[(epoch, k) := packInfos[(epoch, k)]];
      }
      r := Some(packInfos[(epoch, k)]);
    }

    method GetPackInfoOrDefault(epoch: nat, k: nat) returns (info: PackInfo)
      requires Coherent()
      modifies this`cachedInfos
      ensures Coherent() && info == Info(Tables(0, false), epoch, k)
    {
      var r := GetPackInfo(epoch, k);
      info := if r.None? then PackInfo(k, 0, 0, {}) else r.value;
    }

    /** `GetPackInfoRLP`: what peers are served, read past the cache. */
    method GetStoredPackInfo(epoch: nat, k: nat) returns (r: Option<PackInfo>)
      requires Coherent()
      ensures (epoch, k) in cachedInfos ==> r == Some(cachedInfos[(epoch, k)])
      ensures r == if (epoch, k) in packInfos then Some(packInfos[(epoch, k)]) else None
    {
      r := if (epoch, k) in packInfos then Some(packInfos[(epoch, k)]) else None;
    }

    method SetPackInfo(epoch: nat, k: nat, value: PackInfo)
      requires Coherent()
      modifies this`packInfos, this`cachedInfos
      ensures Coherent() && packInfos == old(packInfos)[(epoch, k) := value]
    {
      packInfos := packInfos[(epoch, k) := value];
      if caching {
        var forgotten: set<(nat, nat)> := *;
        cachedInfos := (cachedInfos - forgotten)[(epoch, k) := value];
      }
    }

    method AddToPack(epoch: nat, k: nat, id: Hash)
      requires Coherent()
      modifies this`packs
      ensures Coherent() && packs == old(packs)[(epoch, k) := (if (epoch, k) in old(packs) then old(packs)[(epoch, k)] else {}) + {id}]
    {
      packs := packs[(epoch, k) := (if (epoch, k) in packs then packs[(epoch, k)] else {}) + {id}];
    }

    method GetPacksNumOrDefault(epoch: nat) returns (n: nat)
      ensures n == PacksNum(Tables(0, false), epoch)
    {
      n := if epoch in packsNum then packsNum[epoch] else 1;
    }

    method SetPacksNum(epoch: nat, n: nat)
      requires Coherent()
      modifies this`packsNum
      ensures Coherent() && packsNum == old(packsNum)[epoch := n]
    {
      packsNum := packsNum[epoch := n];
    }

    // ---------- heads ----------

    method DelHead(id: Hash)
      requires Coherent()
      modifies this`heads
      ensures Coherent() && heads == old(heads) - {id}
    {
      heads := heads - {id};
    }

    method AddHead(id: Hash)
      requires Coherent()
      modifies this`heads
      ensures Coherent() && heads == old(heads) + {id}
    {
      heads := heads + {id};
    }

    method SetLastEvent(from: nat, id: Hash)
      requires Coherent()
      modifies this`tips
      ensures Coherent() && tips == old(tips)[from := id]
    {
      tips := tips[from := id];
    }

    /** `resetEpochStore`: a new database for heads and tips. */
    method ResetEpochStore()
      requires Coherent()
      modifies this`heads, this`tips
      ensures Coherent() && heads == {} && tips == map[]
    {
      heads, tips := {}, map[];
    }

    // ---------- decided state ----------

    method GetBlockState() returns (bs: (nat, nat))
      requires Coherent()
      modifies this`cachedBlockState
      ensures Coherent() && bs == blockState
    {
      if cachedBlockState.Some? {
        return cachedBlockState.value;
      }
      cachedBlockState := Some(blockState);
      bs := blockState;
    }

    method SetBlockState(bs: (nat, nat))
      requires Coherent()
      modifies this`blockState, this`cachedBlockState
      ensures Coherent() && blockState == bs
    {
      blockState := bs;
      cachedBlockState := Some(bs);
    }

    method GetEpoch() returns (epoch: nat)
      requires Coherent()
      modifies this`cachedEpochState
      ensures Coherent() && epoch == epochState
    {
      if cachedEpochState.Some? {
        return cachedEpochState.value;
      }
      cachedEpochState := Some(epochState);
      epoch := epochState;
    }

    method SetEpochState(epoch: nat)
      requires Coherent()
      modifies this`epochState, this`cachedEpochState
      ensures Coherent() && epochState == epoch
    {
      epochState := epoch;
      cachedEpochState := Some(epoch);
    }

    method SetBlock(n: nat, block: Block)
      requires Coherent()
      modifies this`blocks
      ensures Coherent() && blocks == old(blocks)[n := block]
    {
      blocks := blocks[n := block];
    }
  }

  /** The callbacks of one block: events are collected as they are applied. */
  class BlockCallbacks {
    const atroposId: Hash
    const cheaters: nat
    var confirmedEvents: seq<Built>
    var atropos: Option<Built>
    var payloadSize: nat
    ghost var applied: seq<Built>

    ghost predicate Valid()
      reads this
    {
      && IDs(confirmedEvents) == ConfirmedIDs(applied)
      && atropos == FindAtropos(atroposId, applied)
    }

    /** `BeginBlock`. */
    constructor (atroposId: Hash, cheaters: nat)
      ensures Valid() && applied == [] && this.atroposId == atroposId && this.cheaters == cheaters
    {
      this.atroposId, this.cheaters := atroposId, cheaters;
      confirmedEvents, atropos, payloadSize, applied := [], None, 0, [];
    }

    method ApplyEvent(e: Built)
      requires Valid()
      modifies this
      ensures Valid() && applied == old(applied) + [e]
      ensures payloadSize == old(payloadSize) + |e.event.payload|
    {
      if atroposId == e.id {
        atropos := Some(e);
      }
      if |e.event.payload| != 0 {
        confirmedEvents := confirmedEvents + [e];
      }
      payloadSize := payloadSize + |e.event.payload|;
      ConfirmedConcat(applied, [e]);
      FindSnoc(atroposId, applied, e);
      applied := applied + [e];
    }

    /** The block of `EndBlock`. */
    method NewBlock() returns (block: Block)
      requires Valid() && atropos.Some?
      modifies this`confirmedEvents
      ensures var b := Emitted(atroposId, applied, cheaters);
        WellFormed(b) && block == BlockOf(b)
      ensures block.atropos == atroposId
      ensures forall i: nat :: LastWith(atroposId, applied, i) ==> block.time == applied[i].event.time
    {
      hide FindAtropos, ConfirmedIDs, SortIds;
      var sorted := SortEvents(confirmedEvents);
      SortIdsSorts(ConfirmedIDs(applied));
      SortedUnique(IDs(sorted), SortIds(ConfirmedIDs(applied)));
      confirmedEvents := sorted;
      block := Block(atropos.value.event.time, atroposId, IDs(confirmedEvents));
      forall i: nat | LastWith(atroposId, applied, i)
        ensures block.time == applied[i].event.time
      {
        FindsLast(atroposId, applied, i);
      }
    }

    /** `EndBlock`: adds the block; the epoch is sealed after MaxEpochBlocks blocks or on a cheater. */
    method EndBlock(store: Store, maxEpochBlocks: nat) returns (sealEpoch: bool)
      requires Valid() && atropos.Some? && store.Coherent()
      modifies this, store`blocks, store`blockState, store`epochState, store`cachedBlockState, store`cachedEpochState
      ensures store.Coherent()
      ensures var b := Emitted(atroposId, old(applied), cheaters);
        && WellFormed(b)
        && sealEpoch == (old(store.blockState).1 + 1 >= maxEpochBlocks || cheaters != 0)
        && store.blocks == old(store.blocks)[old(store.blockState).0 + 1 := BlockOf(b)]
        && store.blockState == (old(store.blockState).0 + 1, if sealEpoch then 0 else old(store.blockState).1 + 1)
        && store.epochState == old(store.epochState) + if sealEpoch then 1 else 0
      ensures var n := old(store.blockState).0 + 1;
        && n in store.blocks && store.blocks[n].atropos == atroposId
        && (forall i: nat :: LastWith(atroposId, old(applied), i) ==> store.blocks[n].time == old(applied)[i].event.time)
    {
      hide Valid, FindAtropos, ConfirmedIDs, SortIds, Store.Coherent, LastWith, BlockOf, WellFormed;
      var block := NewBlock();
      var bs := store.GetBlockState();
      bs := (bs.0 + 1, bs.1 + 1);
      store.SetBlock(bs.0, block);
      sealEpoch := bs.1 >= maxEpochBlocks || cheaters != 0;
      if sealEpoch {
        bs := (bs.0, 0);
        var epoch := store.GetEpoch();
        store.SetEpochState(epoch + 1);
      }
      store.SetBlockState(bs);
    }
  }

  lemma {:induction false} FindSnoc(id: Hash, applied: seq<Built>, e: Built)
    ensures FindAtropos(id, applied + [e]) == if e.id == id then Some(e) else FindAtropos(id, applied)
  {
    if applied == [] {
      assert (applied + [e])[1..] == [];
    } else {
      assert (applied + [e])[1..] == applied[1..] + [e];
      FindSnoc(id, applied[1..], e);
    }
  }

  lemma PackIs(s: State, epoch: nat, k: nat)
    ensures Pack(s, epoch, k) == if (epoch, k) in s.packs then s.packs[(epoch, k)] else {}
  {
  }

  /** The fields that `packsOnNewEvent` leaves. */
  lemma PacksAre(s: State, e: Built, packs: map<(nat, nat), set<Hash>>, infos: map<(nat, nat), PackInfo>, nums: map<nat, nat>)
    requires var epoch, k := e.event.epoch, PacksNum(s, e.event.epoch);
      var info := Added(Info(s, epoch, k), k, e);
      && packs == s.packs[(epoch, k) := Pack(s, epoch, k) + {e.id}]
      && infos == s.packInfos[(epoch, k) := if Full(info) then info.(heads := s.heads) else info]
      && nums == if Full(info) then s.packsNum[epoch := k + 1] else s.packsNum
    ensures s.(packs := packs, packInfos := infos, packsNum := nums) == PacksOnNewEvent(s, e)
  {
  }

  class Service {
    const store: Store
    const maxEpochBlocks: nat
    var stopped: bool

    ghost function Model(): State
      reads this, store
    {
      store.Tables(maxEpochBlocks, stopped)
    }

    constructor (genesis: Block, maxEpochBlocks: nat, caching: bool)
      ensures store.Coherent() && fresh(store)
      ensures Model() == State(maxEpochBlocks, false, map[], map[], map[], map[], {}, map[], map[0 := genesis], 0, 0, 1)
    {
      this.store := new Store(genesis, caching);
      this.maxEpochBlocks := maxEpochBlocks;
      this.stopped := false;
    }

    /** The open pack's number, and its record once the event is added. */
    method OpenPack(e: Built) returns (packIdx: nat, packInfo: PackInfo)
      requires store.Coherent()
      modifies store`cachedInfos
      ensures store.Coherent() && packIdx == PacksNum(Model(), e.event.epoch)
      ensures packInfo == Added(Info(Model(), e.event.epoch, packIdx), packIdx, e)
    {
      hide Store.Coherent;
      packIdx := store.GetPacksNumOrDefault(e.event.epoch);
      packInfo := store.GetPackInfoOrDefault(e.event.epoch, packIdx);
      packInfo := packInfo.(index := packIdx);
      packInfo := packInfo.(numOfEvents := packInfo.numOfEvents + 1);
      packInfo := packInfo.(size := (packInfo.size + e.size % U32) % U32);
    }

    /** Pins the heads of a full pack and opens the next. */
    method PinIfFull(epoch: nat, packIdx: nat, info: PackInfo) returns (packInfo: PackInfo)
      requires store.Coherent()
      modifies store`packsNum
      ensures store.Coherent() && packInfo == if Full(info) then info.(heads := store.heads) else info
      ensures store.packsNum == if Full(info) then old(store.packsNum)[epoch := packIdx + 1] else old(store.packsNum)
    {
      hide Store.Coherent;
      packInfo := info;
      if packInfo.numOfEvents >= MAX_PACK_EVENTS || packInfo.size >= MAX_PACK_SIZE {
        packInfo := packInfo.(heads := store.heads);
        store.SetPacksNum(epoch, packIdx + 1);
      }
    }

    /** The three writes of `packsOnNewEvent`. */
    method FileEvent(e: Built)
      requires store.Coherent()
      modifies store`packs, store`packInfos, store`packsNum, store`cachedInfos
      ensures store.Coherent()
      ensures var s := old(Model());
        var epoch, k := e.event.epoch, PacksNum(s, e.event.epoch);
        var info := Added(Info(s, epoch, k), k, e);
        && store.packs == s.packs[(epoch, k) := Pack(s, epoch, k) + {e.id}]
        && store.packInfos == s.packInfos[(epoch, k) := if Full(info) then info.(heads := s.heads) else info]
        && store.packsNum == if Full(info) then s.packsNum[epoch := k + 1] else s.packsNum
    {
      hide Store.Coherent, Info, PacksNum, Added, Pack, Full;
      var epoch := e.event.epoch;
      var packIdx, packInfo := OpenPack(e);
      PackIs(Model(), epoch, packIdx);
      store.AddToPack(epoch, packIdx, e.id);
      packInfo := PinIfFull(epoch, packIdx, packInfo);
      store.SetPackInfo(epoch, packIdx, packInfo);
    }

    /** `packsOnNewEvent`. */
    method PacksOnNewEvent(e: Built)
      requires store.Coherent()
      modifies store`packs, store`packInfos, store`packsNum, store`cachedInfos
      ensures store.Coherent() && Model() == Consensus.PacksOnNewEvent(old(Model()), e)
    {
      hide Store.Coherent, Consensus.PacksOnNewEvent, Info, PacksNum, Added, Pack, Full;
      ghost var s := Model();
      FileEvent(e);
      PacksAre(s, e, store.packs, store.packInfos, store.packsNum);
    }

    /** `packsOnNewEpoch`. */
    method PacksOnNewEpoch(oldEpoch: nat)
      requires store.Coherent()
      modifies store`packInfos, store`packsNum, store`cachedInfos
      ensures store.Coherent() && Model() == Consensus.PacksOnNewEpoch(old(Model()), oldEpoch)
    {
      hide Store.Coherent;
      var packIdx := store.GetPacksNumOrDefault(oldEpoch);
      var packInfo := store.GetPackInfoOrDefault(oldEpoch, packIdx);
      packInfo := packInfo.(heads := store.heads);
      store.SetPackInfo(oldEpoch, packIdx, packInfo);
      store.SetPacksNum(oldEpoch, packIdx + 1);
    }

    /** One block of the engine, through the callbacks. */
    method RunBlock(b: Emitted)
      requires store.Coherent() && WellFormed(b)
      modifies store`blocks, store`blockState, store`epochState, store`cachedBlockState, store`cachedEpochState
      ensures store.Coherent() && Model() == AddBlock(old(Model()), BlockOf(b), b.cheaters)
    {
      hide Store.Coherent, BlockCallbacks.Valid, FindAtropos, BlockOf;
      var cb := ApplyAll(b);
      AppliedAtropos(cb);
      var _ := cb.EndBlock(store, maxEpochBlocks);
    }

    lemma AppliedAtropos(cb: BlockCallbacks)
      requires cb.Valid()
      ensures cb.atropos.Some? <==> FindAtropos(cb.atroposId, cb.applied).Some?
    {
    }

    /** `BeginBlock` and the calls of `ApplyEvent`. */
    method ApplyAll(b: Emitted) returns (cb: BlockCallbacks)
      ensures fresh(cb) && cb.Valid() && cb.applied == b.applied && cb.atroposId == b.atropos && cb.cheaters == b.cheaters
    {
      hide BlockCallbacks.Valid;
      cb := new BlockCallbacks(b.atropos, b.cheaters);
      for i := 0 to |b.applied|
        invariant fresh(cb) && cb.Valid() && cb.applied == b.applied[..i]
      {
        cb.ApplyEvent(b.applied[i]);
      }
      assert b.applied[..|b.applied|] == b.applied;
    }

    /** The blocks an engine call emits. */
    method RunEngine(blocks: seq<Emitted>)
      requires store.Coherent() && forall b :: b in blocks ==> WellFormed(b)
      modifies store`blocks, store`blockState, store`epochState, store`cachedBlockState, store`cachedEpochState
      ensures store.Coherent() && Model() == RunBlocks(old(Model()), blocks)
    {
      hide BlockOf, WellFormed, Store.Coherent, AddBlock;
      for i := 0 to |blocks|
        invariant store.Coherent()
        invariant RunBlocks(old(Model()), blocks) == RunBlocks(Model(), blocks[i..])
      {
        assert blocks[i..][1..] == blocks[i + 1..];
        RunBlock(blocks[i]);
      }
    }

    /** `processEvent`: rejects, or connects the event, exactly as the function of the same name. */
    method ProcessEvent(e: Built, o: Outcome) returns (v: Verdict)
      requires store.Coherent() && EngineOk(o)
      modifies store
      ensures store.Coherent() && (Model(), v) == Consensus.ProcessEvent(old(Model()), e, o)
    {
      hide WellFormed, Store.Coherent, RunBlocks, Consensus.PacksOnNewEvent, Consensus.PacksOnNewEpoch;
      if stopped {
        return Rejected(Stopped);
      }
      var has := store.HasEvent(e.id);
      if has {
        return Rejected(AlreadyConnected);
      }
      var oldEpoch := store.GetEpoch();
      if e.event.epoch != oldEpoch {
        return Rejected(WrongEpoch);
      }
      v := Connect(e, o, oldEpoch);
    }

    /** `processEvent` after its checks. */
    method Connect(e: Built, o: Outcome, oldEpoch: nat) returns (v: Verdict)
      requires store.Coherent() && EngineOk(o)
      requires !stopped && e.id !in store.events && e.event.epoch == oldEpoch == store.epochState
      modifies store
      ensures store.Coherent() && (Model(), v) == Consensus.ProcessEvent(old(Model()), e, o)
    {
      hide WellFormed, Store.Coherent, RunBlocks, Consensus.PacksOnNewEvent, Consensus.PacksOnNewEpoch;
      store.SetEvent(e);
      RunEngine(o.blocks);
      if o.failed {
        store.DelEvent(e.id);
        return Rejected(EngineFailed);
      }
      PacksOnNewEvent(e);
      Settle(e, oldEpoch);
      v := Connected;
    }

    /** The end of `processEvent`: the new heads, or a new epoch. */
    method Settle(e: Built, oldEpoch: nat)
      requires store.Coherent()
      modifies store`tips, store`heads, store`packInfos, store`packsNum, store`cachedInfos, store`cachedEpochState
      ensures store.Coherent()
      ensures var s := old(Model());
        Model() == if s.epoch == oldEpoch
          then s.(tips := s.tips[e.event.creator := e.id], heads := s.heads - (set p | p in e.event.parents) + {e.id})
          else Consensus.PacksOnNewEpoch(s, oldEpoch).(heads := {}, tips := map[])
    {
      hide Store.Coherent, Consensus.PacksOnNewEpoch;
      var newEpoch := store.GetEpoch();
      if newEpoch == oldEpoch {
        store.SetLastEvent(e.event.creator, e.id);
        for i := 0 to |e.event.parents|
          invariant store.Coherent()
          invariant store.heads == old(store.heads) - (set p | p in e.event.parents[..i])
          modifies store`heads
        {
          store.DelHead(e.event.parents[i]);
        }
        assert e.event.parents[..|e.event.parents|] == e.event.parents;
        store.AddHead(e.id);
      } else {
        PacksOnNewEpoch(oldEpoch);
        store.ResetEpochStore();
      }
    }
  }
}
