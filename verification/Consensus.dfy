/** Event processing (`gossip/consensus_callbacks.go`, `gossip/pack.go` and the stores) as functions
    on the contents of the database tables.  The consensus engine is an arbitrary outcome: it may
    fail, and it may emit blocks, each of which may seal the epoch. */
module Consensus {
  import opened EventCodec
  import opened EventBuild
  import opened EventOrder
  import opened Options

  const MAX_PACK_EVENTS := 250
  const MAX_PACK_SIZE := 2 * 1024 * 1024

  datatype PackInfo = PackInfo(index: nat, size: nat, numOfEvents: nat, heads: set<Hash>)
  datatype Block = Block(time: nat, atropos: Hash, events: seq<Hash>)

  /** A block as the engine emits it: its Atropos, the events in the order they are applied, and the
      number of cheaters. */
  datatype Emitted = Emitted(atropos: Hash, applied: seq<Built>, cheaters: nat)
  datatype Outcome = Outcome(failed: bool, blocks: seq<Emitted>)

  /** The tables of the store; heads and tips belong to the current epoch's own database. */
  datatype State = State(
    maxEpochBlocks: nat,
    stopped: bool,
    events: map<Hash, Built>,
    packs: map<(nat, nat), set<Hash>>,
    packInfos: map<(nat, nat), PackInfo>,
    packsNum: map<nat, nat>,
    heads: set<Hash>,
    tips: map<nat, Hash>,
    blocks: map<nat, Block>,
    lastBlock: nat,
    epochBlocks: nat,
    epoch: nat)

  datatype Error = Stopped | AlreadyConnected | WrongEpoch | EngineFailed
  datatype Verdict = Connected | Rejected(error: Error)

  // ---------- packs ----------

  function PacksNum(s: State, epoch: nat): nat {
    if epoch in s.packsNum then s.packsNum[epoch] else 1
  }

  function Pack(s: State, epoch: nat, k: nat): set<Hash> {
    if (epoch, k) in s.packs then s.packs[(epoch, k)] else {}
  }

  function Info(s: State, epoch: nat, k: nat): PackInfo {
    if (epoch, k) in s.packInfos then s.packInfos[(epoch, k)] else PackInfo(k, 0, 0, {})
  }

  /** The new contents of a pack's record once an event has been added. */
  function Added(info: PackInfo, k: nat, e: Built): PackInfo {
    info.(index := k, numOfEvents := info.numOfEvents + 1, size := (info.size + e.size % U32) % U32)
  }

  predicate Full(info: PackInfo) {
    info.numOfEvents >= MAX_PACK_EVENTS || info.size >= MAX_PACK_SIZE
  }

  /** `packsOnNewEvent`: adds to the open pack and, when it is full, pins the current heads. */
  function PacksOnNewEvent(s: State, e: Built): State {
    var epoch := e.event.epoch;
    var k := PacksNum(s, epoch);
    var info := Added(Info(s, epoch, k), k, e);
    s.(packs := s.packs[(epoch, k) := Pack(s, epoch, k) + {e.id}],
       packInfos := s.packInfos[(epoch, k) := if Full(info) then info.(heads := s.heads) else info],
       packsNum := if Full(info) then s.packsNum[epoch := k + 1] else s.packsNum)
  }

  /** `packsOnNewEpoch`: pins the last pack of the old epoch. */
  function PacksOnNewEpoch(s: State, epoch: nat): State {
    var k := PacksNum(s, epoch);
    s.(packInfos := s.packInfos[(epoch, k) := Info(s, epoch, k).(heads := s.heads)],
       packsNum := s.packsNum[epoch := k + 1])
  }

  // ---------- blocks ----------

  /** Whether the next block seals the epoch. */
  predicate Seals(s: State, cheaters: nat) {
    s.epochBlocks + 1 >= s.maxEpochBlocks || cheaters != 0
  }

  /** The store part of `EndBlock`. */
  function AddBlock(s: State, block: Block, cheaters: nat): State {
    var sealing := Seals(s, cheaters);
    s.(blocks := s.blocks[s.lastBlock + 1 := block],
       lastBlock := s.lastBlock + 1,
       epochBlocks := if sealing then 0 else s.epochBlocks + 1,
       epoch := if sealing then s.epoch + 1 else s.epoch)
  }

  /** The last applied event with the Atropos's identifier. */
  function FindAtropos(id: Hash, applied: seq<Built>): (r: Option<Built>)
    ensures r.Some? ==> r.value in applied && r.value.id == id
    ensures r.None? ==> forall e :: e in applied ==> e.id != id
  {
    if applied == [] then None
    else var r := FindAtropos(id, applied[1..]);
      if r.Some? then r else if applied[0].id == id then Some(applied[0]) else None
  }

  /** Event i of those applied is the last one with the identifier. */
  ghost predicate LastWith(id: Hash, applied: seq<Built>, i: nat) {
    i < |applied| && applied[i].id == id && forall j :: i < j < |applied| ==> applied[j].id != id
  }

  lemma {:induction false} FindsLast(id: Hash, applied: seq<Built>, i: nat)
    requires LastWith(id, applied, i)
    ensures FindAtropos(id, applied) == Some(applied[i])
  {
    if i == 0 {
      assert forall e :: e in applied[1..] ==> e.id != id;
    } else {
      FindsLast(id, applied[1..], i - 1);
    }
  }

  /** The engine applies the Atropos of a block among its events. */
  predicate WellFormed(b: Emitted) {
    FindAtropos(b.atropos, b.applied).Some?
  }

  /** The block made of what the engine emitted. */
  function BlockOf(b: Emitted): Block
    requires WellFormed(b)
  {
    Block(FindAtropos(b.atropos, b.applied).value.event.time, b.atropos, SortIds(ConfirmedIDs(b.applied)))
  }

  /** A block has the identifier of its Atropos, and the time at which the Atropos was created: of the last
      event applied with that identifier, and so of every one of them, if they are one event. */
  lemma BlockAtropos(b: Emitted, i: nat)
    requires LastWith(b.atropos, b.applied, i)
    ensures WellFormed(b) && BlockOf(b).atropos == b.atropos && BlockOf(b).time == b.applied[i].event.time
    ensures forall x :: x in b.applied && x.id == b.atropos && (forall y :: y in b.applied && y.id == x.id ==> y == x) ==>
      BlockOf(b).time == x.event.time
  {
    FindsLast(b.atropos, b.applied, i);
  }

  /** A block does not depend on the order in which its events were applied. */
  lemma BlockOrderFree(a: Emitted, b: Emitted)
    requires WellFormed(a) && a.atropos == b.atropos && multiset(a.applied) == multiset(b.applied)
    requires forall x, y :: x in a.applied && y in a.applied && x.id == y.id ==> x == y
    ensures WellFormed(b) && BlockOf(a) == BlockOf(b)
  {
    hide FindAtropos;
    BlockEventsOrderFree(a.applied, b.applied);
    var x := FindAtropos(a.atropos, a.applied).value;
    assert x in multiset(b.applied) && forall e :: e in multiset(b.applied) <==> e in b.applied;
    assert WellFormed(b);
    var y := FindAtropos(b.atropos, b.applied).value;
    assert y in multiset(a.applied);
  }

  /** A block lists exactly the applied events with a payload, in increasing order of identifiers and,
      when they are of one epoch, of Lamport times. */
  lemma BlockEvents(b: Emitted)
    requires WellFormed(b)
    ensures var ids := BlockOf(b).events;
      && Sorted(ids) && |ids| == |ConfirmedIDs(b.applied)|
      && (forall id: Hash :: id in ids <==> exists e :: e in b.applied && e.event.payload != [] && e.id == id)
      && (forall i, j, x, y :: 0 <= i < j < |ids| && x in b.applied && y in b.applied && OfOneEpoch(x, y) ==>
            x.id == ids[i] && y.id == ids[j] ==> x.event.lamport <= y.event.lamport)
  {
    hide FindAtropos, ConfirmedIDs, SortIds, Sorted, OfOneEpoch;
    var ids, confirmed := BlockOf(b).events, ConfirmedIDs(b.applied);
    SortIdsSorts(confirmed);
    assert |ids| == |multiset(ids)| == |multiset(confirmed)| == |confirmed|;
    forall id: Hash
      ensures id in ids <==> exists e :: e in b.applied && e.event.payload != [] && e.id == id
    {
      ConfirmedIff(b.applied, id);
      assert id in ids <==> id in multiset(ids);
      assert id in confirmed <==> id in multiset(confirmed);
    }
    forall i, j, x, y | 0 <= i < j < |ids| && x in b.applied && y in b.applied && OfOneEpoch(x, y) && x.id == ids[i] && y.id == ids[j]
      ensures x.event.lamport <= y.event.lamport
    {
      SortedByLamport(ids, i, j, x, y);
    }
  }

  function RunBlocks(s: State, blocks: seq<Emitted>): State
    requires forall b :: b in blocks ==> WellFormed(b)
    decreases |blocks|
  {
    if blocks == [] then s
    else RunBlocks(AddBlock(s, BlockOf(blocks[0]), blocks[0].cheaters), blocks[1..])
  }

  // ---------- processing one event ----------

  /** What is assumed of the engine: it applies the Atropos of each block.  It may fail at any time. */
  predicate EngineOk(o: Outcome) {
    forall b :: b in o.blocks ==> WellFormed(b)
  }

  /** What is assumed of an event: its parents are connected, and of its own epoch. */
  predicate Ready(s: State, e: Built) {
    forall p: Hash :: p in e.event.parents ==> p in s.events && s.events[p].event.epoch == e.event.epoch
  }

  /** `processEvent`. */
  function ProcessEvent(s: State, e: Built, o: Outcome): (State, Verdict)
    requires EngineOk(o)
  {
    if s.stopped then (s, Rejected(Stopped))
    else if e.id in s.events then (s, Rejected(AlreadyConnected))
    else if e.event.epoch != s.epoch then (s, Rejected(WrongEpoch))
    else
      var run := RunBlocks(s.(events := s.events[e.id := e]), o.blocks);
      if o.failed then (run.(events := run.events - {e.id}), Rejected(EngineFailed))
      else
        var packed := PacksOnNewEvent(run, e);
        if packed.epoch == s.epoch then
          (packed.(tips := packed.tips[e.event.creator := e.id],
                   heads := packed.heads - (set p | p in e.event.parents) + {e.id}), Connected)
        else
          (PacksOnNewEpoch(packed, s.epoch).(heads := {}, tips := map[]), Connected)
  }

  /** Emitting blocks touches only the blocks and the counters. */
  lemma {:induction false} RunBlocksFrame(s: State, blocks: seq<Emitted>)
    requires forall b :: b in blocks ==> WellFormed(b)
    ensures var t := RunBlocks(s, blocks);
      && t == s.(blocks := t.blocks, lastBlock := t.lastBlock, epochBlocks := t.epochBlocks, epoch := t.epoch)
      && s.epoch <= t.epoch
    decreases |blocks|
  {
    if blocks == [] {
    } else {
      RunBlocksFrame(AddBlock(s, BlockOf(blocks[0]), blocks[0].cheaters), blocks[1..]);
    }
  }

  // ---------- paths of child links ----------

  /** b is a connected child of a. */
  ghost predicate Child(events: map<Hash, Built>, a: Hash, b: Hash) {
    b in events && a in events[b].event.parents
  }

  ghost predicate IsPath(events: map<Hash, Built>, path: seq<Hash>) {
    path != [] && forall i :: 1 <= i < |path| ==> Child(events, path[i - 1], path[i])
  }

  /** b is a, or a descendant of a. */
  ghost predicate Reach(events: map<Hash, Built>, a: Hash, b: Hash) {
    exists path: seq<Hash> :: IsPath(events, path) && path[0] == a && path[|path| - 1] == b
  }

  /** Some head is the event or a descendant of it. */
  ghost predicate Dominated(events: map<Hash, Built>, id: Hash, heads: set<Hash>) {
    exists h: Hash :: h in heads && Reach(events, id, h)
  }

  lemma ReachSelf(events: map<Hash, Built>, a: Hash)
    ensures Reach(events, a, a)
  {
    assert IsPath(events, [a]);
  }

  lemma ReachChild(events: map<Hash, Built>, a: Hash, b: Hash, c: Hash)
    requires Reach(events, a, b) && Child(events, b, c)
    ensures Reach(events, a, c)
  {
    var path: seq<Hash> :| IsPath(events, path) && path[0] == a && path[|path| - 1] == b;
    assert IsPath(events, path + [c]);
  }

  lemma DominatedMore(events: map<Hash, Built>, more: map<Hash, Built>, id: Hash, heads: set<Hash>)
    requires Dominated(events, id, heads)
    requires forall x: Hash :: x in events ==> x in more && more[x] == events[x]
    ensures Dominated(more, id, heads)
  {
    var h: Hash :| h in heads && Reach(events, id, h);
    var path: seq<Hash> :| IsPath(events, path) && path[0] == id && path[|path| - 1] == h;
    assert IsPath(more, path);
  }

  // ---------- sizes ----------

  function SizeOf(events: map<Hash, Built>, id: Hash): nat {
    if id in events then events[id].size else 0
  }

  /** The sizes of the events of a set together. */
  ghost function SizeSum(events: map<Hash, Built>, ids: set<Hash>): nat {
    if ids == {} then 0
    else
      var id :| id in ids;
      SizeOf(events, id) + SizeSum(events, ids - {id})
  }

  /** It does not matter which event is counted first. */
  lemma {:induction false} SizeSumWithout(events: map<Hash, Built>, ids: set<Hash>, x: Hash)
    requires x in ids
    ensures SizeSum(events, ids) == SizeOf(events, x) + SizeSum(events, ids - {x})
    decreases |ids|
  {
    hide SizeOf;
    var id :| id in ids && SizeSum(events, ids) == SizeOf(events, id) + SizeSum(events, ids - {id});
    if id != x {
      SizeSumWithout(events, ids - {id}, x);
      SizeSumWithout(events, ids - {x}, id);
      assert ids - {id} - {x} == ids - {x} - {id};
    }
  }

  lemma {:induction false} SizeSumSame(a: map<Hash, Built>, b: map<Hash, Built>, ids: set<Hash>)
    requires forall id :: id in ids ==> SizeOf(a, id) == SizeOf(b, id)
    ensures SizeSum(a, ids) == SizeSum(b, ids)
    decreases |ids|
  {
    hide SizeOf;
    if ids == {} {
    } else {
      var x :| x in ids;
      SizeSumWithout(a, ids, x);
      SizeSumWithout(b, ids, x);
      SizeSumSame(a, b, ids - {x});
    }
  }

  lemma SizeSumMore(events: map<Hash, Built>, ids: set<Hash>, e: Built)
    requires e.id !in ids
    ensures SizeSum(events[e.id := e], ids + {e.id}) == SizeSum(events, ids) + e.size
  {
    var more := events[e.id := e];
    SizeSumWithout(more, ids + {e.id}, e.id);
    assert ids + {e.id} - {e.id} == ids;
    SizeSumSame(events, more, ids);
  }

  // ---------- invariants ----------

  ghost predicate EventsOk(s: State) {
    forall id: Hash :: id in s.events ==>
      && s.events[id].id == id && s.events[id].event.epoch <= s.epoch
      && forall p: Hash :: p in s.events[id].event.parents ==> p in s.events && s.events[p].event.epoch == s.events[id].event.epoch
  }

  /** The packs of an epoch hold connected events of that epoch, ... */
  ghost predicate PacksTyped(s: State) {
    forall epoch: nat, k: nat, id: Hash {:trigger id in Pack(s, epoch, k)} :: id in Pack(s, epoch, k) ==>
      id in s.events && s.events[id].event.epoch == epoch && 1 <= k <= PacksNum(s, epoch)
  }

  /** ... every connected event is in one of them, ... */
  ghost predicate PacksTotal(s: State) {
    forall id: Hash :: id in s.events ==> exists k: nat :: id in Pack(s, s.events[id].event.epoch, k)
  }

  /** ... and in no other. */
  ghost predicate PacksDisjoint(s: State) {
    forall epoch: nat, j: nat, k: nat, id: Hash {:trigger id in Pack(s, epoch, j), id in Pack(s, epoch, k)} ::
      id in Pack(s, epoch, j) && id in Pack(s, epoch, k) ==> j == k
  }

  /** Every connected event lies in exactly one pack, and that is a pack of its epoch. */
  ghost predicate PacksOk(s: State) {
    PacksTyped(s) && PacksTotal(s) && PacksDisjoint(s)
  }

  /** Pinned packs have a record, ... */
  ghost predicate Recorded(s: State) {
    && (forall epoch: nat :: 1 <= PacksNum(s, epoch))
    && (forall epoch: nat, k: nat {:trigger (epoch, k) in s.packInfos} :: 1 <= k < PacksNum(s, epoch) ==> (epoch, k) in s.packInfos)
  }

  /** ... the records count their packs, ... */
  ghost predicate CountsOk(s: State) {
    forall epoch: nat, k: nat {:trigger Info(s, epoch, k)} ::
      Info(s, epoch, k).index == k && Info(s, epoch, k).numOfEvents == |Pack(s, epoch, k)| <= 250
  }

  /** ... and add up the sizes of their events, in 32 bits, ... */
  ghost predicate SizesOk(s: State) {
    forall epoch: nat, k: nat {:trigger Info(s, epoch, k)} ::
      Info(s, epoch, k).size == SizeSum(s.events, Pack(s, epoch, k)) % 0x1_0000_0000
  }

  /** ... and only the open pack of an epoch has room. */
  ghost predicate RoomOk(s: State) {
    && (forall epoch: nat, k: nat {:trigger Info(s, epoch, k)} :: PacksNum(s, epoch) < k ==> !Full(Info(s, epoch, k)))
    && (forall epoch: nat {:trigger PacksNum(s, epoch)} :: !Full(Info(s, epoch, PacksNum(s, epoch))))
  }

  ghost predicate InfosOk(s: State) {
    Recorded(s) && CountsOk(s) && SizesOk(s) && RoomOk(s)
  }

  ghost predicate HasChild(events: map<Hash, Built>, id: Hash) {
    exists c: Hash :: Child(events, id, c)
  }

  /** The heads are exactly the events of the current epoch without a connected child. */
  ghost predicate HeadsOk(s: State) {
    forall id: Hash :: id in s.heads <==>
      id in s.events && s.events[id].event.epoch == s.epoch && !HasChild(s.events, id)
  }

  /** The heads that belong to the current epoch are exactly its events without a connected child; others
      may be left from an epoch that was sealed by an engine call that failed. */
  ghost predicate LiveHeads(s: State) {
    && (forall id: Hash :: id in s.heads ==> id in s.events)
    && (forall id: Hash :: id in s.events && s.events[id].event.epoch == s.epoch ==>
          (id in s.heads <==> !HasChild(s.events, id)))
  }

  /** Every event of the current epoch reaches a head. */
  ghost predicate Covered(s: State) {
    forall id: Hash :: id in s.events && s.events[id].event.epoch == s.epoch ==> Dominated(s.events, id, s.heads)
  }

  ghost predicate BlocksOk(s: State) {
    && (forall n: nat :: n in s.blocks <==> n <= s.lastBlock)
    && (1 <= s.maxEpochBlocks ==> s.epochBlocks < s.maxEpochBlocks)
  }

  ghost predicate Inv(s: State) {
    EventsOk(s) && PacksOk(s) && InfosOk(s) && LiveHeads(s) && Covered(s) && BlocksOk(s)
  }
}
