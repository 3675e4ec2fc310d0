/** Whole runs of event processing, with an engine that may emit, seal and fail in any way. */
module ConsensusRuns {
  import opened EventCodec
  import opened EventBuild
  import opened Consensus
  import opened ConsensusSafety

  /** An event is offered to the service, with what the engine makes of it; or the service stops. */
  datatype Input = Connect(e: Built, o: Outcome) | Stop

  /** The input passes the checks of `processEvent` and reaches the engine. */
  ghost predicate Processed(s: State, i: Input) {
    i.Connect? && !s.stopped && i.e.id !in s.events && i.e.event.epoch == s.epoch
  }

  ghost predicate Allowed(s: State, i: Input) {
    i.Connect? ==> EngineOk(i.o) && (Processed(s, i) ==> Ready(s, i.e))
  }

  ghost function Next(s: State, i: Input): State
    requires Allowed(s, i)
  {
    match i
    case Connect(e, o) => ProcessEvent(s, e, o).0
    case Stop => s.(stopped := true)
  }

  ghost predicate Legal(s: State, inputs: seq<Input>)
    decreases |inputs|
  {
    inputs == [] || (Allowed(s, inputs[0]) && Legal(Next(s, inputs[0]), inputs[1..]))
  }

  ghost function Run(s: State, inputs: seq<Input>): State
    requires Legal(s, inputs)
    decreases |inputs|
  {
    if inputs == [] then s else Run(Next(s, inputs[0]), inputs[1..])
  }

  /** The state after the first n inputs. */
  ghost function At(s: State, inputs: seq<Input>, n: nat): State
    requires Legal(s, inputs) && n <= |inputs|
    decreases n
  {
    if n == 0 then s else At(Next(s, inputs[0]), inputs[1..], n - 1)
  }

  /** The state after genesis: block 0, epoch 1. */
  function Genesis(maxEpochBlocks: nat, block: Block): State {
    State(maxEpochBlocks, false, map[], map[], map[], map[], {}, map[], map[0 := block], 0, 0, 1)
  }

  lemma GenesisInv(maxEpochBlocks: nat, block: Block)
    ensures Inv(Genesis(maxEpochBlocks, block)) && HeadsOk(Genesis(maxEpochBlocks, block))
  {
    var s := Genesis(maxEpochBlocks, block);
    assert forall epoch: nat, k: nat :: Pack(s, epoch, k) == {};
    assert forall epoch: nat :: PacksNum(s, epoch) == 1;
  }

  // ---------- safety ----------

  /** Everything s promised still holds in t. */
  ghost predicate Safe(s: State, t: State) {
    Inv(t) && Frozen(s, t) && EventsKept(s, t) && BlocksExtend(s, t)
  }

  lemma NextSafe(s: State, i: Input)
    requires Inv(s) && Allowed(s, i)
    ensures Safe(s, Next(s, i))
  {
    hide Pack, Info, PacksNum, PacksOk, InfosOk, Frozen, ProcessEvent, RunBlocks, EngineOk;
    match i {
      case Connect(e, o) => StepSafe(s, e, o);
      case Stop =>
        var t := s.(stopped := true);
        SameTables(s, t);
        SamePacksOk(s, t);
    }
  }

  /** Safety of every run: the invariant holds at the end, and whatever was pinned, connected or put
      into a block at the start is still there, unchanged. */
  lemma {:induction false} RunSafe(s: State, inputs: seq<Input>)
    requires Inv(s) && Legal(s, inputs)
    ensures Safe(s, Run(s, inputs))
    decreases |inputs|
  {
    hide Inv, Next, Allowed, Frozen, EventsKept, BlocksExtend;
    if inputs == [] {
      Reflexive(s);
    } else {
      var t := Next(s, inputs[0]);
      NextSafe(s, inputs[0]);
      RunSafe(t, inputs[1..]);
      Transitive(s, t, Run(t, inputs[1..]));
    }
  }

  lemma Reflexive(s: State)
    requires Inv(s)
    ensures Safe(s, s)
  {
  }

  lemma Transitive(s: State, t: State, u: State)
    requires Inv(s) && Safe(s, t) && Safe(t, u)
    ensures Safe(s, u)
  {
    hide Pack, Info, PacksNum, PacksOk, InfosOk, EventsOk, LiveHeads, Covered;
  }

  /** From genesis on: every run keeps the invariant, every connected event in exactly one pack of its
      epoch, and every event of the current epoch below some head. */
  lemma EveryRun(maxEpochBlocks: nat, block: Block, inputs: seq<Input>, id: Hash)
    requires Legal(Genesis(maxEpochBlocks, block), inputs)
    requires id in Run(Genesis(maxEpochBlocks, block), inputs).events
    ensures var t := Run(Genesis(maxEpochBlocks, block), inputs);
      var epoch := t.events[id].event.epoch;
      && Inv(t)
      && (exists k: nat :: id in Pack(t, epoch, k) && 1 <= k <= PacksNum(t, epoch)
            && forall j: nat, ep: nat :: id in Pack(t, ep, j) ==> ep == epoch && j == k)
      && (epoch == t.epoch ==> Dominated(t.events, id, t.heads) && (id in t.heads <==> !HasChild(t.events, id)))
  {
    hide Pack, Info, PacksNum, Dominated, HasChild, Next, Allowed;
    GenesisInv(maxEpochBlocks, block);
    RunSafe(Genesis(maxEpochBlocks, block), inputs);
    var t := Run(Genesis(maxEpochBlocks, block), inputs);
    var k: nat :| id in Pack(t, t.events[id].event.epoch, k);
    forall j: nat, ep: nat | id in Pack(t, ep, j)
      ensures ep == t.events[id].event.epoch && j == k
    {
    }
  }

  // ---------- answers ----------

  /** What `processEvent` answers. */
  ghost function Answer(s: State, i: Input): Verdict
    requires Allowed(s, i) && i.Connect?
  {
    ProcessEvent(s, i.e, i.o).1
  }

  /** Each answer has exactly one cause, and the causes exclude one another. */
  lemma AnswerIff(s: State, i: Input)
    requires Allowed(s, i) && i.Connect?
    ensures Answer(s, i) == Rejected(Stopped) <==> s.stopped
    ensures Answer(s, i) == Rejected(AlreadyConnected) <==> !s.stopped && i.e.id in s.events
    ensures Answer(s, i) == Rejected(WrongEpoch) <==> !s.stopped && i.e.id !in s.events && i.e.event.epoch != s.epoch
    ensures Answer(s, i) == Rejected(EngineFailed) <==> Processed(s, i) && i.o.failed
    ensures Answer(s, i) == Connected <==> Processed(s, i) && !i.o.failed
  {
  }

  /** `IsBan`: the peer that sent the event is dropped. */
  predicate IsBan(v: Verdict) {
    v.Rejected? && v.error != WrongEpoch && v.error != AlreadyConnected
  }

  /** Over every run the events in the table are those that were there and those that were answered
      `Connected`; ... */
  lemma {:induction false} ConnectedIff(s: State, inputs: seq<Input>, id: Hash)
    requires Inv(s) && Legal(s, inputs)
    ensures id in Run(s, inputs).events <==> id in s.events || exists n: nat :: ConnectedAt(s, inputs, n, id)
    decreases |inputs|
  {
    hide Inv, Next, Allowed, Frozen, BlocksExtend;
    if inputs == [] {
    } else {
      var u := Next(s, inputs[0]);
      NextSafe(s, inputs[0]);
      NextEvents(s, inputs[0], id);
      ConnectedIff(u, inputs[1..], id);
      forall n: nat
        ensures ConnectedAt(s, inputs, n + 1, id) <==> ConnectedAt(u, inputs[1..], n, id)
      {
        if n < |inputs[1..]| {
          assert inputs[n + 1] == inputs[1..][n] && At(s, inputs, n + 1) == At(u, inputs[1..], n);
        }
      }
      ConnectedFirst(s, inputs, id);
      if exists n: nat :: ConnectedAt(s, inputs, n, id) {
        var n: nat :| ConnectedAt(s, inputs, n, id);
        if n > 0 {
          assert ConnectedAt(u, inputs[1..], n - 1, id);
        }
      }
    }
  }

  /** The n-th input was answered `Connected` and has the identifier. */
  ghost predicate ConnectedAt(s: State, inputs: seq<Input>, n: nat, id: Hash)
    requires Legal(s, inputs)
  {
    n < |inputs| && inputs[n].Connect? && inputs[n].e.id == id && Processed(At(s, inputs, n), inputs[n]) && !inputs[n].o.failed
  }

  lemma ConnectedFirst(s: State, inputs: seq<Input>, id: Hash)
    requires Legal(s, inputs) && inputs != []
    ensures ConnectedAt(s, inputs, 0, id) <==>
      inputs[0].Connect? && inputs[0].e.id == id && Processed(s, inputs[0]) && !inputs[0].o.failed
  {
  }

  lemma NextEvents(s: State, i: Input, id: Hash)
    requires Inv(s) && Allowed(s, i)
    ensures id in Next(s, i).events <==>
      id in s.events || (i.Connect? && i.e.id == id && Processed(s, i) && !i.o.failed)
  {
    hide Pack, Info, PacksNum, PacksOk, InfosOk, Frozen, RunBlocks, EngineOk, LiveHeads, Covered, BlocksOk, EventsOk, Pins, BlocksExtend;
    match i {
      case Connect(e, o) => StepSafe(s, e, o);
      case Stop =>
    }
  }

  /** ... and once an event is connected, nobody is banned for sending it again to a running service. */
  lemma ConnectedOnce(s: State, inputs: seq<Input>, i: Input)
    requires Inv(s) && Legal(s, inputs) && i.Connect? && i.e.id in s.events && Allowed(Run(s, inputs), i)
    ensures var t := Run(s, inputs);
      Answer(t, i) == (if t.stopped then Rejected(Stopped) else Rejected(AlreadyConnected)) && (!t.stopped ==> !IsBan(Answer(t, i)))
  {
    hide Inv, Next, Allowed, Frozen, BlocksExtend;
    RunSafe(s, inputs);
    AnswerIff(Run(s, inputs), i);
  }

  // ---------- last events ----------

  /** The n-th input connected an event that its creator c made, or that ended the epoch. */
  ghost predicate Touches(s: State, inputs: seq<Input>, n: nat, c: nat)
    requires Legal(s, inputs)
  {
    && n < |inputs| && Processed(At(s, inputs, n), inputs[n]) && !inputs[n].o.failed
    && (inputs[n].e.event.creator == c || At(s, inputs, n + 1).epoch != At(s, inputs, n).epoch)
  }

  lemma NextTip(s: State, i: Input, c: nat)
    requires Inv(s) && Allowed(s, i)
    ensures var t := Next(s, i);
      if Processed(s, i) && !i.o.failed && t.epoch != s.epoch then c !in t.tips
      else if Processed(s, i) && !i.o.failed && i.e.event.creator == c then c in t.tips && t.tips[c] == i.e.id
      else (c in t.tips <==> c in s.tips) && (c in s.tips ==> t.tips[c] == s.tips[c])
  {
    hide Pack, Info, PacksNum, RunBlocks, WellFormed, Full, Added;
    if i.Connect? && Processed(s, i) {
      RunBlocksFrame(s.(events := s.events[i.e.id := i.e]), i.o.blocks);
    }
  }

  /** The first input is the first of the rest's past. */
  lemma TouchesLater(s: State, inputs: seq<Input>, n: nat, c: nat)
    requires Legal(s, inputs) && inputs != []
    ensures Touches(s, inputs, n + 1, c) <==> Touches(Next(s, inputs[0]), inputs[1..], n, c)
  {
    hide Next, Allowed, Processed;
    if n + 1 < |inputs| {
      assert At(s, inputs, n + 1) == At(Next(s, inputs[0]), inputs[1..], n);
      assert At(s, inputs, n + 2) == At(Next(s, inputs[0]), inputs[1..], n + 1);
    }
  }

  lemma TouchesFirst(s: State, inputs: seq<Input>, c: nat)
    requires Legal(s, inputs) && inputs != []
    ensures Touches(s, inputs, 0, c) <==>
      Processed(s, inputs[0]) && !inputs[0].o.failed && (inputs[0].e.event.creator == c || Next(s, inputs[0]).epoch != s.epoch)
  {
    hide Next, Allowed, Processed;
    assert At(s, inputs, 1) == At(Next(s, inputs[0]), inputs[1..], 0);
  }

  /** While no event of a validator is connected and the epoch lasts, its last event stays; ... */
  lemma {:induction false} TipStays(s: State, inputs: seq<Input>, c: nat)
    requires Inv(s) && Legal(s, inputs) && forall n: nat :: !Touches(s, inputs, n, c)
    ensures var t := Run(s, inputs);
      (c in t.tips <==> c in s.tips) && (c in s.tips ==> t.tips[c] == s.tips[c])
    decreases |inputs|
  {
    hide Inv, Next, Allowed, Processed, Touches, Frozen, EventsKept, BlocksExtend;
    if inputs == [] {
    } else {
      NextSafe(s, inputs[0]);
      NextTip(s, inputs[0], c);
      TouchesFirst(s, inputs, c);
      forall n: nat
        ensures !Touches(Next(s, inputs[0]), inputs[1..], n, c)
      {
        TouchesLater(s, inputs, n, c);
      }
      TipStays(Next(s, inputs[0]), inputs[1..], c);
    }
  }

  /** ... so over every run it is the last one connected since the epoch began, or none. */
  lemma {:induction false} TipIsLast(s: State, inputs: seq<Input>, n: nat, c: nat)
    requires Inv(s) && Legal(s, inputs) && Touches(s, inputs, n, c) && forall m: nat :: n < m ==> !Touches(s, inputs, m, c)
    ensures var t := Run(s, inputs);
      if At(s, inputs, n + 1).epoch != At(s, inputs, n).epoch then c !in t.tips
      else c in t.tips && t.tips[c] == inputs[n].e.id
    decreases |inputs|
  {
    hide Inv, Next, Allowed, Processed, Frozen, EventsKept, BlocksExtend;
    var u, rest := Next(s, inputs[0]), inputs[1..];
    NextSafe(s, inputs[0]);
    if n == 0 {
      forall m: nat
        ensures !Touches(u, rest, m, c)
      {
        TouchesLater(s, inputs, m, c);
      }
      NextTip(s, inputs[0], c);
      TipStays(u, rest, c);
      assert At(s, inputs, 1) == At(u, rest, 0);
    } else {
      TouchesLater(s, inputs, n - 1, c);
      forall m: nat | n - 1 < m
        ensures !Touches(u, rest, m, c)
      {
        TouchesLater(s, inputs, m, c);
      }
      TipIsLast(u, rest, n - 1, c);
      assert At(s, inputs, n) == At(u, rest, n - 1) && At(s, inputs, n + 1) == At(u, rest, n);
    }
  }

  // ---------- pinned heads ----------

  /** A step that pins a pack connects an event, and the pinned heads are those before it. */
  lemma NextPins(s: State, i: Input, epoch: nat, k: nat)
    requires Inv(s) && Allowed(s, i) && PacksNum(s, epoch) <= k < PacksNum(Next(s, i), epoch)
    ensures var t := Next(s, i);
      && Processed(s, i) && !i.o.failed && epoch == s.epoch
      && t.events == s.events[i.e.id := i.e] && Info(t, epoch, k).heads == s.heads
      && (Pack(t, epoch, k) == {} || i.e.id in Pack(t, epoch, k))
  {
    hide Pack, Info, Inv, EngineOk, RunBlocks, Frozen, PacksOnNewEvent, PacksOnNewEpoch;
    if i.Connect? {
      StepSafe(s, i.e, i.o);
    }
  }

  /** The pinned heads of a pack cover every event of the epoch that was connected before the input
      that closed the pack; and all packs up to it hold nothing else but the closing event. */
  lemma {:induction false} PinnedHeadsCover(s: State, inputs: seq<Input>, n: nat, epoch: nat, k: nat, id: Hash)
    requires Inv(s) && Legal(s, inputs) && n < |inputs|
    requires PacksNum(At(s, inputs, n), epoch) <= k < PacksNum(At(s, inputs, n + 1), epoch)
    ensures var t, before, closing := Run(s, inputs), At(s, inputs, n), inputs[n];
      && Processed(before, closing) && !closing.o.failed && epoch == before.epoch
      && Info(t, epoch, k).heads == before.heads
      && (Pack(t, epoch, k) == {} || closing.e.id in Pack(t, epoch, k))
      && (id in before.events && before.events[id].event.epoch == epoch ==> Dominated(t.events, id, Info(t, epoch, k).heads))
      && (forall j: nat {:trigger Pack(t, epoch, j)} :: j <= k && id in Pack(t, epoch, j) ==> id in before.events || id == closing.e.id)
    decreases n
  {
    hide Pack, Info, PacksNum, Next, Allowed, Processed, Dominated, EventsOk, LiveHeads, InfosOk, BlocksOk, BlocksExtend;
    var u := Next(s, inputs[0]);
    NextSafe(s, inputs[0]);
    if n > 0 {
      PinnedHeadsCover(u, inputs[1..], n - 1, epoch, k, id);
    } else {
      NextPins(s, inputs[0], epoch, k);
      RunSafe(u, inputs[1..]);
      var t := Run(s, inputs);
      assert Pack(t, epoch, k) == Pack(u, epoch, k) && Info(t, epoch, k) == Info(u, epoch, k);
      if id in s.events && s.events[id].event.epoch == epoch {
        DominatedMore(s.events, t.events, id, s.heads);
      }
    }
  }

  /** Every pack that a run pins was closed by one of its inputs. */
  lemma {:induction false} ClosingInput(s: State, inputs: seq<Input>, epoch: nat, k: nat) returns (n: nat)
    requires Inv(s) && Legal(s, inputs) && PacksNum(s, epoch) <= k < PacksNum(Run(s, inputs), epoch)
    ensures n < |inputs| && PacksNum(At(s, inputs, n), epoch) <= k < PacksNum(At(s, inputs, n + 1), epoch)
    decreases |inputs|
  {
    hide PacksNum, Next, Allowed, Inv;
    var u := Next(s, inputs[0]);
    NextSafe(s, inputs[0]);
    if k < PacksNum(u, epoch) {
      n := 0;
    } else {
      var m := ClosingInput(u, inputs[1..], epoch, k);
      n := m + 1;
    }
  }

  /** So from genesis on: for every pinned pack there is the input that closed it, and the pinned heads cover
      every event of the epoch connected before. */
  lemma EveryPinnedPack(maxEpochBlocks: nat, block: Block, inputs: seq<Input>, epoch: nat, k: nat) returns (n: nat)
    requires Legal(Genesis(maxEpochBlocks, block), inputs)
    requires 1 <= k < PacksNum(Run(Genesis(maxEpochBlocks, block), inputs), epoch)
    ensures n < |inputs|
    ensures var s := Genesis(maxEpochBlocks, block);
      var t, before, closing := Run(s, inputs), At(s, inputs, n), inputs[n];
      && Processed(before, closing) && (Pack(t, epoch, k) == {} || closing.e.id in Pack(t, epoch, k))
      && Info(t, epoch, k).heads == before.heads
      && (before.heads == {} <==> HeadsOk(before) && forall id: Hash :: id in before.events ==> before.events[id].event.epoch != epoch)
      && (forall id: Hash :: id in before.events && before.events[id].event.epoch == epoch ==>
            Dominated(t.events, id, Info(t, epoch, k).heads))
      && (forall j: nat, id: Hash {:trigger id in Pack(t, epoch, j)} :: j <= k && id in Pack(t, epoch, j) ==>
            id in before.events || id == closing.e.id)
  {
    hide Pack, Info, Next, Allowed, Processed, Dominated, Inv;
    var s := Genesis(maxEpochBlocks, block);
    GenesisInv(maxEpochBlocks, block);
    n := ClosingInput(s, inputs, epoch, k);
    forall id: Hash {
      PinnedHeadsCover(s, inputs, n, epoch, k, id);
    }
    PinnedHeadsCover(s, inputs, n, epoch, k, block.atropos);
    AtSafe(s, inputs, n);
    HeadlessIff(At(s, inputs, n));
  }

  lemma {:induction false} AtSafe(s: State, inputs: seq<Input>, n: nat)
    requires Inv(s) && Legal(s, inputs) && n <= |inputs|
    ensures Inv(At(s, inputs, n))
    decreases n
  {
    hide Inv, Next, Allowed, Frozen, EventsKept, BlocksExtend;
    if n == 0 {
    } else {
      NextSafe(s, inputs[0]);
      AtSafe(Next(s, inputs[0]), inputs[1..], n - 1);
    }
  }

  /** There are no heads if and only if the epoch has no event and none is left over. */
  lemma HeadlessIff(s: State)
    requires Inv(s)
    ensures s.heads == {} <==> HeadsOk(s) && forall id: Hash :: id in s.events ==> s.events[id].event.epoch != s.epoch
  {
    hide PacksOk, InfosOk, BlocksOk, EventsOk, HasChild, Reach;
    HeadsExactIff(s);
    if s.heads == {} {
      forall id: Hash | id in s.events
        ensures s.events[id].event.epoch != s.epoch
      {
        assert s.events[id].event.epoch == s.epoch ==> Dominated(s.events, id, s.heads);
      }
    }
  }

  /** Such a record is served, concretely: the first event of the first epoch seals it, and pack 1 is pinned
      without heads. */
  lemma HeadlessPack(a: Built, block: Block)
    requires a.event.epoch == 1 && a.event.parents == []
    ensures var i := Connect(a, Outcome(false, [Emitted(a.id, [a], 1)]));
      var s := Genesis(5, block);
      && Legal(s, [i])
      && var t := Run(s, [i]);
        1 < PacksNum(t, 1) && (1, 1) in t.packInfos && t.packInfos[(1, 1)].heads == {}
  {
    hide Pack, Full;
    var seal := Emitted(a.id, [a], 1);
    var i := Connect(a, Outcome(false, [seal]));
    var s := Genesis(5, block);
    assert WellFormed(seal);
    assert [i][1..] == [] && Legal(Next(s, i), []) && Run(Next(s, i), []) == Next(s, i);
    var stored := s.(events := s.events[a.id := a]);
    assert RunBlocks(stored, [seal]).epoch == 2 by {
      assert [seal][1..] == [];
    }
    RunBlocksFrame(stored, [seal]);
  }

  // ---------- blocks ----------

  /** The blocks that reach the store: those of every engine call, failed ones included. */
  ghost function Emits(s: State, inputs: seq<Input>): seq<Emitted>
    requires Legal(s, inputs)
    decreases |inputs|
  {
    if inputs == [] then []
    else (if Processed(s, inputs[0]) then inputs[0].o.blocks else []) + Emits(Next(s, inputs[0]), inputs[1..])
  }

  /** The chain is all that emitting blocks reads and writes. */
  ghost predicate SameChain(s: State, t: State) {
    && s.blocks == t.blocks && s.lastBlock == t.lastBlock && s.epochBlocks == t.epochBlocks && s.epoch == t.epoch
    && s.maxEpochBlocks == t.maxEpochBlocks
  }

  lemma {:induction false} BlocksCongruent(s: State, t: State, blocks: seq<Emitted>)
    requires SameChain(s, t) && forall b :: b in blocks ==> WellFormed(b)
    ensures SameChain(RunBlocks(s, blocks), RunBlocks(t, blocks))
    decreases |blocks|
  {
    hide BlockOf, WellFormed;
    if blocks == [] {
    } else {
      var (b, c) := (BlockOf(blocks[0]), blocks[0].cheaters);
      BlocksCongruent(AddBlock(s, b, c), AddBlock(t, b, c), blocks[1..]);
    }
  }

  lemma {:induction false} BlocksConcat(s: State, a: seq<Emitted>, b: seq<Emitted>)
    requires forall x :: x in a + b ==> WellFormed(x)
    ensures RunBlocks(s, a + b) == RunBlocks(RunBlocks(s, a), b)
    decreases |a|
  {
    hide BlockOf, WellFormed;
    if a == [] {
      assert a + b == b;
    } else {
      assert (a + b)[1..] == a[1..] + b && (a + b)[0] == a[0];
      BlocksConcat(AddBlock(s, BlockOf(a[0]), a[0].cheaters), a[1..], b);
    }
  }

  lemma PacksChain(s: State, e: Built, epoch: nat)
    ensures var p := PacksOnNewEvent(s, e);
      SameChain(p, s) && SameChain(PacksOnNewEpoch(p, epoch), s)
  {
    hide Pack, Info, PacksNum, Full, Added;
  }

  /** One input adds to the chain what the engine emitted. */
  lemma NextChain(s: State, i: Input)
    requires Allowed(s, i)
    ensures SameChain(Next(s, i), if Processed(s, i) then RunBlocks(s, i.o.blocks) else s)
  {
    hide RunBlocks, WellFormed, Next;
    if Processed(s, i) {
      ProcessedChain(s, i);
      BlocksCongruent(s.(events := s.events[i.e.id := i.e]), s, i.o.blocks);
    } else {
      UnprocessedChain(s, i);
    }
  }

  lemma UnprocessedChain(s: State, i: Input)
    requires Allowed(s, i) && !Processed(s, i)
    ensures SameChain(Next(s, i), s)
  {
    hide RunBlocks, WellFormed, PacksOnNewEvent, PacksOnNewEpoch;
  }

  /** Filing an event leaves the chain its blocks made. */
  lemma ProcessedChain(s: State, i: Input)
    requires Allowed(s, i) && Processed(s, i)
    ensures SameChain(Next(s, i), RunBlocks(s.(events := s.events[i.e.id := i.e]), i.o.blocks))
  {
    hide RunBlocks, WellFormed, PacksOnNewEvent, PacksOnNewEpoch;
    PacksChain(RunBlocks(s.(events := s.events[i.e.id := i.e]), i.o.blocks), i.e, s.epoch);
  }

  /** The chain of a run is that of the blocks emitted during it. */
  lemma {:induction false} RunChain(s: State, inputs: seq<Input>)
    requires Legal(s, inputs)
    ensures forall b :: b in Emits(s, inputs) ==> WellFormed(b)
    ensures SameChain(Run(s, inputs), RunBlocks(s, Emits(s, inputs)))
    decreases |inputs|
  {
    hide RunBlocks, WellFormed, Next;
    if inputs == [] {
      RunNone(s);
    } else {
      var u, bs := Next(s, inputs[0]), if Processed(s, inputs[0]) then inputs[0].o.blocks else [];
      NextChain(s, inputs[0]);
      RunNone(s);
      RunChain(u, inputs[1..]);
      BlocksConcat(s, bs, Emits(u, inputs[1..]));
      BlocksCongruent(u, RunBlocks(s, bs), Emits(u, inputs[1..]));
    }
  }

  /** The block with this number is the one made of what the engine emitted. */
  ghost predicate BlockAt(blocks: map<nat, Block>, n: nat, b: Emitted) {
    n in blocks && WellFormed(b) && blocks[n] == BlockOf(b)
  }

  lemma BlockIsAt(s: State, bs: seq<Emitted>, i: nat)
    requires (forall b :: b in bs ==> WellFormed(b)) && i < |bs|
    ensures BlockAt(RunBlocks(s, bs).blocks, s.lastBlock + 1 + i, bs[i])
  {
    hide RunBlocks, WellFormed, BlockOf;
    BlocksConsecutive(s, bs, i);
  }

  /** Over every run: the blocks emitted get consecutive indices, the epoch rises by one exactly at each
      seal, and EpochBlocks counts the blocks since the last. */
  lemma RunCounted(s: State, inputs: seq<Input>)
    requires Legal(s, inputs)
    ensures var t, bs := Run(s, inputs), Emits(s, inputs);
      var flags := SealFlags(bs, s.epochBlocks, s.maxEpochBlocks);
      && t.epoch == s.epoch + Trues(flags)
      && t.epochBlocks == Since(flags, s.epochBlocks)
      && t.lastBlock == s.lastBlock + |bs|
      && forall i {:trigger bs[i]} :: 0 <= i < |bs| ==> BlockAt(t.blocks, s.lastBlock + 1 + i, bs[i])
  {
    hide RunBlocks, WellFormed, BlockOf, Next, Allowed, Trues, Since, SealFlags, Emits, Run, BlockAt;
    var bs := Emits(s, inputs);
    RunChain(s, inputs);
    BlocksCounted(s, bs);
    forall i {:trigger bs[i]} | 0 <= i < |bs|
      ensures BlockAt(RunBlocks(s, bs).blocks, s.lastBlock + 1 + i, bs[i])
    {
      BlockIsAt(s, bs, i);
    }
    if bs == [] {
      RunNone(s);
    } else {
      BlocksConsecutive(s, bs, 0);
    }
  }

  // ---------- when the heads are exact ----------

  /** Watches for heads left over from a sealed epoch, seeing only the inputs, the counters of the chain and
      whether there are heads: an engine call that seals and fails leaves them, one that seals and
      succeeds clears them. */
  ghost function Leftover(w: bool, s: State, i: Input): bool {
    if Processed(s, i) && !NoSeal(i.o.blocks, s.epochBlocks, s.maxEpochBlocks) then i.o.failed && s.heads != {} else w
  }

  ghost function Leftovers(w: bool, s: State, inputs: seq<Input>): bool
    requires Legal(s, inputs)
    decreases |inputs|
  {
    if inputs == [] then w else Leftovers(Leftover(w, s, inputs[0]), Next(s, inputs[0]), inputs[1..])
  }

  /** An engine call that fails leaves exact heads if and only if it had not sealed and they were exact,
      or there were none. */
  lemma FailedHeadsIff(s: State, e: Built, o: Outcome)
    requires Inv(s) && EngineOk(o) && NewEvent(s, e) && !s.stopped && o.failed
    ensures HeadsOk(ProcessEvent(s, e, o).0) <==>
      if NoSeal(o.blocks, s.epochBlocks, s.maxEpochBlocks) then HeadsOk(s) else s.heads == {}
  {
    hide ProcessEvent, NoSeal, PacksOk, InfosOk, BlocksOk, Frozen, HasChild, Covered;
    RejectedSafe(s, e, o);
    var t := ProcessEvent(s, e, o).0;
    HeadsExactIff(t);
    HeadsExactIff(s);
    if t.epoch != s.epoch && s.heads != {} {
      var h: Hash :| h in s.heads;
      assert s.events[h].event.epoch < t.epoch;
    }
  }

  /** Connecting an event keeps the heads as exact as they were; with a seal they become exact. */
  lemma ConnectedHeadsIff(s: State, e: Built, o: Outcome)
    requires Inv(s) && EngineOk(o) && NewEvent(s, e) && !s.stopped && !o.failed
    ensures HeadsOk(ProcessEvent(s, e, o).0) <==> HeadsOk(s) || !NoSeal(o.blocks, s.epochBlocks, s.maxEpochBlocks)
  {
    hide NoSeal, RunBlocks, PacksOk, InfosOk, BlocksOk, HeadsOk, LiveHeads, Covered, EventsOk, Full, Info, Added;
    var stored := s.(events := s.events[e.id := e]);
    RunBlocksFrame(stored, o.blocks);
    NoSealIff(stored, o.blocks);
    var t := ProcessEvent(s, e, o).0;
    if t.epoch == s.epoch {
      HeadsStep(s, t, e);
    } else {
      FreshAfter(s, t, e);
    }
  }

  lemma NextHeadsIff(s: State, i: Input)
    requires Inv(s) && Allowed(s, i)
    ensures HeadsOk(Next(s, i)) <==> !Leftover(!HeadsOk(s), s, i)
  {
    hide Inv, NoSeal, EngineOk, RunBlocks, PacksOnNewEvent, PacksOnNewEpoch;
    if Processed(s, i) {
      if i.o.failed {
        FailedHeadsIff(s, i.e, i.o);
      } else {
        ConnectedHeadsIff(s, i.e, i.o);
      }
    }
  }

  /** After any run the heads are exactly the childless events of the epoch if and only if no engine call
      that sealed and failed has left any, or a later seal has cleared them. */
  lemma {:induction false} HeadsExactAfter(s: State, inputs: seq<Input>)
    requires Inv(s) && Legal(s, inputs)
    ensures HeadsOk(Run(s, inputs)) <==> !Leftovers(!HeadsOk(s), s, inputs)
    decreases |inputs|
  {
    hide Inv, Next, Allowed, HeadsOk, Leftover, Frozen, EventsKept, BlocksExtend;
    if inputs == [] {
    } else {
      NextSafe(s, inputs[0]);
      NextHeadsIff(s, inputs[0]);
      HeadsExactAfter(Next(s, inputs[0]), inputs[1..]);
    }
  }

  /** No engine call of the run seals and fails. */
  ghost predicate NoFailedSeal(s: State, inputs: seq<Input>)
    requires Legal(s, inputs)
    decreases |inputs|
  {
    inputs == [] ||
    (&& (Processed(s, inputs[0]) && inputs[0].o.failed ==> NoSeal(inputs[0].o.blocks, s.epochBlocks, s.maxEpochBlocks))
     && NoFailedSeal(Next(s, inputs[0]), inputs[1..]))
  }

  /** With an engine that does not fail once it has sealed, the heads are exact after every run. */
  lemma {:induction false} HeadsExact(s: State, inputs: seq<Input>)
    requires Inv(s) && HeadsOk(s) && Legal(s, inputs) && NoFailedSeal(s, inputs)
    ensures HeadsOk(Run(s, inputs))
    decreases |inputs|
  {
    hide Inv, Next, Allowed, HeadsOk, Frozen, EventsKept, BlocksExtend, NoSeal;
    if inputs == [] {
    } else {
      NextSafe(s, inputs[0]);
      NextHeadsIff(s, inputs[0]);
      HeadsExact(Next(s, inputs[0]), inputs[1..]);
    }
  }

  /** A run from genesis that breaks exactness: one connected event, then an engine call that seals
      because of a cheater and fails. */
  lemma FailureAfterSealBreaksHeads(a: Built, b: Built, block: Block)
    requires a.id != b.id && a.event.epoch == b.event.epoch == 1 && a.event.parents == b.event.parents == []
    ensures var first := Connect(a, Outcome(false, []));
      var second := Connect(b, Outcome(true, [Emitted(a.id, [a], 1)]));
      var s := Genesis(5, block);
      && Legal(s, [first]) && HeadsOk(Run(s, [first]))
      && Legal(s, [first, second]) && !HeadsOk(Run(s, [first, second]))
  {
    hide Inv, HeadsOk, Pack, Info, PacksNum;
    var first := Connect(a, Outcome(false, []));
    var seal := Emitted(a.id, [a], 1);
    var second := Connect(b, Outcome(true, [seal]));
    var s := Genesis(5, block);
    assert WellFormed(seal);
    GenesisInv(5, block);
    var u := Next(s, first);
    assert u.heads == {a.id} && u.epoch == 1 && u.epochBlocks == 0 && u.events == map[a.id := a];
    NextSafe(s, first);
    NextHeadsIff(s, first);
    assert [first][1..] == [] && [first, second][1..] == [second] && [second][1..] == [];
    assert Legal(u, []) && Legal(u, [second]);
    assert Run(u, []) == u && Run(u, [second]) == Next(u, second);
    NextHeadsIff(u, second);
    assert !NoSeal([seal], 0, 5);
  }
}
