/** Serving packs to peers (`gossip/handler.go`), and the service over a whole run. */
module PackServer {
  import opened EventCodec
  import opened Consensus
  import opened ConsensusSafety
  import opened ConsensusRuns
  import opened GossipService

  const SOFT_LIMIT_ITEMS := 250
  const SOFT_RESPONSE_LIMIT := 2 * 1024 * 1024

  /** The service fed with any inputs: it ends in the state of the run, and keeps the invariant. */
  method Serve(service: Service, inputs: seq<Input>)
    requires service.store.Coherent() && Inv(service.Model()) && Legal(service.Model(), inputs)
    modifies service, service.store
    ensures service.store.Coherent() && Inv(service.Model())
    ensures service.Model() == Run(old(service.Model()), inputs)
  {
    hide Inv, Allowed, Next, Store.Coherent;
    for i := 0 to |inputs|
      invariant service.store.Coherent() && Inv(service.Model()) && Legal(service.Model(), inputs[i..])
      invariant Run(old(service.Model()), inputs) == Run(service.Model(), inputs[i..])
    {
      assert inputs[i..][1..] == inputs[i + 1..];
      NextSafe(service.Model(), inputs[i]);
      Feed(service, inputs[i]);
    }
  }

  method Feed(service: Service, i: Input)
    requires service.store.Coherent() && Allowed(service.Model(), i)
    modifies service, service.store
    ensures service.store.Coherent() && service.Model() == Next(old(service.Model()), i)
  {
    hide Store.Coherent, RunBlocks, ProcessEvent, WellFormed;
    match i {
      case Connect(e, o) =>
        var _ := service.ProcessEvent(e, o);
      case Stop =>
        service.stopped := true;
    }
  }

  /** The pack as the iterator of the Packs table lists it: each event once. */
  ghost predicate Lists(ids: seq<Hash>, pack: set<Hash>) {
    (forall i, j :: 0 <= i < j < |ids| ==> ids[i] != ids[j]) && (set id | id in ids) == pack
  }

  lemma {:induction false} ListLength(ids: seq<Hash>, pack: set<Hash>)
    requires Lists(ids, pack)
    ensures |ids| == |pack|
  {
    if ids != [] {
      var n := |ids| - 1;
      var fewer := ids[..n];
      assert (set id | id in fewer) == pack - {ids[n]};
      ListLength(fewer, pack - {ids[n]});
    } else {
      assert pack == {};
    }
  }

  /** The reply to GetPackMsg: with packs of at most 250 events its cut-off never takes anything away. */
  method ReplyPack(ids: seq<Hash>, ghost s: State, ghost epoch: nat, ghost k: nat) returns (reply: seq<Hash>)
    requires InfosOk(s) && Lists(ids, Pack(s, epoch, k))
    ensures reply == ids
  {
    hide Pack, Lists;
    ListLength(ids, Pack(s, epoch, k));
    assert Info(s, epoch, k).numOfEvents <= 250;
    reply := [];
    for i := 0 to |ids|
      invariant reply == ids[..i]
    {
      reply := reply + [ids[i]];
      if i >= SOFT_LIMIT_ITEMS {
        break;
      }
    }
  }

  /** The records of the requested packs that are pinned and stored. */
  function Served(infos: map<(nat, nat), PackInfo>, epoch: nat, num: nat, indexes: seq<nat>): seq<PackInfo> {
    if indexes == [] then []
    else
      var last := indexes[|indexes| - 1];
      Served(infos, epoch, num, indexes[..|indexes| - 1])
        + if last < num && (epoch, last) in infos then [infos[(epoch, last)]] else []
  }

  /** Bytes of a reply, for any encoding of records. */
  function Bytes(size: PackInfo -> nat, infos: seq<PackInfo>): nat {
    if infos == [] then 0 else Bytes(size, infos[..|infos| - 1]) + size(infos[|infos| - 1])
  }

  lemma BytesSnoc(size: PackInfo -> nat, infos: seq<PackInfo>, x: PackInfo)
    ensures Bytes(size, infos + [x]) == Bytes(size, infos) + size(x)
  {
    assert (infos + [x])[..|infos|] == infos;
  }

  /** The reply to GetPackInfosMsg: the requested records in order, pinned packs only, up to the
      request's end or to the first record that reaches the size limit. */
  method ReplyPackInfos(store: Store, epoch: nat, indexes: seq<nat>, size: PackInfo -> nat)
    returns (reply: seq<PackInfo>, answered: nat)
    requires store.Coherent()
    ensures answered <= |indexes|
    ensures reply == if epoch in store.packsNum then Served(store.packInfos, epoch, store.packsNum[epoch], indexes[..answered]) else []
    ensures epoch in store.packsNum ==> answered == |indexes| || Bytes(size, reply) >= 2097152
    ensures 0 < answered && epoch in store.packsNum ==>
      Bytes(size, Served(store.packInfos, epoch, store.packsNum[epoch], indexes[..answered - 1])) < 2097152
  {
    hide Served, Bytes, Store.Coherent;
    reply, answered := [], 0;
    if epoch !in store.packsNum {
      return;
    }
    var packsNum := store.packsNum[epoch];
    ServedNone(store.packInfos, epoch, packsNum, size);
    assert indexes[..0] == [];
    var total := 0;
    while answered < |indexes|
      invariant answered <= |indexes|
      invariant reply == Served(store.packInfos, epoch, packsNum, indexes[..answered])
      invariant total == Bytes(size, reply) < SOFT_RESPONSE_LIMIT
      invariant 0 < answered ==> Bytes(size, Served(store.packInfos, epoch, packsNum, indexes[..answered - 1])) < SOFT_RESPONSE_LIMIT
    {
      var index := indexes[answered];
      ServedSnoc(store.packInfos, epoch, packsNum, indexes, answered);
      answered := answered + 1;
      if index >= packsNum {
        continue;
      }
      var raw := store.GetStoredPackInfo(epoch, index);
      if raw.Some? {
        BytesSnoc(size, reply, raw.value);
        reply := reply + [raw.value];
        total := total + size(raw.value);
      }
      if total >= SOFT_RESPONSE_LIMIT {
        break;
      }
    }
  }

  lemma ServedNone(infos: map<(nat, nat), PackInfo>, epoch: nat, num: nat, size: PackInfo -> nat)
    ensures Served(infos, epoch, num, []) == [] && Bytes(size, []) == 0
  {
  }

  lemma ServedSnoc(infos: map<(nat, nat), PackInfo>, epoch: nat, num: nat, indexes: seq<nat>, n: nat)
    requires n < |indexes|
    ensures Served(infos, epoch, num, indexes[..n + 1]) == Served(infos, epoch, num, indexes[..n])
      + if indexes[n] < num && (epoch, indexes[n]) in infos then [infos[(epoch, indexes[n])]] else []
  {
    assert indexes[..n + 1][..n] == indexes[..n];
  }

  /** Nothing else is served: a record is in the reply if and only if it is stored for a pack that was asked for
      and lies below the number of packs, which is that of the open one. */
  lemma {:induction false} ServedIff(infos: map<(nat, nat), PackInfo>, epoch: nat, num: nat, indexes: seq<nat>, x: PackInfo)
    ensures x in Served(infos, epoch, num, indexes) <==>
      exists i :: 0 <= i < |indexes| && indexes[i] < num && (epoch, indexes[i]) in infos && infos[(epoch, indexes[i])] == x
    decreases |indexes|
  {
    if indexes == [] {
    } else {
      var n := |indexes| - 1;
      ServedIff(infos, epoch, num, indexes[..n], x);
      assert forall i :: 0 <= i < n ==> indexes[..n][i] == indexes[i];
    }
  }

  /** Every pinned pack that is asked for is served. */
  lemma {:induction false} ServedComplete(s: State, epoch: nat, indexes: seq<nat>)
    requires InfosOk(s) && forall i :: 0 <= i < |indexes| ==> 1 <= indexes[i] < PacksNum(s, epoch)
    ensures var served := Served(s.packInfos, epoch, PacksNum(s, epoch), indexes);
      |served| == |indexes| && forall i :: 0 <= i < |indexes| ==> served[i] == Info(s, epoch, indexes[i])
    decreases |indexes|
  {
    hide PacksNum, Full;
    if indexes == [] {
    } else {
      var n := |indexes| - 1;
      ServedComplete(s, epoch, indexes[..n]);
      assert (epoch, indexes[n]) in s.packInfos;
    }
  }

  /** What is served is final: a request for packs that are pinned gets the same records, and the packs
      hold the same events, after any further run. */
  lemma ServedIsFinal(s: State, inputs: seq<Input>, epoch: nat, indexes: seq<nat>)
    requires Inv(s) && Legal(s, inputs) && epoch in s.packsNum
    requires forall i :: 0 <= i < |indexes| ==> indexes[i] < s.packsNum[epoch]
    ensures var t := Run(s, inputs);
      && epoch in t.packsNum
      && Served(t.packInfos, epoch, t.packsNum[epoch], indexes) == Served(s.packInfos, epoch, s.packsNum[epoch], indexes)
      && forall i :: 0 <= i < |indexes| ==> Pack(t, epoch, indexes[i]) == Pack(s, epoch, indexes[i])
  {
    hide Pack, Info, Inv, Next, Allowed, Served;
    RunSafe(s, inputs);
    var t := Run(s, inputs);
    assert PacksNum(s, epoch) <= PacksNum(t, epoch);
    FrozenServed(s, t, epoch, indexes);
  }

  lemma {:induction false} FrozenServed(s: State, t: State, epoch: nat, indexes: seq<nat>)
    requires Frozen(s, t) && forall i :: 0 <= i < |indexes| ==> indexes[i] < PacksNum(s, epoch)
    ensures Served(t.packInfos, epoch, PacksNum(t, epoch), indexes) == Served(s.packInfos, epoch, PacksNum(s, epoch), indexes)
    decreases |indexes|
  {
    hide PacksNum;
    if indexes == [] {
    } else {
      var n := |indexes| - 1;
      FrozenServed(s, t, epoch, indexes[..n]);
      assert PacksNum(s, epoch) <= PacksNum(t, epoch);
      assert Info(t, epoch, indexes[n]) == Info(s, epoch, indexes[n]);
    }
  }
}
