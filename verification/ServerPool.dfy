/** Model of the server pool (`gossip/serverpool.go`): the entries' connection states, the counters
    of selected servers, the two access queues and the two selection sets.  The statistics are left
    out: a selection weight is arbitrary, but zero for an entry that must not be dialed. */
module ServerPool {
  import opened Options
  import opened PoolQueue
  import opened PoolView
  import opened WeightedChance
  import opened WeightedSelect
  import opened WeightedSlots

  const MAX_ENTRIES := 1000
  const TARGET_SERVERS := 5
  const TARGET_KNOWN := 3
  const SHORT_RETRY := 5

  function Max(a: int, b: int): int {
    if a < b then b else a
  }

  function Min(a: int, b: int): int {
    if a < b then a else b
  }

  function Nodes(es: seq<PoolEntry>): seq<nat> {
    seq(|es|, i requires 0 <= i < |es| => es[i].node)
  }

  /** The nodes that are not trusted, in order. */
  function Untrusted(nodes: seq<nat>, trusted: set<nat>): seq<nat> {
    if nodes == [] then []
    else Untrusted(nodes[..|nodes| - 1], trusted) + if nodes[|nodes| - 1] in trusted then [] else [nodes[|nodes| - 1]]
  }

  /** The last n elements. */
  function Last<T>(s: seq<T>, n: nat): seq<T> {
    if |s| <= n then s else s[|s| - n..]
  }

  lemma {:induction false} AllUntrusted(nodes: seq<nat>, trusted: set<nat>)
    requires forall n :: n in nodes ==> n !in trusted
    ensures Untrusted(nodes, trusted) == nodes
  {
    if nodes == [] {
    } else {
      AllUntrusted(nodes[..|nodes| - 1], trusted);
    }
  }

  /** A new entry at the end of a bounded queue keeps the last nodes. */
  lemma AddedNodes(was: seq<PoolEntry>, e: PoolEntry, n: nat)
    requires |was| <= n && 1 <= n && e !in was
    ensures Nodes(Accessed(was, e, n)) == Last(Nodes(was) + [e.node], n)
  {
  }

  lemma NoneLoaded(trusted: set<nat>, n: nat)
    ensures Nodes([]) == Last(Untrusted([], trusted), n)
  {
  }

  /** One more node of a list, with only the last n kept. */
  lemma LoadedMore(list: seq<nat>, i: nat, trusted: set<nat>, n: nat)
    requires i < |list| && 1 <= n
    ensures var was := Last(Untrusted(list[..i], trusted), n);
      Last(Untrusted(list[..i + 1], trusted), n) == if list[i] in trusted then was else Last(was + [list[i]], n)
  {
    assert list[..i + 1][..i] == list[..i] && list[..i + 1][i] == list[i];
    LastOfLast(Untrusted(list[..i], trusted), list[i], n);
  }

  lemma LastOfLast<T>(s: seq<T>, x: T, n: nat)
    requires 1 <= n
    ensures Last(s + [x], n) == Last(Last(s, n) + [x], n)
  {
  }

  type Select = WeightedRandomSelect<PoolEntry>

  lemma NoFade(weights: Weights, t: nat, e: PoolEntry)
    ensures !Fades(weights, e) ==> weights(t, e) != 0
  {
  }

  /** `choose` of a selection set in which only the ready entries weigh anything now. */
  method ChooseReady(select: Select, ready: set<PoolEntry>, weights: Weights, draws: Draws, now: nat)
    returns (choice: Option<PoolEntry>, clock: nat)
    requires select.Valid()
    modifies select, select.root.Repr
    ensures select.Valid() && fresh(select.root.Repr - old(select.root.Repr))
    ensures choice.None? <==> select.idx == map[]
    ensures choice.Some? ==> choice.value in ready
    ensures forall e :: e in old(select.idx) && e in ready && !Fades(weights, e) ==> e in select.idx
    ensures (choice, clock, select.root.Slots()) == Chosen(old(select.root.Slots()), Ready(weights, ready), draws, now)
  {
    select.Offered();
    choice, clock := select.Choose(Ready(weights, ready), draws, now);
    select.Offered();
  }

  /** The weight an entry reports: zero unless it may be dialed. */
  function Ready(weights: Weights, ready: set<PoolEntry>): (weigh: (nat, PoolEntry) -> nat)
    ensures forall t: nat, e :: e in ready ==> weigh(t, e) == weights(t, e)
  {
    (t, e) => if e in ready then weights(t, e) else 0
  }

  /** `update`, or with weight zero `remove`, of a selection set. */
  method SetOffer(select: Select, entry: PoolEntry, weight: nat)
    requires select.Valid()
    modifies select, select.root.Repr
    ensures select.Valid() && fresh(select.root.Repr - old(select.root.Repr))
    ensures select.idx.Keys == With(old(select.idx.Keys), entry, weight != 0)
    ensures select.Weights() == Put(old(select.Weights()), entry, weight)
  {
    hide WeightedRandomSelect.Valid, WeightedRandomSelect.Weights;
    select.Offered();
    select.Update(entry, weight);
    select.Offered();
  }

  /** The choice of `dial` among the addresses of an entry, which weigh at least one: some row holds them with
      their weights, and the choice on it is that of `choose`. */
  method ChooseAddress(addresses: set<nat>, extra: (nat, nat) -> nat, draws: Draws, now: nat)
    returns (address: nat, clock: nat, ghost row: seq<Slot<nat>>, ghost idx: map<nat, nat>)
    requires addresses != {}
    ensures address in addresses
    ensures Indexed(row, idx) && Stored(row, idx) == map a | a in addresses :: Above(extra)(now, a)
    ensures Chosen(row, Above(extra), draws, now).0 == Some(address)
  {
    hide WeightedRandomSelect.Valid, WeightedRandomSelect.Weights, Reported, Chosen, Indexed, Stored, Above;
    var addrSelect := AddressSelect(addresses, extra, now);
    ghost var was := addrSelect.Weights();
    row, idx := addrSelect.root.Slots(), addrSelect.idx;
    addrSelect.WeightsAre();
    var choice;
    choice, clock := addrSelect.Choose(Above(extra), draws, now);
    if choice.None? {
      ghost var a :| a in addresses;
      assert a in was;
      NeverZero(extra, a, now, clock);
      assert false;
    }
    address := choice.value;
  }

  method AddressSelect(addresses: set<nat>, extra: (nat, nat) -> nat, now: nat) returns (select: WeightedRandomSelect<nat>)
    ensures fresh(select) && select.Valid() && fresh(select.root.Repr)
    ensures select.Weights() == map a | a in addresses :: Above(extra)(now, a)
  {
    hide WeightedRandomSelect.Valid, WeightedRandomSelect.Weights;
    select := new WeightedRandomSelect<nat>();
    var rest := addresses;
    while rest != {}
      invariant fresh(select) && select.Valid() && fresh(select.root.Repr)
      invariant rest <= addresses && select.Weights() == map a | a in addresses - rest :: Above(extra)(now, a)
    {
      var a :| a in rest;
      select.Update(a, Above(extra)(now, a));
      rest := rest - {a};
    }
    assert addresses - rest == addresses;
  }

  /** The weight of an address, which is at least one. */
  function Above(extra: (nat, nat) -> nat): (weigh: (nat, nat) -> nat)
    ensures forall t: nat, a: nat :: weigh(t, a) == extra(t, a) + 1
  {
    (t, a) => extra(t, a) + 1
  }

  lemma NeverZero(extra: (nat, nat) -> nat, a: nat, since: nat, until: nat)
    ensures !Reported(Above(extra), a, since, until, 0)
  {
  }

  class ServerPool {
    const trusted: set<nat>
    const knownQueue: PoolEntryQueue
    const newQueue: PoolEntryQueue
    const knownSelect: Select
    const newSelect: Select
    var entries: map<nat, PoolEntry>
    var knownSelected: int
    var newSelected: int
    var fastDiscover: bool
    var connWg: int

    /** Every entry ever made, evicted ones included. */
    var all: set<PoolEntry>
    /** Connections accepted so far from an idle entry, by the entry's flag. */
    ghost var undialedKnown: nat
    ghost var undialedNew: nat
    /** The tree nodes of the two selection sets. */
    ghost var nodes: set<Node<PoolEntry>>

    ghost function States(): StateMap
      reads this`all, all`state
    {
      map e | e in all :: e.state
    }

    ghost function Flags(): FlagMap
      reads this`all, all`knownSelected
    {
      map e | e in all :: e.knownSelected
    }

    ghost function Removed(): set<PoolEntry>
      reads this`all, all`removed
    {
      set e | e in all && e.removed
    }

    ghost function Now(): View
      reads this`entries, this`all, all`state, all`knownSelected, all`removed
    {
      View(entries, States(), Flags(), Removed())
    }

    ghost function Offers(): Offer
      reads this`all, all`state, all`knownSelected, knownSelect`idx, newSelect`idx
    {
      Offer(States(), Flags(), knownSelect.idx.Keys, newSelect.idx.Keys)
    }

    /** The counters are the busy entries less the connections accepted undialed; the wait group is
        the number of linked entries. */
    ghost predicate Conserved()
      reads this`knownSelected, this`newSelected, this`connWg, this`undialedKnown, this`undialedNew
      reads this`all, all`state, all`knownSelected
    {
      && knownSelected == |Busy(States(), Flags(), true)| - undialedKnown
      && newSelected == |Busy(States(), Flags(), false)| - undialedNew
      && connWg == |Linked(States())|
    }

    /** With every accepted connection dialed, both counters are within 0 and 5. */
    ghost predicate Bounded()
      reads this`knownSelected, this`newSelected, this`undialedKnown
    {
      knownSelected <= TARGET_SERVERS && newSelected <= TARGET_SERVERS + undialedKnown
    }

    ghost predicate Queued(q: PoolEntryQueue, known: bool)
      reads q, this`all, q.queue.Values`known, q.queue.Values`queueIdx
    {
      && q.Valid()
      && forall k :: k in q.queue ==> q.queue[k] in all && q.queue[k].known == known && q.queue[k].node !in trusted
    }

    ghost predicate Queues()
      reads this`all, knownQueue, knownQueue.queue.Values`known, knownQueue.queue.Values`queueIdx
      reads newQueue, newQueue.queue.Values`known, newQueue.queue.Values`queueIdx
    {
      && knownQueue != newQueue && knownQueue.maxCnt == newQueue.maxCnt == 1000
      && Queued(knownQueue, true) && Queued(newQueue, false)
    }

    /** The table holds entries that were not evicted; every entry has an address. */
    ghost predicate Stored()
      reads this`all, this`entries, all`addresses, all`removed
    {
      && (forall n :: n in entries ==> entries[n] in all && entries[n].node == n && !entries[n].removed)
      && (forall e :: e in all ==> e.addresses != {})
    }

    ghost predicate Selecting()
      reads this`nodes, knownSelect, newSelect, nodes
    {
      && knownSelect != newSelect
      && knownSelect.root in nodes && newSelect.root in nodes
      && nodes == knownSelect.root.Repr + newSelect.root.Repr
      && knownSelect.root.Repr !! newSelect.root.Repr
      && knownSelect.Valid() && newSelect.Valid()
    }

    ghost predicate Valid()
      reads this, all, knownQueue, newQueue, knownQueue.queue.Values, newQueue.queue.Values, knownSelect, newSelect, nodes
    {
      Conserved() && Bounded() && Stored() && Queues() && Selecting()
    }

    lemma StartsValid()
      requires all == {} && entries == map[] && knownSelected == newSelected == connWg == undialedKnown == undialedNew == 0
      requires knownQueue != newQueue && knownQueue.maxCnt == newQueue.maxCnt == MAX_ENTRIES
      requires knownQueue.Valid() && newQueue.Valid() && knownQueue.queue == newQueue.queue == map[]
      requires Selecting()
      ensures Valid()
    {
      hide Selecting;
      assert Busy(States(), Flags(), true) == {} && Busy(States(), Flags(), false) == {} && Linked(States()) == {};
    }

    /** `newServerPool`. */
    constructor (trusted: set<nat>)
      ensures Valid() && all == {} && undialedKnown == undialedNew == 0 && this.trusted == trusted
      ensures fresh(knownQueue) && fresh(newQueue) && fresh(knownSelect) && fresh(newSelect) && fresh(nodes)
      ensures knownQueue.Order() == [] && entries == map[] && knownSelected == newSelected == connWg == 0
    {
      hide WeightedRandomSelect.Valid, WeightedRandomSelect.Weights, PoolEntryQueue.Valid, From, Valid;
      this.trusted := trusted;
      knownQueue := new PoolEntryQueue(MAX_ENTRIES);
      newQueue := new PoolEntryQueue(MAX_ENTRIES);
      var k := new WeightedRandomSelect<PoolEntry>();
      var n := new WeightedRandomSelect<PoolEntry>();
      knownSelect, newSelect, nodes := k, n, k.root.Repr + n.root.Repr;
      entries, knownSelected, newSelected, fastDiscover, connWg := map[], 0, 0, true, 0;
      all, undialedKnown, undialedNew := {}, 0, 0;
      new;
      StartsValid();
    }

    // ---------- dialing ----------

    /** Moves one entry to a state. */
    method Mark(entry: PoolEntry, state: ConnState, known: bool)
      requires entry in all
      modifies entry`state, entry`knownSelected
      ensures entry.state == state && entry.knownSelected == known
      ensures States() == old(States())[entry := state] && Flags() == old(Flags())[entry := known]
    {
      entry.state, entry.knownSelected := state, known;
    }

    lemma StateOf(entry: PoolEntry)
      requires entry in all
      ensures entry in States() && States()[entry] == entry.state && entry in Flags() && Flags()[entry] == entry.knownSelected
      ensures entry in Removed() <==> entry.removed
    {
    }

    /** `dial`: an idle entry always becomes dialed, at one of its addresses. */
    method Dial(entry: PoolEntry, known: bool, weighing: Weighing, now: nat) returns (clock: nat)
      requires Conserved() && Bounded() && Stored() && entry in all && entry.state == NotConnected
      requires if known then knownSelected < TARGET_SERVERS else knownSelected + newSelected < TARGET_SERVERS
      modifies this`knownSelected, this`newSelected, entry`state, entry`knownSelected, entry`dialed
      ensures Conserved() && Bounded() && entry.state == Dialed && entry.knownSelected == known
      ensures States() == old(States())[entry := Dialed] && Flags() == old(Flags())[entry := known]
      ensures entry.dialed.Some? && entry.dialed.value in entry.addresses
      ensures knownSelected == old(knownSelected) + Bit(known)
      ensures newSelected == old(newSelected) + Bit(!known)
    {
      hide Busy, Linked, States, Flags;
      StateOf(entry);
      Recounted(States(), Flags(), entry, Dialed, known);
      Mark(entry, Dialed, known);
      if known {
        knownSelected := knownSelected + 1;
      } else {
        newSelected := newSelected + 1;
      }
      clock := ChooseDialed(entry, weighing, now);
    }

    method ChooseDialed(entry: PoolEntry, weighing: Weighing, now: nat) returns (clock: nat)
      requires entry.addresses != {}
      modifies entry`dialed
      ensures entry.dialed.Some? && entry.dialed.value in entry.addresses
    {
      var address;
      ghost var row, idx;
      address, clock, row, idx := ChooseAddress(entry.addresses, weighing.address, weighing.draws, now);
      entry.dialed := Some(address);
    }

    /** Entries that are known and wait for no retry: idle, they have a `knownEntry` weight. */
    function FitKnown(): set<PoolEntry>
      reads this`all, all`known, all`delayedRetry
    {
      set e | e in all && e.known && !e.delayedRetry
    }

    /** Entries that wait for no retry: idle, they have a `discoveredEntry` weight. */
    function FitNew(): set<PoolEntry>
      reads this`all, all`delayedRetry
    {
      set e | e in all && !e.delayedRetry
    }

    function Idle(fit: set<PoolEntry>): set<PoolEntry>
      reads fit`state
    {
      set e | e in fit && e.state == NotConnected
    }

    lemma SameKeys()
      ensures Offers().states.Keys == Offers().flags.Keys
    {
    }

    lemma IdleFit(fit: set<PoolEntry>)
      ensures forall e :: e in fit && e in States() && States()[e] == NotConnected ==> e in Idle(fit)
    {
    }

    method ChooseKnown(weighing: Weighing, now: nat) returns (choice: Option<PoolEntry>, clock: nat)
      requires Selecting()
      modifies this`nodes, knownSelect, knownSelect.root.Repr
      ensures Selecting() && fresh(nodes - old(nodes)) && fresh(knownSelect.root.Repr - old(knownSelect.root.Repr))
      ensures choice.None? <==> knownSelect.idx == map[]
      ensures choice.Some? ==> choice.value in all && choice.value in FitKnown() && choice.value.state == NotConnected
      ensures Filled(old(Offers()), Offers(), FitKnown(), FitNew(), weighing)
    {
      hide WeightedRandomSelect.Valid, Fades, Filled, States, Flags, Chosen, Ready;
      ghost var a := Offers();
      var ready := Idle(FitKnown());
      SameKeys();
      IdleFit(FitKnown());
      choice, clock := ChooseReady(knownSelect, ready, weighing.known, weighing.draws, now);
      nodes := knownSelect.root.Repr + newSelect.root.Repr;
      FilledChoice(a, Offers(), ready, true, FitKnown(), FitNew(), weighing);
    }

    method ChooseNew(weighing: Weighing, now: nat) returns (choice: Option<PoolEntry>, clock: nat)
      requires Selecting()
      modifies this`nodes, newSelect, newSelect.root.Repr
      ensures Selecting() && fresh(nodes - old(nodes)) && fresh(newSelect.root.Repr - old(newSelect.root.Repr))
      ensures choice.None? <==> newSelect.idx == map[]
      ensures choice.Some? ==> choice.value in all && choice.value in FitNew() && choice.value.state == NotConnected
      ensures Filled(old(Offers()), Offers(), FitKnown(), FitNew(), weighing)
    {
      hide WeightedRandomSelect.Valid, Fades, Filled, States, Flags, Chosen, Ready;
      ghost var a := Offers();
      var ready := Idle(FitNew());
      SameKeys();
      IdleFit(FitNew());
      choice, clock := ChooseReady(newSelect, ready, weighing.discovered, weighing.draws, now);
      nodes := knownSelect.root.Repr + newSelect.root.Repr;
      FilledChoice(a, Offers(), ready, false, FitKnown(), FitNew(), weighing);
    }

    /** One round of the first and the third loop of `checkDial`. */
    method DialKnown(weighing: Weighing, now: nat) returns (found: bool, clock: nat)
      requires Conserved() && Bounded() && Stored() && Selecting() && knownSelected < TARGET_SERVERS
      modifies this`knownSelected, this`newSelected, all`state, all`knownSelected, all`dialed
      modifies this`nodes, knownSelect, knownSelect.root.Repr
      ensures Conserved() && Bounded() && Selecting() && fresh(nodes - old(nodes)) && fresh(knownSelect.root.Repr - old(knownSelect.root.Repr))
      ensures knownSelected == old(knownSelected) + Bit(found) && newSelected == old(newSelected)
      ensures !found ==> knownSelect.idx == map[]
      ensures Filled(old(Offers()), Offers(), FitKnown(), FitNew(), weighing)
    {
      hide Conserved, Selecting, Stored, States, Flags, FitKnown, FitNew, Filled;
      ghost var a := Offers();
      var entry;
      entry, clock := ChooseKnown(weighing, now);
      found := entry.Some?;
      if found {
        StateOf(entry.value);
        FilledOne(a, Offers(), entry.value, true, FitKnown(), FitNew(), weighing);
        clock := Dial(entry.value, true, weighing, clock);
      }
    }

    /** One round of the second loop of `checkDial`. */
    method DialNew(weighing: Weighing, now: nat) returns (found: bool, clock: nat)
      requires Conserved() && Bounded() && Stored() && Selecting() && knownSelected + newSelected < TARGET_SERVERS
      modifies this`knownSelected, this`newSelected, all`state, all`knownSelected, all`dialed
      modifies this`nodes, newSelect, newSelect.root.Repr
      ensures Conserved() && Bounded() && Selecting() && fresh(nodes - old(nodes)) && fresh(newSelect.root.Repr - old(newSelect.root.Repr))
      ensures newSelected == old(newSelected) + Bit(found) && knownSelected == old(knownSelected)
      ensures !found ==> newSelect.idx == map[]
      ensures Filled(old(Offers()), Offers(), FitKnown(), FitNew(), weighing)
    {
      hide Conserved, Selecting, Stored, States, Flags, FitKnown, FitNew, Filled;
      ghost var a := Offers();
      var entry;
      entry, clock := ChooseNew(weighing, now);
      found := entry.Some?;
      if found {
        StateOf(entry.value);
        FilledOne(a, Offers(), entry.value, false, FitKnown(), FitNew(), weighing);
        clock := Dial(entry.value, false, weighing, clock);
      }
    }

    /** The first and the third loop of `checkDial`. */
    method FillKnown(target: nat, weighing: Weighing, now: nat) returns (full: bool, clock: nat)
      requires Conserved() && Bounded() && Stored() && Selecting() && target <= TARGET_SERVERS
      modifies this`knownSelected, this`newSelected, all`state, all`knownSelected, all`dialed
      modifies this`nodes, knownSelect, knownSelect.root.Repr
      ensures Conserved() && Bounded() && Selecting() && fresh(nodes - old(nodes)) && fresh(knownSelect.root.Repr - old(knownSelect.root.Repr))
      ensures full <==> target <= knownSelected
      ensures full || knownSelect.idx == map[]
      ensures old(knownSelected) <= knownSelected <= Max(old(knownSelected), target) && newSelected == old(newSelected)
      ensures Filled(old(Offers()), Offers(), FitKnown(), FitNew(), weighing)
    {
      hide Conserved, Stored, Selecting, Offers, FitKnown, FitNew, Filled;
      ghost var a := Offers();
      SameKeys();
      FilledNone(a, FitKnown(), FitNew(), weighing);
      clock, full := now, true;
      while full && knownSelected < target
        invariant Conserved() && Bounded() && Selecting() && fresh(nodes - old(nodes)) && fresh(knownSelect.root.Repr - old(knownSelect.root.Repr))
        invariant old(knownSelected) <= knownSelected <= Max(old(knownSelected), target) && newSelected == old(newSelected)
        invariant full || (knownSelected < target && knownSelect.idx == map[])
        invariant Filled(a, Offers(), FitKnown(), FitNew(), weighing)
        decreases target - knownSelected, full
      {
        ghost var b := Offers();
        full, clock := DialKnown(weighing, clock);
        FilledMore(a, b, Offers(), FitKnown(), FitNew(), weighing);
      }
    }

    /** The second loop of `checkDial`. */
    method FillNew(weighing: Weighing, now: nat) returns (clock: nat)
      requires Conserved() && Bounded() && Stored() && Selecting()
      modifies this`knownSelected, this`newSelected, all`state, all`knownSelected, all`dialed
      modifies this`nodes, newSelect, newSelect.root.Repr
      ensures Conserved() && Bounded() && Selecting() && fresh(nodes - old(nodes)) && fresh(newSelect.root.Repr - old(newSelect.root.Repr))
      ensures 5 <= knownSelected + newSelected || newSelect.idx == map[]
      ensures knownSelected == old(knownSelected) && old(newSelected) <= newSelected
      ensures old(newSelected) < newSelected ==> knownSelected + newSelected <= 5
      ensures Filled(old(Offers()), Offers(), FitKnown(), FitNew(), weighing)
    {
      hide Conserved, Stored, Selecting, Offers, FitKnown, FitNew, Filled;
      ghost var a := Offers();
      SameKeys();
      FilledNone(a, FitKnown(), FitNew(), weighing);
      var found := true;
      clock := now;
      while found && knownSelected + newSelected < TARGET_SERVERS
        invariant Conserved() && Bounded() && Selecting() && fresh(nodes - old(nodes)) && fresh(newSelect.root.Repr - old(newSelect.root.Repr))
        invariant knownSelected == old(knownSelected) && old(newSelected) <= newSelected
        invariant old(newSelected) < newSelected ==> knownSelected + newSelected <= 5
        invariant found || newSelect.idx == map[]
        invariant Filled(a, Offers(), FitKnown(), FitNew(), weighing)
        decreases TARGET_SERVERS - knownSelected - newSelected, found
      {
        ghost var b := Offers();
        found, clock := DialNew(weighing, clock);
        FilledMore(a, b, Offers(), FitKnown(), FitNew(), weighing);
      }
    }

    /** The first two loops of `checkDial`. */
    method FillTargets(weighing: Weighing, now: nat) returns (full: bool, clock: nat)
      requires Conserved() && Bounded() && Stored() && Selecting()
      modifies this`knownSelected, this`newSelected, all`state, all`knownSelected, all`dialed
      modifies this`nodes, knownSelect, newSelect, nodes
      ensures Conserved() && Bounded() && Selecting() && fresh(nodes - old(nodes))
      ensures full <==> 3 <= knownSelected
      ensures full || knownSelect.idx == map[]
      ensures newSelect.idx == map[] || 5 <= knownSelected + newSelected
      ensures old(knownSelected) <= knownSelected <= Max(old(knownSelected), 3) && old(newSelected) <= newSelected
      ensures old(newSelected) < newSelected ==> knownSelected + newSelected <= 5
      ensures Filled(old(Offers()), Offers(), FitKnown(), FitNew(), weighing)
    {
      hide Conserved, Stored, Bounded, Offers, FitKnown, FitNew, Filled, WeightedRandomSelect.Valid;
      ghost var a := Offers();
      full, clock := FillKnown(TARGET_KNOWN, weighing, now);
      ghost var b := Offers();
      clock := FillNew(weighing, clock);
      FilledMore(a, b, Offers(), FitKnown(), FitNew(), weighing);
    }

    /** `checkDial`: terminates with the targets met or the selection sets empty, and dials only idle
        entries that are not waiting for a retry.  Up to three known entries come first; discovered ones fill
        up to five in all; and known ones beyond three, up to five of them, only when the three were found and
        fast discovery is over. */
    method CheckDial(weighing: Weighing, now: nat)
      requires Conserved() && Bounded() && Stored() && Selecting()
      modifies this`knownSelected, this`newSelected, all`state, all`knownSelected, all`dialed
      modifies this`nodes, knownSelect, newSelect, nodes
      ensures Conserved() && Bounded() && Selecting() && fresh(nodes - old(nodes))
      ensures knownSelect.idx == map[] || (if fastDiscover then 3 else 5) <= knownSelected
      ensures newSelect.idx == map[] || 5 <= knownSelected + newSelected
      ensures old(knownSelected) <= knownSelected <= Max(old(knownSelected), if fastDiscover then 3 else 5)
      ensures old(newSelected) <= newSelected
      ensures old(newSelected) < newSelected ==> Min(knownSelected, Max(old(knownSelected), 3)) + newSelected <= 5
      ensures Filled(old(Offers()), Offers(), FitKnown(), FitNew(), weighing)
    {
      hide Conserved, Stored, Bounded, Offers, FitKnown, FitNew, Filled, WeightedRandomSelect.Valid;
      ghost var a := Offers();
      var full, clock := FillTargets(weighing, now);
      if !fastDiscover && full {
        ghost var b := Offers();
        var _, _ := FillKnown(TARGET_SERVERS, weighing, clock);
        FilledMore(a, b, Offers(), FitKnown(), FitNew(), weighing);
      }
    }

    // ---------- entries leave and become idle ----------

    lemma NowShaped()
      requires Stored()
      ensures Shaped(Now()) && Now().states.Keys == all && Now().removed == Removed()
    {
    }

    /** `setRetryDial`; the timer itself is an event of the loop. */
    method SetRetryDial(entry: PoolEntry)
      modifies entry`shortRetry, entry`delayedRetry
      ensures entry.delayedRetry && entry.shortRetry == old(entry.shortRetry) - Bit(0 < old(entry.shortRetry))
    {
      if entry.shortRetry > 0 {
        entry.shortRetry := entry.shortRetry - 1;
      }
      entry.delayedRetry := true;
    }

    /** An entry becomes idle and gives its place back. */
    method Release(entry: PoolEntry)
      requires Conserved() && Bounded() && entry in all && entry.state != NotConnected
      modifies this`knownSelected, this`newSelected, this`connWg
      modifies entry`state, entry`knownSelected, entry`shortRetry, entry`delayedRetry
      ensures Conserved() && Bounded() && entry.state == NotConnected && entry.delayedRetry
      ensures States() == old(States())[entry := NotConnected] && Flags() == old(Flags()) && entry.knownSelected == old(entry.knownSelected)
      ensures entry.shortRetry == old(entry.shortRetry) - Bit(0 < old(entry.shortRetry))
      ensures knownSelected == old(knownSelected) - Bit(entry.knownSelected)
      ensures newSelected == old(newSelected) - Bit(!entry.knownSelected)
      ensures connWg == old(connWg) - Bit(IsLinked(old(entry.state)))
    {
      hide Busy, Linked, States, Flags;
      StateOf(entry);
      Recounted(States(), Flags(), entry, NotConnected, entry.knownSelected);
      var linked := IsLinked(entry.state);
      Mark(entry, NotConnected, entry.knownSelected);
      if entry.knownSelected {
        knownSelected := knownSelected - 1;
      } else {
        newSelected := newSelected - 1;
      }
      if linked {
        connWg := connWg - 1;
      }
      SetRetryDial(entry);
    }

    /** `checkDialTimeout`: only an entry still dialed is reset. */
    method CheckDialTimeout(entry: PoolEntry)
      requires Conserved() && Bounded() && entry in all
      modifies this`knownSelected, this`newSelected, this`connWg
      modifies entry`state, entry`knownSelected, entry`shortRetry, entry`delayedRetry
      ensures Conserved() && Bounded() && connWg == old(connWg)
      ensures old(entry.state) != Dialed ==> States() == old(States()) && Flags() == old(Flags()) && entry.delayedRetry == old(entry.delayedRetry)
      ensures old(entry.state) == Dialed ==>
        States() == old(States())[entry := NotConnected] && Flags() == old(Flags()) && entry.delayedRetry
      ensures entry.shortRetry == old(entry.shortRetry) - Bit(old(entry.state) == Dialed && 0 < old(entry.shortRetry))
    {
      hide Conserved, States, Flags;
      if entry.state == Dialed {
        Release(entry);
      }
    }

    /** The dial timer: ignored for an evicted entry. */
    method OnTimeout(entry: PoolEntry)
      requires Valid() && entry in all
      modifies this`knownSelected, this`newSelected, this`connWg
      modifies entry`state, entry`knownSelected, entry`shortRetry, entry`delayedRetry
      ensures Valid() && Turn(trusted, old(Now()), Timeout(entry), Now())
    {
      hide Conserved, States, Flags, Removed, Queues, Selecting, Turn;
      ghost var v := Now();
      StateOf(entry);
      NowShaped();
      if !entry.removed {
        CheckDialTimeout(entry);
      }
      NowShaped();
      if Subject(trusted, v, Timeout(entry)).None? {
        TurnNone(trusted, v, Timeout(entry));
      } else {
        TurnSubject(trusted, v, Timeout(entry), v, Now());
      }
    }

    /** The `disconnect` function of the event loop. */
    method Disconnect(entry: PoolEntry)
      requires Conserved() && Bounded() && Stored() && entry in all && IsLinked(entry.state)
      modifies this`knownSelected, this`newSelected, this`connWg
      modifies entry`state, entry`knownSelected, entry`shortRetry, entry`delayedRetry
      ensures Conserved() && Bounded() && Stored() && entry.state == NotConnected && entry.delayedRetry && connWg == old(connWg) - 1
      ensures entry.shortRetry == old(entry.shortRetry) - Bit(0 < old(entry.shortRetry))
      ensures knownSelected == old(knownSelected) - Bit(old(entry.knownSelected))
      ensures newSelected == old(newSelected) - Bit(!old(entry.knownSelected))
      ensures Turn(trusted, old(Now()), DisconnectRequest(entry), Now())
    {
      hide Conserved, States, Flags, Removed, Turn;
      ghost var v := Now();
      StateOf(entry);
      NowShaped();
      Release(entry);
      NowShaped();
      TurnSubject(trusted, v, DisconnectRequest(entry), v, Now());
    }

    /** An entry becomes connected: it joins the wait group, but if it was idle it is not counted. */
    method Link(entry: PoolEntry)
      requires Conserved() && entry in all && !IsLinked(entry.state)
      modifies this`connWg, this`undialedKnown, this`undialedNew, entry`state, entry`knownSelected
      ensures Conserved() && connWg == old(connWg) + 1 && entry.state == Connected
      ensures States() == old(States())[entry := Connected] && Flags() == old(Flags())
      ensures undialedKnown == old(undialedKnown) + Bit(old(entry.state) == NotConnected && old(entry.knownSelected))
      ensures undialedNew == old(undialedNew) + Bit(old(entry.state) == NotConnected && !old(entry.knownSelected))
    {
      hide Busy, Linked, States, Flags;
      ghost var idle := entry.state == NotConnected;
      StateOf(entry);
      Recounted(States(), Flags(), entry, Connected, entry.knownSelected);
      Mark(entry, Connected, entry.knownSelected);
      connWg := connWg + 1;
      undialedKnown := undialedKnown + Bit(idle && entry.knownSelected);
      undialedNew := undialedNew + Bit(idle && !entry.knownSelected);
    }

    /** Accepting a connection: the counters do not move, although an entry that was idle becomes busy. */
    method Accept(entry: PoolEntry, address: nat)
      requires Valid() && entry in all && !IsLinked(entry.state)
      modifies this`connWg, this`undialedKnown, this`undialedNew, entry`state, entry`knownSelected, entry`addresses
      ensures Valid() && connWg == old(connWg) + 1 && entry.state == Connected && entry.addresses == {address}
      ensures Now() == old(Now()).(states := old(States())[entry := Connected]) && Shaped(Now())
      ensures undialedKnown == old(undialedKnown) + Bit(old(entry.state) == NotConnected && old(entry.knownSelected))
      ensures undialedNew == old(undialedNew) + Bit(old(entry.state) == NotConnected && !old(entry.knownSelected))
    {
      hide Conserved, Bounded, Stored, States, Flags, Removed, Queues, Selecting;
      LinkValid(entry);
      Relocate(entry, address);
      NowShaped();
    }

    method LinkValid(entry: PoolEntry)
      requires Valid() && entry in all && !IsLinked(entry.state)
      modifies this`connWg, this`undialedKnown, this`undialedNew, entry`state, entry`knownSelected
      ensures Valid() && connWg == old(connWg) + 1 && entry.state == Connected
      ensures Now() == old(Now()).(states := old(States())[entry := Connected])
      ensures undialedKnown == old(undialedKnown) + Bit(old(entry.state) == NotConnected && old(entry.knownSelected))
      ensures undialedNew == old(undialedNew) + Bit(old(entry.state) == NotConnected && !old(entry.knownSelected))
    {
      hide Conserved, States, Flags, Removed, Queues, Selecting;
      Link(entry);
    }

    /** The address of a connection replaces all others. */
    method Relocate(entry: PoolEntry, address: nat)
      requires Valid() && entry in all
      modifies entry`addresses
      ensures Valid() && entry.addresses == {address} && Now() == old(Now())
    {
      hide Conserved, Bounded, States, Flags, Removed, Queues, Selecting;
      entry.addresses := {address};
    }

    // ---------- the queues ----------

    /** `update`, or with weight zero `remove`, of the known selection set. */
    method SetKnown(entry: PoolEntry, weight: nat)
      requires Selecting()
      modifies this`nodes, knownSelect, knownSelect.root.Repr
      ensures Selecting() && fresh(nodes - old(nodes)) && fresh(knownSelect.root.Repr - old(knownSelect.root.Repr))
      ensures knownSelect.idx.Keys == With(old(knownSelect.idx.Keys), entry, weight != 0)
      ensures knownSelect.Weights() == Put(old(knownSelect.Weights()), entry, weight)
    {
      hide WeightedRandomSelect.Valid, WeightedRandomSelect.Weights, Put, With;
      SetOffer(knownSelect, entry, weight);
      nodes := knownSelect.root.Repr + newSelect.root.Repr;
    }

    /** `update`, or with weight zero `remove`, of the new selection set. */
    method SetNew(entry: PoolEntry, weight: nat)
      requires Selecting()
      modifies this`nodes, newSelect, newSelect.root.Repr
      ensures Selecting() && fresh(nodes - old(nodes)) && fresh(newSelect.root.Repr - old(newSelect.root.Repr))
      ensures newSelect.idx.Keys == With(old(newSelect.idx.Keys), entry, weight != 0)
      ensures newSelect.Weights() == Put(old(newSelect.Weights()), entry, weight)
    {
      hide WeightedRandomSelect.Valid, WeightedRandomSelect.Weights, Put, With;
      SetOffer(newSelect, entry, weight);
      nodes := knownSelect.root.Repr + newSelect.root.Repr;
    }

    /** Sets both weights of an entry. */
    method SetWeights(entry: PoolEntry, known: nat, discovered: nat)
      requires Selecting()
      modifies this`nodes, knownSelect, newSelect, nodes
      ensures Selecting() && fresh(nodes - old(nodes))
      ensures knownSelect.idx.Keys == With(old(knownSelect.idx.Keys), entry, known != 0)
      ensures newSelect.idx.Keys == With(old(newSelect.idx.Keys), entry, discovered != 0)
      ensures knownSelect.Weights() == Put(old(knownSelect.Weights()), entry, known)
      ensures newSelect.Weights() == Put(old(newSelect.Weights()), entry, discovered)
    {
      hide WeightedRandomSelect.Valid, WeightedRandomSelect.Weights, Put;
      SetNew(entry, discovered);
      SetKnown(entry, known);
    }

    /** The entry leaves the table. */
    method Unlist(entry: PoolEntry)
      requires Stored() && entry in all
      modifies this`entries, entry`removed
      ensures Stored() && entry.removed && entries == old(entries) - {entry.node}
      ensures Evicted(old(Now()), Now())
    {
      hide States, Flags;
      NowShaped();
      entry.removed := true;
      entries := entries - {entry.node};
      NowShaped();
    }

    /** `removeEntry`: the evicted entry leaves the selection sets and the table, but stays counted. */
    method RemoveEntry(entry: PoolEntry)
      requires Stored() && Selecting() && entry in all
      modifies this`entries, entry`removed, this`nodes, knownSelect, newSelect, nodes
      ensures Stored() && Selecting() && fresh(nodes - old(nodes)) && entry.removed && entries == old(entries) - {entry.node}
      ensures entry !in knownSelect.idx && entry !in newSelect.idx
      ensures Evicted(old(Now()), Now())
    {
      hide States, Flags, Stored, Selecting, Evicted;
      SetWeights(entry, 0, 0);
      Unlist(entry);
    }

    lemma OrderedStored(q: PoolEntryQueue, known: bool, e: PoolEntry)
      requires Queued(q, known) && e in q.Order()
      ensures e in all && e.known == known && e.node !in trusted
    {
      FromMembers(q.queue, q.oldPtr, q.newPtr, e);
    }

    /** `setLatest` of one of the queues; the other queue is untouched although both use the entries'
        index field. */
    method SetLatest(q: PoolEntryQueue, other: PoolEntryQueue, entry: PoolEntry) returns (evicted: PoolEntry?)
      requires q != other && Queued(q, entry.known) && Queued(other, !entry.known)
      requires entry in all && entry.node !in trusted
      modifies q, entry`queueIdx
      ensures Queued(q, entry.known) && Queued(other, !entry.known)
      ensures evicted != null ==> evicted in all
      ensures var was := old(q.Order());
        && (evicted != null <==> entry !in was && |was| == q.maxCnt)
        && (evicted != null ==> evicted == was[0])
        && q.Order() == Accessed(was, entry, q.maxCnt)
    {
      hide From, Accessed, Without;
      ghost var was := q.Order();
      if was != [] {
        OrderedStored(q, entry.known, was[0]);
      }
      evicted := q.SetLatest(entry);
      assert forall k :: k in q.queue && k != q.newPtr - 1 ==> k in q.queue - {q.newPtr - 1};
    }

    lemma Unmoved()
      requires Stored()
      ensures Evicted(Now(), Now())
    {
      NowShaped();
    }

    /** `setLatest` with its eviction callback. */
    method Touch(q: PoolEntryQueue, other: PoolEntryQueue, entry: PoolEntry)
      requires Stored() && Selecting() && q != other && Queued(q, entry.known) && Queued(other, !entry.known)
      requires entry in all && entry.node !in trusted
      modifies q, entry`queueIdx, all`removed, this`entries, this`nodes, knownSelect, newSelect, nodes
      ensures Stored() && Selecting() && fresh(nodes - old(nodes)) && Queued(q, entry.known) && Queued(other, !entry.known)
      ensures var was := old(q.Order());
        && (if entry !in was && |was| == q.maxCnt then was[0].removed && entries == old(entries) - {was[0].node} else entries == old(entries))
        && q.Order() == Accessed(was, entry, q.maxCnt)
      ensures Evicted(old(Now()), Now())
    {
      hide Selecting, Queued, States, Flags, From, Accessed, Without, PoolEntryQueue.Valid;
      Unmoved();
      hide Stored, Now, Evicted;
      var evicted := SetLatest(q, other, entry);
      if evicted != null {
        RemoveEntry(evicted);
      }
    }

    method TouchKnown(entry: PoolEntry)
      requires Valid() && entry in all && entry.known && entry.node !in trusted
      modifies knownQueue, entry`queueIdx, all`removed, this`entries, this`nodes, knownSelect, newSelect, nodes
      ensures Valid() && fresh(nodes - old(nodes))
      ensures knownQueue.Order() == Accessed(old(knownQueue.Order()), entry, 1000) && newQueue.Order() == old(newQueue.Order())
      ensures Evicted(old(Now()), Now())
    {
      hide Conserved, Bounded, Stored, Selecting, Queued, Now, Evicted, From, Accessed;
      Touch(knownQueue, newQueue, entry);
    }

    method TouchNew(entry: PoolEntry)
      requires Valid() && entry in all && !entry.known && entry.node !in trusted
      modifies newQueue, entry`queueIdx, all`removed, this`entries, this`nodes, knownSelect, newSelect, nodes
      ensures Valid() && fresh(nodes - old(nodes))
      ensures newQueue.Order() == Accessed(old(newQueue.Order()), entry, 1000) && knownQueue.Order() == old(knownQueue.Order())
      ensures Evicted(old(Now()), Now())
    {
      hide Conserved, Bounded, Stored, Selecting, Queued, Now, Evicted, From, Accessed;
      Touch(newQueue, knownQueue, entry);
    }

    // ---------- the table ----------

    /** A new idle entry is not counted. */
    method NewEntry(node: nat, known: bool, address: nat) returns (entry: PoolEntry)
      requires Conserved()
      modifies this`all
      ensures Conserved() && fresh(entry) && all == old(all) + {entry}
      ensures entry.node == node && entry.known == known && entry.state == NotConnected && !entry.knownSelected && !entry.removed
      ensures !entry.delayedRetry && entry.addresses == {address}
      ensures States() == old(States())[entry := NotConnected] && Flags() == old(Flags())[entry := false]
    {
      hide Busy, Linked;
      entry := new PoolEntry(node, known, address);
      ghost var s, f := States(), Flags();
      IdleCounts(s, f, entry);
      all := all + {entry};
      assert States() == s[entry := NotConnected] && Flags() == f[entry := false];
    }

    /** A new idle entry in the table. */
    method AddEntry(node: nat, known: bool, address: nat) returns (entry: PoolEntry)
      requires Valid()
      modifies this`entries, this`all
      ensures Valid() && fresh(entry) && all == old(all) + {entry} && entries == old(entries)[node := entry]
      ensures entry.node == node && entry.known == known && entry.state == NotConnected && !entry.knownSelected && !entry.removed
      ensures !entry.delayedRetry && entry.addresses == {address}
      ensures States() == old(States())[entry := NotConnected] && Flags() == old(Flags())[entry := false] && Removed() == old(Removed())
    {
      hide Conserved, States, Flags, Selecting, PoolEntryQueue.Valid;
      entry := NewEntry(node, known, address);
      entries := entries[node := entry];
    }

    /** The node's entry with the address it was seen at, new if there is none. */
    method Lookup(node: nat, address: nat) returns (entry: PoolEntry)
      requires Valid()
      modifies this`entries, this`all, all`addresses
      ensures Valid() && entry in all && entry.node == node
      ensures fresh(all - old(all)) && old(all) <= all && (entry in old(all) || (fresh(entry) && !entry.known && !entry.delayedRetry))
      ensures entry.addresses == (if node in old(entries) then old(entries[node].addresses) else {}) + {address}
      ensures forall e :: e in old(all) && e != entry ==> e.addresses == old(e.addresses)
      ensures Found(old(Now()), Now(), node, entry)
    {
      hide Conserved, Selecting, Queues, States, Flags;
      NowShaped();
      if node in entries {
        entry := entries[node];
        entry.addresses := entry.addresses + {address};
      } else {
        entry := AddEntry(node, false, address);
      }
      NowShaped();
    }

    /** `findOrNewNode`; an entry that was never connected moves to the end of the new queue. */
    method FindOrNewNode(node: nat, address: nat) returns (entry: PoolEntry)
      requires Valid() && node !in trusted
      modifies this`entries, this`all, newQueue, all`queueIdx, all`removed, all`addresses, this`nodes, knownSelect, newSelect, nodes
      ensures Valid() && fresh(nodes - old(nodes)) && entry in all && entry.node == node
      ensures fresh(all - old(all)) && old(all) <= all && (entry in old(all) || (fresh(entry) && !entry.known && !entry.delayedRetry))
      ensures var was := old(newQueue.Order());
        newQueue.Order() == if entry.known then was else Accessed(was, entry, 1000)
      ensures entry.addresses == (if node in old(entries) then old(entries[node].addresses) else {}) + {address}
      ensures forall e :: e in old(all) && e != entry ==> e.addresses == old(e.addresses)
      ensures Found(old(Now()), Now(), node, entry)
    {
      hide Valid, Now, Found, Evicted, From, Accessed;
      ghost var v := Now();
      entry := Lookup(node, address);
      if !entry.known {
        ghost var u := Now();
        TouchNew(entry);
        FoundEvicted(v, u, Now(), node, entry);
      }
    }

    // ---------- connections ----------

    lemma ValidShaped()
      requires Valid()
      ensures Shaped(Now()) && Now().states.Keys == all && Evicted(Now(), Now())
      ensures forall n :: n in entries ==> entries[n] in all && entries[n].node == n
    {
      NowShaped();
    }

    /** A connection to a node in the table. */
    method AcceptListed(node: nat, address: nat) returns (entry: PoolEntry)
      requires Valid() && node !in trusted && node in entries && !IsLinked(entries[node].state)
      modifies this`connWg, this`undialedKnown, this`undialedNew, all`state, all`knownSelected, all`addresses
      ensures Valid() && connWg == old(connWg) + 1 && entry == entries[node] && entry in all && entry.node == node && entry.state == Connected
      ensures entry.addresses == {address}
      ensures undialedKnown == old(undialedKnown) + Bit(Undialed(trusted, old(Now()), ConnectRequest(node, address)) == Some(true))
      ensures undialedNew == old(undialedNew) + Bit(Undialed(trusted, old(Now()), ConnectRequest(node, address)) == Some(false))
      ensures Turn(trusted, old(Now()), ConnectRequest(node, address), Now())
    {
      hide Valid, States, Flags, Removed, Turn, Evicted, Shaped;
      ghost var v := Now();
      ValidShaped();
      entry := entries[node];
      StateOf(entry);
      Accept(entry, address);
      TurnSubject(trusted, v, ConnectRequest(node, address), v, Now());
    }

    /** A connection to a node that is not in the table. */
    method AcceptNew(node: nat, address: nat) returns (entry: PoolEntry)
      requires Valid() && node !in trusted && node !in entries
      modifies this`entries, this`all, this`connWg, this`undialedKnown, this`undialedNew
      modifies newQueue, all`queueIdx, all`removed, all`addresses, this`nodes, knownSelect, newSelect, nodes
      ensures Valid() && fresh(nodes - old(nodes)) && fresh(all - old(all)) && old(all) <= all
      ensures connWg == old(connWg) + 1 && fresh(entry) && entry in all && entry.node == node && entry.state == Connected
      ensures entry.addresses == {address}
      ensures !entry.knownSelected && undialedKnown == old(undialedKnown) && undialedNew == old(undialedNew) + 1
      ensures Turn(trusted, old(Now()), ConnectRequest(node, address), Now())
    {
      hide Valid, States, Flags, Removed, Turn, Shaped, From, Accessed;
      ghost var v := Now();
      ValidShaped();
      entry := FindOrNewNode(node, address);
      ghost var u := Now();
      StateOf(entry);
      Accept(entry, address);
      StateOf(entry);
      TurnNewConnection(trusted, v, u, Now(), node, address, entry);
    }

    /** The connection request: refused for a trusted or an already connected node. */
    method Connect(node: nat, address: nat) returns (entry: PoolEntry?)
      requires Valid()
      modifies this`entries, this`all, this`connWg, this`undialedKnown, this`undialedNew, newQueue, all, this`nodes, knownSelect, newSelect, nodes
      ensures Valid() && fresh(nodes - old(nodes)) && fresh(all - old(all)) && old(all) <= all
      ensures entry == null <==> node in trusted || (node in old(entries) && old(IsLinked(entries[node].state)))
      ensures entry != null ==> entry in all && entry.node == node && entry.state == Connected && entry.addresses == {address}
      ensures entry != null ==> if node in old(entries) then entry == old(entries)[node] else fresh(entry) && !entry.knownSelected
      ensures connWg == old(connWg) + Bit(entry != null)
      ensures undialedKnown == old(undialedKnown) + Bit(Undialed(trusted, old(Now()), ConnectRequest(node, address)) == Some(true))
      ensures undialedNew == old(undialedNew) + Bit(Undialed(trusted, old(Now()), ConnectRequest(node, address)) == Some(false))
      ensures Turn(trusted, old(Now()), ConnectRequest(node, address), Now())
    {
      hide Valid, States, Flags, Removed, Turn, Shaped, Evicted;
      ghost var event := ConnectRequest(node, address);
      ValidShaped();
      if node in trusted {
        TurnNone(trusted, Now(), event);
        return null;
      }
      if node in entries {
        StateOf(entries[node]);
        if IsLinked(entries[node].state) {
          TurnNone(trusted, Now(), event);
          return null;
        }
        entry := AcceptListed(node, address);
      } else {
        entry := AcceptNew(node, address);
      }
    }

    /** A never connected entry leaves the new queue and becomes known. */
    method Promote(entry: PoolEntry)
      requires Queues() && entry in all
      modifies newQueue, entry`known
      ensures Queues() && entry.known && knownQueue.Order() == old(knownQueue.Order())
      ensures newQueue.Order() == if old(entry.known) then old(newQueue.Order()) else Without(old(newQueue.Order()), entry)
    {
      hide From, Without;
      if !entry.known {
        newQueue.Remove(entry);
        entry.known := true;
      }
    }

    /** A linked entry counts the same once registered. */
    method Enroll(entry: PoolEntry)
      requires Conserved() && entry in all && IsLinked(entry.state)
      modifies entry`state, entry`knownSelected, entry`shortRetry
      ensures Conserved() && entry.state == Registered && entry.shortRetry == 5
      ensures States() == old(States())[entry := Registered] && Flags() == old(Flags())
    {
      hide Busy, Linked, States, Flags;
      StateOf(entry);
      Recounted(States(), Flags(), entry, Registered, entry.knownSelected);
      Mark(entry, Registered, entry.knownSelected);
      entry.shortRetry := SHORT_RETRY;
    }

    /** Registration, before the entry moves to the end of its queue. */
    method EnrollKnown(entry: PoolEntry)
      requires Valid() && entry in all && IsLinked(entry.state)
      modifies entry`state, entry`knownSelected, entry`shortRetry, entry`known, newQueue
      ensures Valid() && entry.state == Registered && entry.known && entry.shortRetry == 5 && knownQueue.Order() == old(knownQueue.Order())
      ensures newQueue.Order() == if old(entry.known) then old(newQueue.Order()) else Without(old(newQueue.Order()), entry)
      ensures Now() == old(Now()).(states := old(States())[entry := Registered])
    {
      hide Conserved, Bounded, Stored, States, Flags, Removed, Queues, Selecting, From, Without;
      Enroll(entry);
      Promote(entry);
    }

    /** The registration request, after the handshake. */
    method Register(entry: PoolEntry)
      requires Valid() && entry in all && IsLinked(entry.state) && entry.node !in trusted
      modifies entry`state, entry`knownSelected, entry`shortRetry, entry`known, entry`queueIdx
      modifies this`entries, knownQueue, newQueue, all`removed, this`nodes, knownSelect, newSelect, nodes
      ensures Valid() && fresh(nodes - old(nodes)) && entry.state == Registered && entry.known && entry.shortRetry == 5
      ensures knownQueue.Order() == Accessed(old(knownQueue.Order()), entry, 1000)
      ensures newQueue.Order() == if old(entry.known) then old(newQueue.Order()) else Without(old(newQueue.Order()), entry)
      ensures Turn(trusted, old(Now()), RegisterRequest(entry), Now())
    {
      hide Valid, States, Flags, Removed, Turn, Shaped, Evicted, From, Accessed, Without;
      ghost var v := Now();
      ValidShaped();
      StateOf(entry);
      EnrollKnown(entry);
      ghost var u := Now();
      TouchKnown(entry);
      TurnRegister(trusted, v, entry, u, Now());
    }

    // ---------- offering and dialing ----------

    /** The first half of `updateCheckDial`: offers the entry by its current weights. */
    method UpdateWeights(entry: PoolEntry, weighing: Weighing, now: nat)
      requires Selecting() && entry in all
      modifies this`nodes, knownSelect, newSelect, nodes
      ensures Selecting() && fresh(nodes - old(nodes))
      ensures newSelect.idx.Keys
        == With(old(newSelect.idx.Keys), entry, entry.state == NotConnected && entry in FitNew() && weighing.discovered(now, entry) != 0)
      ensures knownSelect.idx.Keys
        == With(old(knownSelect.idx.Keys), entry, entry.state == NotConnected && entry in FitKnown() && weighing.known(now, entry) != 0)
      ensures newSelect.Weights() == Put(old(newSelect.Weights()), entry,
        if entry.state == NotConnected && entry in FitNew() then weighing.discovered(now, entry) else 0)
      ensures knownSelect.Weights() == Put(old(knownSelect.Weights()), entry,
        if entry.state == NotConnected && entry in FitKnown() then weighing.known(now, entry) else 0)
    {
      hide With, Put, WeightedRandomSelect.Valid, WeightedRandomSelect.Weights;
      SetWeights(entry,
        if entry.state != NotConnected || !entry.known || entry.delayedRetry then 0 else weighing.known(now, entry),
        if entry.state != NotConnected || entry.delayedRetry then 0 else weighing.discovered(now, entry));
    }

    /** `checkDial`, for an entry on offer. */
    method CheckDialOf(entry: PoolEntry, weighing: Weighing, now: nat)
      requires Conserved() && Bounded() && Stored() && Selecting() && entry in all
      modifies this`knownSelected, this`newSelected, all`state, all`knownSelected, all`dialed, this`nodes, knownSelect, newSelect, nodes
      ensures Conserved() && Bounded() && Selecting() && fresh(nodes - old(nodes))
      ensures Dials(old(States()), old(Flags()), States(), Flags(), FitKnown(), FitNew())
      ensures old(entry.state) == NotConnected && entry in old(newSelect.idx) && entry in FitNew() && !Fades(weighing.discovered, entry) ==>
        entry.state == Dialed || 5 <= knownSelected + newSelected
      ensures old(entry.state) == NotConnected && entry in old(knownSelect.idx) && entry in FitKnown() && !Fades(weighing.known, entry) ==>
        entry.state == Dialed || (if fastDiscover then 3 else 5) <= knownSelected
    {
      hide Conserved, Bounded, Stored, Selecting, States, Flags, FitKnown, FitNew, Dials, Filled, Fades;
      ghost var a := Offers();
      StateOf(entry);
      CheckDial(weighing, now);
      StateOf(entry);
      FilledDials(a, Offers(), FitKnown(), FitNew(), weighing);
      if a.states[entry] == NotConnected {
        FilledEntry(a, Offers(), entry, FitKnown(), FitNew(), weighing);
      }
    }

    method DialOffered(entry: PoolEntry, weighing: Weighing, now: nat)
      requires Valid() && entry in all
      modifies this`knownSelected, this`newSelected, all`state, all`knownSelected, all`dialed, this`nodes, knownSelect, newSelect, nodes
      ensures Valid() && fresh(nodes - old(nodes))
      ensures Dials(old(States()), old(Flags()), States(), Flags(), FitKnown(), FitNew())
      ensures Now() == old(Now()).(states := States(), flags := Flags()) && Shaped(Now())
      ensures old(entry.state) == NotConnected && entry in old(newSelect.idx) && entry in FitNew() && !Fades(weighing.discovered, entry) ==>
        entry.state == Dialed || 5 <= knownSelected + newSelected
      ensures old(entry.state) == NotConnected && entry in old(knownSelect.idx) && entry in FitKnown() && !Fades(weighing.known, entry) ==>
        entry.state == Dialed || (if fastDiscover then 3 else 5) <= knownSelected
    {
      hide Conserved, Bounded, Stored, Queues, Selecting, States, Flags, Removed, FitKnown, FitNew, Dials, Fades, Shaped;
      CheckDialOf(entry, weighing, now);
      NowShaped();
    }

    method OfferEntry(entry: PoolEntry, weighing: Weighing, now: nat)
      requires Valid() && entry in all
      modifies this`nodes, knownSelect, newSelect, nodes
      ensures Valid() && fresh(nodes - old(nodes))
      ensures entry.state == NotConnected && entry in FitNew() && weighing.discovered(now, entry) != 0 ==> entry in newSelect.idx
      ensures entry.state == NotConnected && entry in FitKnown() && weighing.known(now, entry) != 0 ==> entry in knownSelect.idx
    {
      hide Conserved, Bounded, Stored, Queues, Selecting, FitKnown, FitNew;
      UpdateWeights(entry, weighing, now);
    }

    /** `updateCheckDial`: the entry, if it can be dialed, is dialed unless the targets are met. */
    method UpdateCheckDial(entry: PoolEntry, weighing: Weighing, now: nat)
      requires Valid() && entry in all
      modifies this`knownSelected, this`newSelected, all`state, all`knownSelected, all`dialed, this`nodes, knownSelect, newSelect, nodes
      ensures Valid() && fresh(nodes - old(nodes))
      ensures Dials(old(States()), old(Flags()), States(), Flags(), FitKnown(), FitNew())
      ensures Now() == old(Now()).(states := States(), flags := Flags()) && Shaped(Now())
      ensures old(entry.state) == NotConnected && entry in FitNew() && !Fades(weighing.discovered, entry) ==>
        entry.state == Dialed || 5 <= knownSelected + newSelected
      ensures old(entry.state) == NotConnected && entry in FitKnown() && !Fades(weighing.known, entry) ==>
        entry.state == Dialed || (if fastDiscover then 3 else 5) <= knownSelected
    {
      hide Valid, States, Flags, Removed, FitKnown, FitNew, Dials, Fades, Shaped;
      NoFade(weighing.discovered, now, entry);
      NoFade(weighing.known, now, entry);
      OfferEntry(entry, weighing, now);
      DialOffered(entry, weighing, now);
    }

    /** The retry timer of an entry that was not evicted. */
    method RetryLive(entry: PoolEntry, weighing: Weighing, now: nat)
      requires Valid() && entry in all && !entry.removed
      modifies this`knownSelected, this`newSelected, all`state, all`knownSelected, all`dialed, entry`delayedRetry, this`nodes, knownSelect, newSelect, nodes
      ensures Valid() && fresh(nodes - old(nodes)) && !entry.delayedRetry
      ensures old(entry.state) == NotConnected && !Fades(weighing.discovered, entry) ==>
        entry.state == Dialed || 5 <= knownSelected + newSelected
      ensures Turn(trusted, old(Now()), EnableRetry(entry), Now())
    {
      hide Valid, States, Flags, Removed, Fades, Turn, Dials, Shaped, Evicted, FitKnown, FitNew;
      ghost var v := Now();
      ValidShaped();
      StateOf(entry);
      Undelay(entry);
      UpdateCheckDial(entry, weighing, now);
      TurnRetry(trusted, v, entry, Now(), FitKnown(), FitNew());
    }

    method Undelay(entry: PoolEntry)
      requires Valid() && entry in all
      modifies entry`delayedRetry
      ensures Valid() && !entry.delayedRetry && entry in FitNew()
    {
      hide Conserved, Bounded, Stored, Queues, Selecting;
      entry.delayedRetry := false;
    }

    /** The retry timer: ignored for an evicted entry. */
    method Retry(entry: PoolEntry, weighing: Weighing, now: nat)
      requires Valid() && entry in all
      modifies this`knownSelected, this`newSelected, all`state, all`knownSelected, all`dialed, entry`delayedRetry, this`nodes, knownSelect, newSelect, nodes
      ensures Valid() && fresh(nodes - old(nodes)) && entry.delayedRetry == (entry.removed && old(entry.delayedRetry))
      ensures entry.removed || old(entry.state) != NotConnected || Fades(weighing.discovered, entry)
        || entry.state == Dialed || 5 <= knownSelected + newSelected
      ensures Turn(trusted, old(Now()), EnableRetry(entry), Now())
    {
      hide Valid, States, Flags, Removed, Fades, Turn, Shaped, Evicted;
      if entry.removed {
        ValidShaped();
        StateOf(entry);
        TurnNone(trusted, Now(), EnableRetry(entry));
      } else {
        RetryLive(entry, weighing, now);
      }
    }

    /** A node found by discovery; trusted nodes are not the pool's business. */
    method Discover(node: nat, address: nat, weighing: Weighing, now: nat) returns (entry: PoolEntry?)
      requires Valid()
      modifies this`entries, this`all, this`knownSelected, this`newSelected, newQueue, all, this`nodes, knownSelect, newSelect, nodes
      ensures Valid() && fresh(nodes - old(nodes)) && fresh(all - old(all)) && old(all) <= all
      ensures entry == null <==> node in trusted
      ensures entry != null ==> entry in all && entry.node == node && address in entry.addresses
      ensures entry != null && entry in FitNew() && (entry in old(all) ==> old(entry.state) == NotConnected) ==>
        Fades(weighing.discovered, entry) || entry.state == Dialed || 5 <= knownSelected + newSelected
      ensures Turn(trusted, old(Now()), Discovered(node, address), Now())
    {
      hide Conserved, Bounded, Stored, Queues, Selecting, States, Flags, Removed, Fades, FitKnown, FitNew, Turn, Dials, From, Accessed;
      ghost var v := Now();
      entry := null;
      if node in trusted {
        NowShaped();
        TurnNone(trusted, v, Discovered(node, address));
      } else {
        entry := DiscoverNew(node, address, weighing, now);
      }
    }

    method DiscoverNew(node: nat, address: nat, weighing: Weighing, now: nat) returns (entry: PoolEntry)
      requires Valid() && node !in trusted
      modifies this`entries, this`all, this`knownSelected, this`newSelected, newQueue, all, this`nodes, knownSelect, newSelect, nodes
      ensures Valid() && fresh(nodes - old(nodes)) && fresh(all - old(all)) && old(all) <= all
      ensures entry in all && entry.node == node && address in entry.addresses
      ensures entry in FitNew() && (entry in old(all) ==> old(entry.state) == NotConnected) ==>
        Fades(weighing.discovered, entry) || entry.state == Dialed || 5 <= knownSelected + newSelected
      ensures Turn(trusted, old(Now()), Discovered(node, address), Now())
    {
      hide Valid, States, Flags, Removed, Fades, FitKnown, FitNew, Turn, Dials, Shaped, From, Accessed;
      ghost var v := Now();
      entry := FindOrNewNode(node, address);
      ghost var u := Now();
      StateOf(entry);
      UpdateCheckDial(entry, weighing, now);
      TurnDiscovered(trusted, v, u, Now(), node, address, entry, FitKnown(), FitNew());
    }

    // ---------- the loop ----------

    /** What callers and timers send: entries the pool made; registration and disconnection only of an
        entry whose connection was accepted. */
    predicate Legal(event: Event)
      reads this`all, all`state
    {
      match event
      case Timeout(e) => e in all
      case EnableRetry(e) => e in all
      case RegisterRequest(e) => e in all && IsLinked(e.state) && e.node !in trusted
      case DisconnectRequest(e) => e in all && IsLinked(e.state)
      case _ => true
    }

    /** An event that callers do not send changes nothing. */
    lemma Ignored(event: Event)
      requires Valid() && !Legal(event)
      ensures Turn(trusted, Now(), event, Now())
    {
      NowShaped();
      TurnNone(trusted, Now(), event);
    }

    method OnDisconnect(entry: PoolEntry)
      requires Valid() && entry in all && IsLinked(entry.state)
      modifies this`knownSelected, this`newSelected, this`connWg
      modifies entry`state, entry`knownSelected, entry`shortRetry, entry`delayedRetry
      ensures Valid() && Turn(trusted, old(Now()), DisconnectRequest(entry), Now())
    {
      hide Conserved, Bounded, Stored, Queues, Selecting, Now, Turn;
      Disconnect(entry);
    }

    /** The search for nodes has converged. */
    method OnConverged()
      requires Valid()
      modifies this`fastDiscover
      ensures Valid() && !fastDiscover && Turn(trusted, old(Now()), Converged, Now())
    {
      hide Conserved, Bounded, Queues, Selecting, States, Flags, Removed, Turn;
      NowShaped();
      TurnNone(trusted, Now(), Converged);
      fastDiscover := false;
    }

    /** One turn of the event loop. */
    method Step(event: Event, weighing: Weighing, now: nat)
      requires Valid() && Legal(event)
      modifies this, knownQueue, newQueue, all, knownSelect, newSelect, nodes
      ensures Valid() && fresh(nodes - old(nodes)) && fresh(all - old(all)) && old(all) <= all
      ensures undialedKnown == old(undialedKnown) + Bit(Undialed(trusted, old(Now()), event) == Some(true))
      ensures undialedNew == old(undialedNew) + Bit(Undialed(trusted, old(Now()), event) == Some(false))
      ensures fastDiscover == (old(fastDiscover) && event != Converged)
      ensures Turn(trusted, old(Now()), event, Now())
    {
      hide Valid, Now, Turn, From, Accessed, Without, Fades, FitNew;
      match event {
        case Timeout(e) => OnTimeout(e);
        case EnableRetry(e) => Retry(e, weighing, now);
        case Discovered(node, address) => var _ := Discover(node, address, weighing, now);
        case Converged => OnConverged();
        case ConnectRequest(node, address) => var _ := Connect(node, address);
        case RegisterRequest(e) => Register(e);
        case DisconnectRequest(e) => OnDisconnect(e);
      }
    }

    /** Every run of the event loop keeps the invariant, whatever arrives and whatever the weights are.  The
        views before, between and after the events make a trace, and the connections accepted from idle
        entries are those of the trace, flag by flag. */
    method Run(events: seq<Event>, weighing: nat -> Weighing) returns (ghost views: seq<View>)
      requires Valid()
      modifies this, knownQueue, newQueue, all, knownSelect, newSelect, nodes
      ensures Valid() && fresh(nodes - old(nodes)) && fresh(all - old(all)) && old(all) <= all
      ensures |views| == |events| + 1 && Trace(trusted, views, events) && views[0] == old(Now()) && views[|events|] == Now()
      ensures undialedKnown == old(undialedKnown) + Accepted(trusted, views, events, true)
      ensures undialedNew == old(undialedNew) + Accepted(trusted, views, events, false)
    {
      hide Valid, Now, Turn, Legal, Accepted, Trace;
      views := [Now()];
      NoTurns(trusted, views);
      for i := 0 to |events|
        invariant Valid() && fresh(nodes - old(nodes)) && fresh(all - old(all)) && old(all) <= all
        invariant |views| == i + 1 && views[0] == old(Now()) && views[i] == Now() && Trace(trusted, views, events[..i])
        invariant undialedKnown == old(undialedKnown) + Accepted(trusted, views, events[..i], true)
        invariant undialedNew == old(undialedNew) + Accepted(trusted, views, events[..i], false)
      {
        if Legal(events[i]) {
          Step(events[i], weighing(i), 0);
        } else {
          Ignored(events[i]);
          Unsent(events[i]);
        }
        TraceMore(trusted, views, events[..i], events[i], Now());
        AcceptedMore(trusted, views, events[..i], events[i], Now(), true);
        AcceptedMore(trusted, views, events[..i], events[i], Now(), false);
        views := views + [Now()];
        assert events[..i] + [events[i]] == events[..i + 1];
      }
      assert events[..|events|] == events;
    }

    lemma Unsent(event: Event)
      requires !Legal(event)
      ensures Undialed(trusted, Now(), event) == None
    {
    }

    /** The law of the counters, for every run of a new pool: each is the number of its busy entries less the
        connections accepted from idle entries with its flag; it is exact if and only if no event of the run met
        the branch that accepts such an entry; and both are within 0 and 5 if there was none of either kind. */
    method RunOfNew(events: seq<Event>, weighing: nat -> Weighing) returns (ghost views: seq<View>)
      requires Valid() && undialedKnown == undialedNew == 0
      modifies this, knownQueue, newQueue, all, knownSelect, newSelect, nodes
      ensures Valid() && Trace(trusted, views, events) && views[0] == old(Now()) && views[|events|] == Now()
      ensures knownSelected == |Busy(Now().states, Now().flags, true)| - Accepted(trusted, views, events, true)
      ensures newSelected == |Busy(Now().states, Now().flags, false)| - Accepted(trusted, views, events, false)
      ensures connWg == |Linked(Now().states)|
      ensures knownSelected == |Busy(Now().states, Now().flags, true)|
        <==> forall i :: 0 <= i < |events| ==> Undialed(trusted, views[i], events[i]) != Some(true)
      ensures newSelected == |Busy(Now().states, Now().flags, false)|
        <==> forall i :: 0 <= i < |events| ==> Undialed(trusted, views[i], events[i]) != Some(false)
      ensures (forall i :: 0 <= i < |events| ==> Undialed(trusted, views[i], events[i]) == None) ==>
        0 <= knownSelected <= 5 && 0 <= newSelected <= 5
    {
      hide Stored, Queues, Selecting, Busy, Linked, States, Flags, Trace, Undialed, Accepted;
      views := Run(events, weighing);
      AcceptedNoneIff(trusted, views, events, true);
      AcceptedNoneIff(trusted, views, events, false);
    }

    /** A dialed entry that is evicted keeps its place for good: in every further run it stays dialed, so the
        counters can never fall below the number of such entries less the undialed connections. */
    method RunStuck(events: seq<Event>, weighing: nat -> Weighing)
      requires Valid()
      modifies this, knownQueue, newQueue, all, knownSelect, newSelect, nodes
      ensures Valid() && Stuck(old(Now())) <= Stuck(Now())
      ensures |Stuck(old(Now()))| - undialedKnown - undialedNew <= knownSelected + newSelected
    {
      hide Queues, Selecting, Busy, Linked, States, Flags, Trace, Accepted, Stuck, Shaped;
      var views := Run(events, weighing);
      StuckForever(trusted, views, events, 0, |events|);
      SubsetSize(Stuck(views[0]), Stuck(Now()));
      NowShaped();
      StuckAreBusy(Now());
    }

    // ---------- saving and loading ----------

    /** `saveNodes`: the known nodes, least recently connected first. */
    method SaveNodes() returns (list: seq<nat>)
      requires Queued(knownQueue, true)
      modifies knownQueue
      ensures Queued(knownQueue, true) && knownQueue.Order() == [] && list == Nodes(old(knownQueue.Order()))
    {
      hide From;
      FromLength(knownQueue.queue, knownQueue.oldPtr, knownQueue.newPtr);
      ghost var order := knownQueue.Order();
      list := [];
      for i := 0 to |knownQueue.queue|
        invariant Queued(knownQueue, true)
        invariant i <= |order| && knownQueue.Order() == order[i..] && list == Nodes(order[..i])
      {
        var e := knownQueue.FetchOldest();
        list := list + [e.node];
      }
    }

    /** The remaining disconnections, in any order, until the wait group is empty. */
    method EndConnections()
      requires Conserved() && Bounded() && Stored()
      modifies this`knownSelected, this`newSelected, this`connWg
      modifies all`state, all`knownSelected, all`shortRetry, all`delayedRetry
      ensures Conserved() && Bounded() && Stored() && connWg == 0 && Linked(States()) == {}
    {
      hide Turn, Shaped;
      while connWg > 0
        invariant Conserved() && Bounded() && Stored()
      {
        var entry :| entry in all && IsLinked(entry.state);
        Disconnect(entry);
      }
    }

    lemma QueueBounds(q: PoolEntryQueue, known: bool)
      requires Queued(q, known)
      ensures |q.Order()| <= q.maxCnt && forall n :: n in Nodes(q.Order()) ==> n !in trusted
      ensures forall e :: e in q.Order() ==> e in all
    {
      hide From;
      FromLength(q.queue, q.oldPtr, q.newPtr);
      forall i | 0 <= i < |q.Order()|
        ensures q.Order()[i].node !in trusted && q.Order()[i] in all
      {
        OrderedStored(q, known, q.Order()[i]);
      }
    }

    /** The quit branch: every live connection is ended, then the known nodes are saved. */
    method Quit() returns (list: seq<nat>)
      requires Valid()
      modifies this`knownSelected, this`newSelected, this`connWg, knownQueue
      modifies all`state, all`knownSelected, all`shortRetry, all`delayedRetry
      ensures Valid() && connWg == 0 && Linked(States()) == {}
      ensures list == Nodes(old(knownQueue.Order())) && |list| <= 1000 && forall n :: n in list ==> n !in trusted
    {
      hide From, Conserved, Stored, Selecting, Queued, States, Linked;
      EndConnections();
      QueueBounds(knownQueue, true);
      list := SaveNodes();
    }

    /** A loaded entry enters the known queue and the selection set. */
    method EnterKnown(entry: PoolEntry, weight: nat)
      requires Valid() && entry in all && entry.known && entry.node !in trusted && entry !in knownQueue.Order()
      modifies this`entries, knownQueue, entry`queueIdx, all`removed
      modifies this`nodes, knownSelect, newSelect, nodes
      ensures Valid() && fresh(nodes - old(nodes))
      ensures Nodes(knownQueue.Order()) == Last(Nodes(old(knownQueue.Order())) + [entry.node], 1000)
      ensures entry in knownSelect.idx <==> weight != 0
      ensures knownSelect.Valid() && (weight != 0 ==> entry in knownSelect.Weights() && knownSelect.Weights()[entry] == weight)
    {
      hide Valid, WeightedRandomSelect.Valid, WeightedRandomSelect.Weights, From, Accessed, Nodes, Last, With;
      KnownBounds();
      AddedNodes(knownQueue.Order(), entry, MAX_ENTRIES);
      TouchKnown(entry);
      OfferKnown(entry, weight);
    }

    /** Offers a loaded entry for selection. */
    method OfferKnown(entry: PoolEntry, weight: nat)
      requires Valid()
      modifies this`nodes, knownSelect, newSelect, nodes
      ensures Valid() && fresh(nodes - old(nodes)) && (entry in knownSelect.idx <==> weight != 0)
      ensures knownSelect.Valid() && knownSelect.Weights() == Put(old(knownSelect.Weights()), entry, weight)
    {
      hide Conserved, Bounded, Stored, Queues, WeightedRandomSelect.Valid, WeightedRandomSelect.Weights, Put;
      SetKnown(entry, weight);
    }

    lemma ValidSelect()
      requires Valid()
      ensures knownSelect.Valid()
    {
    }

    lemma KnownBounds()
      requires Valid()
      ensures |knownQueue.Order()| <= 1000 && forall e :: e in knownQueue.Order() ==> e in all
    {
      hide Conserved, Bounded, Stored, Selecting, From;
      QueueBounds(knownQueue, true);
    }

    /** `loadNodes` of one saved entry. */
    method LoadNode(node: nat, address: nat, weighing: Weighing, now: nat) returns (entry: PoolEntry)
      requires Valid()
      modifies this`entries, this`all, knownQueue, all`queueIdx, all`removed
      modifies this`nodes, knownSelect, newSelect, nodes
      ensures Valid() && fresh(all - old(all)) && old(all) <= all
      ensures fresh(nodes - old(nodes))
      ensures var was := Nodes(old(knownQueue.Order()));
        Nodes(knownQueue.Order()) == if node in trusted then was else Last(was + [node], 1000)
      ensures entry in all && entry.node == node && entry.known && entry.state == NotConnected
      ensures knownSelect.Valid()
      ensures node !in trusted && 0 < weighing.known(now, entry) ==>
        entry in knownSelect.idx && entry in knownSelect.Weights() && knownSelect.Weights()[entry] == weighing.known(now, entry)
    {
      hide Valid, WeightedRandomSelect.Valid, WeightedRandomSelect.Weights, From, Nodes, Last;
      ValidSelect();
      KnownBounds();
      entry := AddEntry(node, true, address);
      if node !in trusted {
        EnterKnown(entry, weighing.known(now, entry));
      }
    }

    /** `loadNodes`: the untrusted nodes of the list, the last thousand of them, in the order of the list. */
    method LoadNodes(list: seq<nat>, addressOf: nat -> nat, weighing: Weighing)
      requires Valid() && knownQueue.Order() == []
      modifies this`entries, this`all, knownQueue, all`queueIdx, all`removed
      modifies this`nodes, knownSelect, newSelect, nodes
      ensures Valid() && fresh(all - old(all)) && old(all) <= all
      ensures fresh(nodes - old(nodes))
      ensures Nodes(knownQueue.Order()) == Last(Untrusted(list, trusted), 1000)
    {
      hide Valid, From, Nodes, Last, Untrusted;
      NoneLoaded(trusted, MAX_ENTRIES);
      for i := 0 to |list|
        invariant Valid() && fresh(all - old(all)) && old(all) <= all
        invariant fresh(nodes - old(nodes))
        invariant Nodes(knownQueue.Order()) == Last(Untrusted(list[..i], trusted), MAX_ENTRIES)
      {
        LoadedMore(list, i, trusted, MAX_ENTRIES);
        var _ := LoadNode(list[i], addressOf(list[i]), weighing, i);
      }
      assert list[..|list|] == list;
    }
  }

  /** Saving the nodes and loading them into a new pool restores the order of the known queue. */
  method Restart(pool: ServerPool, addressOf: nat -> nat, weighing: Weighing) returns (next: ServerPool)
    requires pool.Valid()
    modifies pool, pool.knownQueue, pool.all
    ensures next.Valid() && fresh(next)
    ensures Nodes(next.knownQueue.Order()) == Nodes(old(pool.knownQueue.Order()))
    ensures next.knownSelected == next.newSelected == next.connWg == 0
  {
    hide ServerPool.Valid, From, Nodes;
    var list := pool.Quit();
    AllUntrusted(list, pool.trusted);
    next := new ServerPool(pool.trusted);
    next.LoadNodes(list, addressOf, weighing);
  }

  /** A connection the pool did not dial costs it a place when it ends: the counter drops below zero. */
  method UndialedLosesPlace(node: nat) returns (pool: ServerPool)
    ensures pool.Conserved() && pool.newSelected == -1 && pool.connWg == 0
  {
    hide From, Turn, ServerPool.Conserved, ServerPool.Stored, ServerPool.Queues, ServerPool.Selecting;
    pool := new ServerPool({});
    var entry := pool.Connect(node, 0);
    pool.Disconnect(entry);
  }
}
