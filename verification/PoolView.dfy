/** What can be seen of the server pool between two turns of its loop (`gossip/serverpool.go`): the table, and
    the connection state and the selection flag of every entry ever made.  Runs of the loop are sequences
    of such views. */
module PoolView {
  import opened Options
  import opened PoolQueue
  import opened WeightedChance

  /** What the pool's loop receives. */
  datatype Event =
    | Timeout(entry: PoolEntry)
    | EnableRetry(entry: PoolEntry)
    | Discovered(node: nat, address: nat)
    | Converged
    | ConnectRequest(node: nat, address: nat)
    | RegisterRequest(entry: PoolEntry)
    | DisconnectRequest(entry: PoolEntry)

  type StateMap = map<PoolEntry, ConnState>
  type FlagMap = map<PoolEntry, bool>

  datatype View = View(table: map<nat, PoolEntry>, states: StateMap, flags: FlagMap, removed: set<PoolEntry>)

  predicate IsLinked(state: ConnState) {
    state == Connected || state == Registered
  }

  function Bit(b: bool): nat {
    if b then 1 else 0
  }

  // ---------- counting entries ----------

  /** Entries that are not idle and were last selected as known, or as new. */
  ghost function Busy(states: StateMap, flags: FlagMap, known: bool): set<PoolEntry> {
    set e | e in states && e in flags && states[e] != NotConnected && flags[e] == known
  }

  /** Entries with a live connection. */
  ghost function Linked(states: StateMap): set<PoolEntry> {
    set e | e in states && IsLinked(states[e])
  }

  ghost function With<T>(s: set<T>, x: T, inside: bool): set<T> {
    if inside then s + {x} else s - {x}
  }

  lemma Resized<T>(s: set<T>, x: T, inside: bool)
    ensures |With(s, x, inside)| == |s| + Bit(inside) - Bit(x in s)
  {
  }

  /** How moving one entry to another state changes the counts; its flag may change only while it is idle. */
  lemma Recounted(states: StateMap, flags: FlagMap, e: PoolEntry, state: ConnState, known: bool)
    requires e in states && e in flags && (known == flags[e] || states[e] == NotConnected)
    ensures var states', flags' := states[e := state], flags[e := known];
      && |Busy(states', flags', known)| == |Busy(states, flags, known)| + Bit(state != NotConnected) - Bit(states[e] != NotConnected)
      && |Busy(states', flags', !known)| == |Busy(states, flags, !known)|
      && |Linked(states')| == |Linked(states)| + Bit(IsLinked(state)) - Bit(IsLinked(states[e]))
  {
    hide With;
    Resized(Busy(states, flags, known), e, state != NotConnected);
    Resized(Linked(states), e, IsLinked(state));
    Moved(states, flags, e, state, known);
  }

  lemma Moved(states: StateMap, flags: FlagMap, e: PoolEntry, state: ConnState, known: bool)
    requires e in states && e in flags && (known == flags[e] || states[e] == NotConnected)
    ensures var states', flags' := states[e := state], flags[e := known];
      && Busy(states', flags', known) == With(Busy(states, flags, known), e, state != NotConnected)
      && Busy(states', flags', !known) == Busy(states, flags, !known)
      && Linked(states') == With(Linked(states), e, IsLinked(state))
  {
  }

  /** A new entry is idle. */
  lemma IdleCounts(states: StateMap, flags: FlagMap, e: PoolEntry)
    requires e !in states
    ensures var states', flags' := states[e := NotConnected], flags[e := false];
      && Busy(states', flags', true) == Busy(states, flags, true) && Busy(states', flags', false) == Busy(states, flags, false)
      && Linked(states') == Linked(states)
  {
  }

  // ---------- dialing ----------

  /** Some idle entries of the given sets were dialed, as known and as new; nothing else changed. */
  ghost predicate Dials(s0: StateMap, f0: FlagMap, s1: StateMap, f1: FlagMap, known: set<PoolEntry>, discovered: set<PoolEntry>) {
    && s0.Keys == s1.Keys == f0.Keys == f1.Keys
    && forall e :: e in s0 ==>
         || (s1[e] == s0[e] && f1[e] == f0[e])
         || (s0[e] == NotConnected && s1[e] == Dialed && e in (if f1[e] then known else discovered))
  }

  type Weights = (nat, PoolEntry) -> nat

  /** The entry's weight falls to zero at some question. */
  ghost predicate Fades(weights: Weights, e: PoolEntry) {
    exists t: nat :: weights(t, e) == 0
  }

  /** An idle entry on offer that may be dialed, and whose weight does not fade, is still on offer or dialed. */
  ghost predicate Spared(offer0: set<PoolEntry>, s0: StateMap, offer1: set<PoolEntry>, s1: StateMap, fit: set<PoolEntry>, weights: Weights) {
    forall e :: e in offer0 && e in fit && e in s0 && s0[e] == NotConnected && !Fades(weights, e) ==>
      e in offer1 || (e in s1 && s1[e] == Dialed)
  }

  /** What dialing reads and writes: states and flags, and the entries on offer as known and as discovered. */
  datatype Offer = Offer(states: StateMap, flags: FlagMap, known: set<PoolEntry>, discovered: set<PoolEntry>)

  /** The weights entries report at a question, when they report any: as known and as discovered; by how
      much the weight of an address exceeds one; and the random draws. */
  datatype Weighing = Weighing(known: Weights, discovered: Weights, address: (nat, nat) -> nat, draws: Draws)

  /** Some rounds of dialing. */
  ghost predicate Filled(a: Offer, b: Offer, known: set<PoolEntry>, discovered: set<PoolEntry>, weighing: Weighing) {
    && Dials(a.states, a.flags, b.states, b.flags, known, discovered)
    && Spared(a.known, a.states, b.known, b.states, known, weighing.known)
    && Spared(a.discovered, a.states, b.discovered, b.states, discovered, weighing.discovered)
  }

  lemma FilledNone(a: Offer, known: set<PoolEntry>, discovered: set<PoolEntry>, weighing: Weighing)
    requires a.states.Keys == a.flags.Keys
    ensures Filled(a, a, known, discovered, weighing)
  {
  }

  lemma DialsMore(s0: StateMap, f0: FlagMap, s1: StateMap, f1: FlagMap, s2: StateMap, f2: FlagMap,
                  known: set<PoolEntry>, discovered: set<PoolEntry>)
    requires Dials(s0, f0, s1, f1, known, discovered) && Dials(s1, f1, s2, f2, known, discovered)
    ensures Dials(s0, f0, s2, f2, known, discovered)
  {
  }

  /** An idle entry stays idle or is dialed, and a dialed one stays dialed. */
  lemma DialsState(s0: StateMap, f0: FlagMap, s1: StateMap, f1: FlagMap, known: set<PoolEntry>, discovered: set<PoolEntry>, e: PoolEntry)
    requires Dials(s0, f0, s1, f1, known, discovered) && e in s0 && (s0[e] == NotConnected || s0[e] == Dialed)
    ensures e in s1 && (s1[e] == Dialed || (s0[e] == NotConnected && s1[e] == NotConnected))
  {
  }

  lemma SparedMore(o0: set<PoolEntry>, s0: StateMap, f0: FlagMap, o1: set<PoolEntry>, s1: StateMap, f1: FlagMap,
                   o2: set<PoolEntry>, s2: StateMap, f2: FlagMap,
                   fit: set<PoolEntry>, weights: Weights, known: set<PoolEntry>, discovered: set<PoolEntry>)
    requires Dials(s0, f0, s1, f1, known, discovered) && Dials(s1, f1, s2, f2, known, discovered)
    requires Spared(o0, s0, o1, s1, fit, weights) && Spared(o1, s1, o2, s2, fit, weights)
    ensures Spared(o0, s0, o2, s2, fit, weights)
  {
    hide Dials, Fades;
    forall e | e in o0 && e in fit && e in s0 && s0[e] == NotConnected && !Fades(weights, e)
      ensures e in o2 || (e in s2 && s2[e] == Dialed)
    {
      DialsState(s0, f0, s1, f1, known, discovered, e);
      DialsState(s1, f1, s2, f2, known, discovered, e);
    }
  }

  lemma FilledMore(a: Offer, b: Offer, c: Offer, known: set<PoolEntry>, discovered: set<PoolEntry>, weighing: Weighing)
    requires Filled(a, b, known, discovered, weighing) && Filled(b, c, known, discovered, weighing)
    ensures Filled(a, c, known, discovered, weighing)
  {
    hide Dials, Spared;
    DialsMore(a.states, a.flags, b.states, b.flags, c.states, c.flags, known, discovered);
    SparedMore(a.known, a.states, a.flags, b.known, b.states, b.flags, c.known, c.states, c.flags, known, weighing.known, known, discovered);
    SparedMore(a.discovered, a.states, a.flags, b.discovered, b.states, b.flags, c.discovered, c.states, c.flags,
      discovered, weighing.discovered, known, discovered);
  }

  lemma FilledDials(a: Offer, b: Offer, known: set<PoolEntry>, discovered: set<PoolEntry>, weighing: Weighing)
    requires Filled(a, b, known, discovered, weighing)
    ensures Dials(a.states, a.flags, b.states, b.flags, known, discovered)
  {
  }

  /** What becomes of an idle entry that is on offer. */
  lemma FilledEntry(a: Offer, b: Offer, e: PoolEntry, known: set<PoolEntry>, discovered: set<PoolEntry>, weighing: Weighing)
    requires Filled(a, b, known, discovered, weighing) && e in a.states && a.states[e] == NotConnected
    ensures e in b.states
    ensures e in a.known && e in known && !Fades(weighing.known, e) ==> e in b.known || b.states[e] == Dialed
    ensures e in a.discovered && e in discovered && !Fades(weighing.discovered, e) ==> e in b.discovered || b.states[e] == Dialed
  {
    hide Fades;
  }

  /** A choice that takes no ready entry off one of the offers. */
  lemma FilledChoice(a: Offer, b: Offer, ready: set<PoolEntry>, flag: bool, known: set<PoolEntry>, discovered: set<PoolEntry>, weighing: Weighing)
    requires a.states.Keys == a.flags.Keys && b.states == a.states && b.flags == a.flags
    requires if flag then b.discovered == a.discovered else b.known == a.known
    requires forall e :: e in (if flag then known else discovered) && e in a.states && a.states[e] == NotConnected ==> e in ready
    requires forall e :: e in (if flag then a.known else a.discovered) && e in ready ==>
      Fades(if flag then weighing.known else weighing.discovered, e) || e in (if flag then b.known else b.discovered)
    ensures Filled(a, b, known, discovered, weighing)
  {
    hide Fades;
  }

  /** A choice that takes no fit entry off the offer, and dialing one entry. */
  lemma FilledOne(a: Offer, b: Offer, e: PoolEntry, flag: bool, known: set<PoolEntry>, discovered: set<PoolEntry>, weighing: Weighing)
    requires Filled(a, b, known, discovered, weighing) && b.states == a.states && b.flags == a.flags
    requires e in a.states && a.states[e] == NotConnected && e in (if flag then known else discovered)
    ensures Filled(a, b.(states := b.states[e := Dialed], flags := b.flags[e := flag]), known, discovered, weighing)
  {
    hide Fades;
  }

  // ---------- one turn of the loop ----------

  /** The flag of the idle entry that the event connects, if it does. */
  function Undialed(trusted: set<nat>, v: View, event: Event): Option<bool> {
    if !event.ConnectRequest? || event.node in trusted then None
    else if event.node !in v.table then Some(false)
    else
      var e := v.table[event.node];
      if e in v.states && e in v.flags && v.states[e] == NotConnected then Some(v.flags[e]) else None
  }

  /** The entry that the event itself moves, and its new state. */
  function Subject(trusted: set<nat>, v: View, event: Event): Option<(PoolEntry, ConnState)> {
    match event
    case Timeout(e) =>
      if e in v.states && e !in v.removed && v.states[e] == Dialed then Some((e, NotConnected)) else None
    case RegisterRequest(e) =>
      if e in v.states && IsLinked(v.states[e]) && e.node !in trusted then Some((e, Registered)) else None
    case DisconnectRequest(e) =>
      if e in v.states && IsLinked(v.states[e]) then Some((e, NotConnected)) else None
    case ConnectRequest(node, _) =>
      if node !in trusted && node in v.table && v.table[node] in v.states && !IsLinked(v.states[v.table[node]])
      then Some((v.table[node], Connected)) else None
    case _ => None
  }

  /** The event may lead to dialing. */
  predicate MayDial(trusted: set<nat>, v: View, event: Event) {
    || (event.EnableRetry? && event.entry in v.states && event.entry !in v.removed)
    || (event.Discovered? && event.node !in trusted)
  }

  /** The event makes an entry for a node that has none. */
  predicate Adds(trusted: set<nat>, v: View, event: Event) {
    (event.Discovered? || event.ConnectRequest?) && event.node !in trusted && event.node !in v.table
  }

  /** The event may move an entry in a queue, and so evict another. */
  predicate MayEvict(event: Event) {
    event.Discovered? || event.ConnectRequest? || event.RegisterRequest?
  }

  /** What becomes of an entry that was there before. */
  ghost predicate Fate(trusted: set<nat>, v: View, event: Event, w: View, e: PoolEntry)
    requires e in v.states && e in v.flags && e in w.states && e in w.flags
  {
    match Subject(trusted, v, event)
    case Some((subject, state)) => w.flags[e] == v.flags[e] && w.states[e] == if e == subject then state else v.states[e]
    case None =>
      || (w.states[e] == v.states[e] && w.flags[e] == v.flags[e])
      || (MayDial(trusted, v, event) && v.states[e] == NotConnected && w.states[e] == Dialed)
  }

  /** What a new entry is. */
  ghost predicate Newcomer(event: Event, w: View, e: PoolEntry) {
    && e in w.states && e in w.flags
    && (event.ConnectRequest? ==> w.states[e] == Connected && !w.flags[e])
    && (event.Discovered? ==> w.states[e] == NotConnected || w.states[e] == Dialed)
  }

  /** The tables belong together: an entry in the table is known and was not evicted. */
  ghost predicate Shaped(v: View) {
    && v.flags.Keys == v.states.Keys && v.removed <= v.states.Keys
    && forall n :: n in v.table ==> v.table[n] in v.states && v.table[n] !in v.removed
  }

  ghost predicate Fates(trusted: set<nat>, v: View, event: Event, w: View) {
    && v.flags.Keys == v.states.Keys <= w.states.Keys == w.flags.Keys
    && forall e :: e in v.states ==> Fate(trusted, v, event, w, e)
  }

  ghost predicate OneMore(a: set<PoolEntry>, b: set<PoolEntry>) {
    exists e :: e in b && e !in a && b == a + {e}
  }

  ghost predicate Newcomers(trusted: set<nat>, v: View, event: Event, w: View) {
    && (if Adds(trusted, v, event) then OneMore(v.states.Keys, w.states.Keys) else w.states.Keys == v.states.Keys)
    && forall e :: e in w.states && e !in v.states ==> Newcomer(event, w, e)
  }

  ghost predicate Tabled(trusted: set<nat>, v: View, event: Event, w: View) {
    && v.removed <= w.removed
    && (forall n :: n in w.table ==> if n in v.table then w.table[n] == v.table[n] else Adds(trusted, v, event) && n == event.node)
    && (!MayEvict(event) ==> w.table == v.table && w.removed == v.removed)
  }

  /** One turn of the loop, seen from outside. */
  ghost predicate Turn(trusted: set<nat>, v: View, event: Event, w: View) {
    Shaped(v) && Shaped(w) && Fates(trusted, v, event, w) && Newcomers(trusted, v, event, w) && Tabled(trusted, v, event, w)
  }

  /** Entries left the table, at most. */
  ghost predicate Evicted(v: View, w: View) {
    && Shaped(v) && Shaped(w) && w.states == v.states && w.flags == v.flags && v.removed <= w.removed
    && forall n :: n in w.table ==> n in v.table && w.table[n] == v.table[n]
  }

  lemma TurnNone(trusted: set<nat>, v: View, event: Event)
    requires Shaped(v) && Subject(trusted, v, event).None? && !Adds(trusted, v, event)
    ensures Turn(trusted, v, event, v)
  {
  }

  /** The event moves its subject; others may be evicted. */
  lemma TurnSubject(trusted: set<nat>, v: View, event: Event, u: View, w: View)
    requires Subject(trusted, v, event).Some? && Shaped(w) && Evicted(v, u) && (MayEvict(event) || u == v)
    requires var (e, s) := Subject(trusted, v, event).value;
      w == u.(states := u.states[e := s])
    ensures Turn(trusted, v, event, w)
  {
    var (e, s) := Subject(trusted, v, event).value;
    assert w.states.Keys == v.states.Keys;
  }

  lemma TurnRegister(trusted: set<nat>, v: View, e: PoolEntry, u: View, w: View)
    requires Subject(trusted, v, RegisterRequest(e)) == Some((e, Registered)) && Shaped(v)
    requires u == v.(states := v.states[e := Registered]) && Evicted(u, w)
    ensures Turn(trusted, v, RegisterRequest(e), w)
  {
    var u' := w.(states := v.states);
    assert u.states.Keys == v.states.Keys;
    TurnSubject(trusted, v, RegisterRequest(e), u', w);
  }

  lemma TurnRetry(trusted: set<nat>, v: View, e: PoolEntry, w: View, known: set<PoolEntry>, discovered: set<PoolEntry>)
    requires Shaped(v) && Shaped(w) && e in v.states && e !in v.removed
    requires w == v.(states := w.states, flags := w.flags) && Dials(v.states, v.flags, w.states, w.flags, known, discovered)
    ensures Turn(trusted, v, EnableRetry(e), w)
  {
  }

  /** The entry of a node, new if there was none; others may have been evicted. */
  ghost predicate Found(v: View, w: View, node: nat, e: PoolEntry) {
    && Shaped(v) && Shaped(w) && v.removed <= w.removed && e in w.states
    && (if node in v.table then e == v.table[node] && w.states == v.states && w.flags == v.flags
        else e !in v.states && w.states == v.states[e := NotConnected] && w.flags == v.flags[e := false])
    && forall n :: n in w.table ==> if n in v.table then w.table[n] == v.table[n] else n == node
  }

  lemma FoundEvicted(v: View, u: View, w: View, node: nat, e: PoolEntry)
    requires Found(v, u, node, e) && Evicted(u, w)
    ensures Found(v, w, node, e)
  {
  }

  lemma TurnDiscovered(trusted: set<nat>, v: View, u: View, w: View, node: nat, address: nat, e: PoolEntry,
                       known: set<PoolEntry>, discovered: set<PoolEntry>)
    requires node !in trusted && Found(v, u, node, e) && Shaped(w)
    requires w == u.(states := w.states, flags := w.flags) && Dials(u.states, u.flags, w.states, w.flags, known, discovered)
    ensures Turn(trusted, v, Discovered(node, address), w)
  {
    hide Fates, Newcomers, OneMore, Shaped;
    DiscoveredFates(trusted, v, u, w, node, address, e, known, discovered);
    DiscoveredNewcomers(trusted, v, u, w, node, address, e, known, discovered);
  }

  lemma DiscoveredFates(trusted: set<nat>, v: View, u: View, w: View, node: nat, address: nat, e: PoolEntry,
                        known: set<PoolEntry>, discovered: set<PoolEntry>)
    requires node !in trusted && Found(v, u, node, e)
    requires Dials(u.states, u.flags, w.states, w.flags, known, discovered)
    ensures Fates(trusted, v, Discovered(node, address), w)
  {
    assert forall x :: x in v.states ==> x in u.states && u.states[x] == v.states[x] && u.flags[x] == v.flags[x];
  }

  lemma DiscoveredNewcomers(trusted: set<nat>, v: View, u: View, w: View, node: nat, address: nat, e: PoolEntry,
                            known: set<PoolEntry>, discovered: set<PoolEntry>)
    requires node !in trusted && Found(v, u, node, e)
    requires Dials(u.states, u.flags, w.states, w.flags, known, discovered)
    ensures Newcomers(trusted, v, Discovered(node, address), w)
  {
    if node !in v.table {
      assert w.states.Keys == v.states.Keys + {e} && u.states[e] == NotConnected;
    }
  }

  lemma TurnNewConnection(trusted: set<nat>, v: View, u: View, w: View, node: nat, address: nat, e: PoolEntry)
    requires node !in trusted && node !in v.table && Found(v, u, node, e) && Shaped(w)
    requires w == u.(states := u.states[e := Connected])
    ensures Turn(trusted, v, ConnectRequest(node, address), w)
  {
    assert w.states == v.states[e := Connected] && w.states.Keys == v.states.Keys + {e};
    hide Shaped;
    assert Newcomers(trusted, v, ConnectRequest(node, address), w);
    hide Newcomers, OneMore;
  }

  // ---------- runs ----------

  ghost predicate Trace(trusted: set<nat>, views: seq<View>, events: seq<Event>) {
    && |views| == |events| + 1
    && forall i {:trigger events[i]} :: 0 <= i < |events| ==> Turn(trusted, views[i], events[i], views[i + 1])
  }

  lemma NoTurns(trusted: set<nat>, views: seq<View>)
    requires |views| == 1
    ensures Trace(trusted, views, []) && Accepted(trusted, views, [], true) == Accepted(trusted, views, [], false) == 0
  {
  }

  lemma TraceMore(trusted: set<nat>, views: seq<View>, events: seq<Event>, event: Event, w: View)
    requires Trace(trusted, views, events) && Turn(trusted, views[|events|], event, w)
    ensures Trace(trusted, views + [w], events + [event])
  {
    hide Turn;
    var vs, es := views + [w], events + [event];
    forall i {:trigger es[i]} | 0 <= i < |es|
      ensures Turn(trusted, vs[i], es[i], vs[i + 1])
    {
      if i < |events| {
        assert es[i] == events[i] && vs[i] == views[i] && vs[i + 1] == views[i + 1];
      }
    }
  }

  /** How many idle entries with a flag the run connected. */
  ghost function Accepted(trusted: set<nat>, views: seq<View>, events: seq<Event>, known: bool): nat
    requires |events| <= |views|
    decreases |events|
  {
    if events == [] then 0
    else
      var n := |events| - 1;
      Accepted(trusted, views, events[..n], known) + Bit(Undialed(trusted, views[n], events[n]) == Some(known))
  }

  lemma AcceptedMore(trusted: set<nat>, views: seq<View>, events: seq<Event>, event: Event, w: View, known: bool)
    requires |views| == |events| + 1
    ensures Accepted(trusted, views + [w], events + [event], known)
      == Accepted(trusted, views, events, known) + Bit(Undialed(trusted, views[|events|], event) == Some(known))
  {
    assert (events + [event])[..|events|] == events;
    AcceptedSame(trusted, views, views + [w], events, known);
  }

  lemma {:induction false} AcceptedSame(trusted: set<nat>, views: seq<View>, more: seq<View>, events: seq<Event>, known: bool)
    requires |events| <= |views| <= |more| && forall i :: 0 <= i < |events| ==> more[i] == views[i]
    ensures Accepted(trusted, more, events, known) == Accepted(trusted, views, events, known)
    decreases |events|
  {
    if events == [] {
    } else {
      AcceptedSame(trusted, views, more, events[..|events| - 1], known);
    }
  }

  /** None was connected if and only if no event met the branch that accepts an idle entry with the flag. */
  lemma {:induction false} AcceptedNoneIff(trusted: set<nat>, views: seq<View>, events: seq<Event>, known: bool)
    requires |events| <= |views|
    ensures Accepted(trusted, views, events, known) == 0
      <==> forall i :: 0 <= i < |events| ==> Undialed(trusted, views[i], events[i]) != Some(known)
    decreases |events|
  {
    hide Undialed;
    if events == [] {
    } else {
      var n := |events| - 1;
      AcceptedNoneIff(trusted, views, events[..n], known);
      assert forall i :: 0 <= i < n ==> events[..n][i] == events[i];
    }
  }

  // ---------- places lost for good ----------

  /** Entries that were evicted while they were dialed. */
  ghost function Stuck(v: View): set<PoolEntry> {
    set e | e in v.removed && e in v.states && v.states[e] == Dialed
  }

  lemma TurnStuck(trusted: set<nat>, v: View, event: Event, w: View, e: PoolEntry)
    requires Turn(trusted, v, event, w) && e in Stuck(v)
    ensures e in Stuck(w) && w.flags[e] == v.flags[e]
  {
    assert Fate(trusted, v, event, w, e);
  }

  /** No event ever frees the place of such an entry: neither a timeout nor a connection reaches it. */
  lemma {:induction false} StuckForever(trusted: set<nat>, views: seq<View>, events: seq<Event>, i: nat, j: nat)
    requires Trace(trusted, views, events) && i <= j < |views|
    ensures Stuck(views[i]) <= Stuck(views[j])
    decreases j - i
  {
    hide Turn, Stuck;
    if i == j {
    } else {
      StuckForever(trusted, views, events, i, j - 1);
      assert Turn(trusted, views[j - 1], events[j - 1], views[j]);
      forall e | e in Stuck(views[j - 1])
        ensures e in Stuck(views[j])
      {
        TurnStuck(trusted, views[j - 1], events[j - 1], views[j], e);
      }
    }
  }

  lemma {:induction false} SubsetSize<T>(a: set<T>, b: set<T>)
    requires a <= b
    ensures |a| <= |b|
  {
    if a == {} {
    } else {
      var x :| x in a;
      SubsetSize(a - {x}, b - {x});
    }
  }

  /** They count as busy. */
  lemma StuckAreBusy(v: View)
    requires Shaped(v)
    ensures |Stuck(v)| <= |Busy(v.states, v.flags, true)| + |Busy(v.states, v.flags, false)|
  {
    var a, b := Busy(v.states, v.flags, true), Busy(v.states, v.flags, false);
    assert Stuck(v) <= a + b;
    SubsetSize(Stuck(v), a + b);
    assert |a + b| == |a| + |b| - |a * b| && a * b == {};
  }
}
