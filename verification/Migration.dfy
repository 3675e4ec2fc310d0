/** Model of `utils/migration/migration.go`: a chain of migration steps, run from the step that an
    ID store remembers.  Whether an attempt of a step succeeds is decided by an arbitrary oracle. */
module Migration {

  datatype Migration = Begin(name: string) | Next(name: string, prev: Migration)

  /** One execution of a step. */
  datatype Attempt = Attempt(name: string, ok: bool)

  datatype Outcome = Done | UnknownVersion | Failed(name: string)

  /** The steps of the chain, first to last. */
  function Names(m: Migration): seq<string> {
    match m
    case Begin(_) => []
    case Next(name, prev) => Names(prev) + [name]
  }

  /** The name the chain begins with. */
  function Base(m: Migration): string {
    match m
    case Begin(name) => name
    case Next(_, prev) => Base(prev)
  }

  /** `IDs`. */
  function IDs(m: Migration, id: string -> string): (r: seq<string>)
    ensures |r| == |Names(m)| + 1 && r[0] == id(Base(m)) && forall i :: 0 <= i < |Names(m)| ==> r[i + 1] == id(Names(m)[i])
  {
    match m
    case Begin(name) => [id(name)]
    case Next(name, prev) => IDs(prev, id) + [id(name)]
  }

  /** The IDs of the steps differ from each other and from the empty string. */
  ghost predicate Distinct(names: seq<string>, id: string -> string) {
    && (forall i :: 0 <= i < |names| ==> id(names[i]) != "")
    && (forall i, j :: 0 <= i < j < |names| ==> id(names[i]) != id(names[j]))
  }

  /** The store remembers that the first k steps are done. */
  ghost predicate At(names: seq<string>, id: string -> string, stored: string, k: nat) {
    k <= |names| && stored == if k == 0 then "" else id(names[k - 1])
  }

  ghost predicate Known(names: seq<string>, id: string -> string, stored: string) {
    exists k: nat :: At(names, id, stored, k)
  }

  /** What running the steps from k on does: each in order until one fails; the result is the log of
      attempts and the number of steps then done. */
  function Sweep(names: seq<string>, k: nat, log: seq<Attempt>, ok: nat -> bool): (r: (seq<Attempt>, nat))
    requires k <= |names|
    ensures k <= r.1 <= |names|
    decreases |names| - k
  {
    if k == |names| then (log, k)
    else if ok(|log|) then Sweep(names, k + 1, log + [Attempt(names[k], true)], ok)
    else (log + [Attempt(names[k], false)], k)
  }

  /** One more step at the end of the chain is attempted only if all others succeed. */
  lemma {:induction false} SweepSnoc(names: seq<string>, x: string, k: nat, log: seq<Attempt>, ok: nat -> bool)
    requires k <= |names|
    ensures Sweep(names + [x], k, log, ok) ==
      var (l, j) := Sweep(names, k, log, ok);
      if j < |names| then (l, j)
      else if ok(|l|) then (l + [Attempt(x, true)], j + 1) else (l + [Attempt(x, false)], j)
    decreases |names| - k
  {
    if k < |names| && ok(|log|) {
      SweepSnoc(names, x, k + 1, log + [Attempt(names[k], true)], ok);
      assert (names + [x])[k] == names[k];
    }
  }

  function Successes(names: seq<string>): seq<Attempt> {
    seq(|names|, i requires 0 <= i < |names| => Attempt(names[i], true))
  }

  /** A sweep attempts each step from k on once, in order, as long as the attempts succeed, and the first one
      that does not is the last one made. */
  lemma {:induction false} SweepIs(names: seq<string>, k: nat, log: seq<Attempt>, ok: nat -> bool)
    requires k <= |names|
    ensures var (l, j) := Sweep(names, k, log, ok);
      && l == log + Successes(names[k..j]) + (if j < |names| then [Attempt(names[j], false)] else [])
      && (forall n :: |log| <= n < |log| + j - k ==> ok(n)) && (j < |names| ==> !ok(|log| + j - k))
    decreases |names| - k
  {
    if k == |names| || !ok(|log|) {
    } else {
      var (l, j) := Sweep(names, k, log, ok);
      var next := log + [Attempt(names[k], true)];
      SweepIs(names, k + 1, next, ok);
      assert names[k..j] == [names[k]] + names[k + 1..j];
    }
  }

  /** Dropping the last step: a store that does not remember it is where it was. */
  lemma Shorter(names: seq<string>, x: string, id: string -> string, stored: string)
    requires Distinct(names + [x], id) && stored != id(x)
    ensures Distinct(names, id)
    ensures forall k: nat :: At(names + [x], id, stored, k) <==> At(names, id, stored, k)
  {
    var all := names + [x];
    assert forall i :: 0 <= i < |names| ==> all[i] == names[i];
    assert all[|names|] == x;
  }

  /** A store is at one step at most. */
  lemma AtUnique(names: seq<string>, id: string -> string, stored: string, j: nat, k: nat)
    requires Distinct(names, id) && At(names, id, stored, j) && At(names, id, stored, k)
    ensures j == k
  {
  }

  /** The ID store, with the log of everything the steps' functions did. */
  class IDStore {
    var id: string
    var log: seq<Attempt>

    constructor ()
      ensures id == "" && log == []
    {
      id, log := "", [];
    }
  }

  /** What `Exec` leaves, started with a store at step k. */
  ghost predicate Swept(names: seq<string>, id: string -> string, k: nat, log: seq<Attempt>, ok: nat -> bool,
                        stored': string, log': seq<Attempt>, r: Outcome)
    requires k <= |names|
  {
    var (l, j) := Sweep(names, k, log, ok);
    && log' == l && At(names, id, stored', j)
    && r == if j == |names| then Done else Failed(names[j])
  }

  /** `Exec`: from a remembered step it runs exactly the later ones, in order, until one fails, and
      remembers the last that succeeded; an ID of no step runs nothing.  The n-th attempt overall
      succeeds if ok(n). */
  method Exec(m: Migration, curr: IDStore, id: string -> string, ok: nat -> bool) returns (r: Outcome)
    requires Distinct(Names(m), id)
    modifies curr
    ensures r.UnknownVersion? <==> !Known(Names(m), id, old(curr.id))
    ensures r.UnknownVersion? ==> curr.id == old(curr.id) && curr.log == old(curr.log)
    ensures forall k: nat :: At(Names(m), id, old(curr.id), k) ==>
              Swept(Names(m), id, k, old(curr.log), ok, curr.id, curr.log, r)
    decreases m
  {
    hide Sweep, Swept;
    ghost var was, log, names := curr.id, curr.log, Names(m);
    match m {
      case Begin(_) =>
        NothingToDo(id, log, ok);
        r := if curr.id != "" then UnknownVersion else Done;
      case Next(name, prev) =>
        assert names == Names(prev) + [name];
        if curr.id == id(name) {
          AllDone(names, id, was, log, ok);
          return Done;
        }
        Shorter(Names(prev), name, id, was);
        r := Exec(prev, curr, id, ok);
        forall k: nat | At(names, id, was, k) {
          SweptExtend(Names(prev), name, id, k, log, ok, curr.id, curr.log, r);
        }
        if r != Done {
          return;
        }
        var good := ok(|curr.log|);
        curr.log := curr.log + [Attempt(name, good)];
        if !good {
          return Failed(name);
        }
        curr.id := id(name);
    }
  }

  /** One more step after what `Exec` did for the chain before it. */
  lemma SweptExtend(prev: seq<string>, x: string, id: string -> string, k: nat, log: seq<Attempt>, ok: nat -> bool,
                    stored': string, log': seq<Attempt>, r: Outcome)
    requires k <= |prev| && Swept(prev, id, k, log, ok, stored', log', r)
    ensures r != Done ==> Swept(prev + [x], id, k, log, ok, stored', log', r)
    ensures r == Done && ok(|log'|) ==> Swept(prev + [x], id, k, log, ok, id(x), log' + [Attempt(x, true)], Done)
    ensures r == Done && !ok(|log'|) ==> Swept(prev + [x], id, k, log, ok, stored', log' + [Attempt(x, false)], Failed(x))
  {
    hide Sweep;
    SweepSnoc(prev, x, k, log, ok);
  }

  lemma NothingToDo(id: string -> string, log: seq<Attempt>, ok: nat -> bool)
    ensures At([], id, "", 0) && Swept([], id, 0, log, ok, "", log, Done)
  {
  }

  lemma AllDone(names: seq<string>, id: string -> string, stored: string, log: seq<Attempt>, ok: nat -> bool)
    requires Distinct(names, id) && names != [] && stored == id(names[|names| - 1])
    ensures At(names, id, stored, |names|)
    ensures forall k: nat :: At(names, id, stored, k) ==> k == |names|
    ensures Swept(names, id, |names|, log, ok, stored, log, Done)
  {
    assert At(names, id, stored, |names|);
    forall k: nat | At(names, id, stored, k)
      ensures k == |names|
    {
      AtUnique(names, id, stored, k, |names|);
    }
  }

  // ---------- any series of executions ----------

  /** The steps that succeeded, in order. */
  function Succeeded(log: seq<Attempt>): seq<string> {
    if log == [] then []
    else Succeeded(log[..|log| - 1]) + if log[|log| - 1].ok then [log[|log| - 1].name] else []
  }

  lemma SucceededSnoc(log: seq<Attempt>, a: Attempt)
    ensures Succeeded(log + [a]) == Succeeded(log) + if a.ok then [a.name] else []
  {
    assert (log + [a])[..|log|] == log;
  }

  lemma {:induction false} SweepSucceeded(names: seq<string>, k: nat, log: seq<Attempt>, ok: nat -> bool)
    requires k <= |names| && Succeeded(log) == names[..k]
    ensures var (l, j) := Sweep(names, k, log, ok);
      Succeeded(l) == names[..j]
    decreases |names| - k
  {
    hide Succeeded;
    if k < |names| {
      SucceededSnoc(log, Attempt(names[k], ok(|log|)));
      if ok(|log|) {
        assert names[..k + 1] == names[..k] + [names[k]];
        SweepSucceeded(names, k + 1, log + [Attempt(names[k], true)], ok);
      }
    }
  }

  /** Any number of executions, however the attempts turn out: at every moment exactly the steps the
      store remembers have succeeded, each once and in order; and after an execution that succeeds
      another one, made after the snapshot that is returned, does nothing. */
  method ExecRepeatedly(m: Migration, id: string -> string, ok: nat -> bool, times: nat)
    returns (curr: IDStore, last: Outcome, extra: Outcome, storedBefore: string, logBefore: seq<Attempt>)
    requires Distinct(Names(m), id)
    ensures fresh(curr)
    ensures exists j: nat :: At(Names(m), id, curr.id, j) && Succeeded(curr.log) == Names(m)[..j]
    ensures last.Done? ==> Succeeded(curr.log) == Names(m) && extra == Done
    ensures curr.id == storedBefore && curr.log == logBefore
    ensures !last.UnknownVersion?
  {
    hide Succeeded, Sweep, Names;
    curr := new IDStore();
    last, extra := Failed(""), Failed("");
    ghost var k: nat := 0;
    NoneSucceeded();
    for i := 0 to times
      invariant fresh(curr) && !last.UnknownVersion?
      invariant At(Names(m), id, curr.id, k) && Succeeded(curr.log) == Names(m)[..k]
      invariant last.Done? ==> k == |Names(m)|
    {
      SweepSucceeded(Names(m), k, curr.log, ok);
      ghost var next := Sweep(Names(m), k, curr.log, ok).1;
      last := Exec(m, curr, id, ok);
      k := next;
    }
    storedBefore, logBefore := curr.id, curr.log;
    if last.Done? {
      SweepAll(Names(m), logBefore, ok);
      extra := Exec(m, curr, id, ok);
      assert curr.log == logBefore && At(Names(m), id, curr.id, k);
    }
  }

  lemma NoneSucceeded()
    ensures Succeeded([]) == []
  {
  }

  lemma SweepAll(names: seq<string>, log: seq<Attempt>, ok: nat -> bool)
    ensures Sweep(names, |names|, log, ok) == (log, |names|)
  {
  }
}
