/** Model of `gossip/execqueue.go`: a queue that runs functions one after the other in a worker of
    its own.  Callers and worker interleave at their critical sections; functions are numbered in
    the order in which they are accepted. */
module ExecQueue {

  /** Where the worker is: before `waitNext`, asleep, woken, running a function, about to close
      `closeWait`, or gone. */
  datatype Worker = Entering(drop: bool) | Asleep | Woken | Running(f: nat) | Leaving | Gone

  /** funcs and closed are the queue's fields; the rest observes the run: how many functions were
      accepted, which were started, which `clear` removed, which the worker dropped unrun, and whether
      the first of funcs is the function that runs or has just run. */
  datatype Queue = Queue(
    capacity: nat,
    funcs: seq<nat>,
    closed: bool,
    worker: Worker,
    accepted: nat,
    ran: seq<nat>,
    cleared: seq<nat>,
    lost: seq<nat>,
    headStarted: bool)

  datatype Label = Enqueue | Clear | Quit | Enter | Wake | Finish | Leave

  function New(capacity: nat): Queue {
    Queue(capacity, [], false, Entering(false), 0, [], [], [], false)
  }

  /** `cond.Signal` wakes the worker if it sleeps. */
  function Signal(w: Worker): Worker {
    if w.Asleep? then Woken else w
  }

  predicate CanQueue(q: Queue) {
    !q.closed && |q.funcs| < q.capacity
  }

  /** The loop of `waitNext`, entered with the lock held. */
  function Await(q: Queue): Queue {
    if q.closed then q.(worker := Leaving)
    else if q.funcs != [] then
      q.(worker := Running(q.funcs[0]), ran := q.ran + [q.funcs[0]], headStarted := true)
    else q.(worker := Asleep)
  }

  /** The start of `waitNext(true)`: removes the first function, whatever it is. */
  function DropHead(q: Queue): Queue {
    if q.funcs == [] then q.(headStarted := false)
    else q.(funcs := q.funcs[1..], headStarted := false,
            lost := if q.headStarted then q.lost else q.lost + [q.funcs[0]])
  }

  predicate Enabled(q: Queue, l: Label) {
    match l
    case Enqueue => true
    case Clear => true
    case Quit => true
    case Enter => q.worker.Entering?
    case Wake => q.worker.Woken?
    case Finish => q.worker.Running?
    case Leave => q.worker.Leaving?
  }

  function Step(q: Queue, l: Label): Queue
    requires Enabled(q, l)
  {
    match l
    case Enqueue =>
      if CanQueue(q) then q.(funcs := q.funcs + [q.accepted], accepted := q.accepted + 1, worker := Signal(q.worker)) else q
    case Clear => q.(funcs := [], headStarted := false, cleared := q.cleared + Pending(q))
    case Quit => if q.closed then q else q.(closed := true, worker := Signal(q.worker))
    case Enter => Await(if q.worker.drop then DropHead(q) else q)
    case Wake => Await(q)
    case Finish => q.(worker := Entering(true))
    case Leave => q.(worker := Gone)
  }

  /** Whether `quit` may return: the worker has closed `closeWait`. */
  predicate QuitReturns(q: Queue) {
    q.worker.Gone?
  }

  // ---------- invariants of every interleaving ----------

  /** Functions accepted and not started. */
  function Pending(q: Queue): seq<nat> {
    if q.headStarted && q.funcs != [] then q.funcs[1..] else q.funcs
  }

  ghost predicate Increasing(s: seq<nat>) {
    forall i, j :: 0 <= i < j < |s| ==> s[i] < s[j]
  }

  ghost predicate Inv(q: Queue) {
    && |q.funcs| <= q.capacity
    // What was started and what is pending, in this order, is in the order of acceptance.
    && Increasing(q.ran + Pending(q))
    && (forall i :: 0 <= i < |q.ran + Pending(q)| ==> (q.ran + Pending(q))[i] < q.accepted)
    // The function at the head counts as started only while it runs, or just after.
    && (q.headStarted ==> q.funcs != [] && q.ran != [] && q.funcs[0] == q.ran[|q.ran| - 1])
    && (q.headStarted ==> q.worker.Running? || q.worker == Entering(true))
    && (q.worker.Running? ==> q.ran != [] && q.ran[|q.ran| - 1] == q.worker.f)
    // The worker never sleeps while there is something to do.
    && (q.worker.Asleep? ==> q.funcs == [] && !q.closed)
    && (q.worker.Leaving? || q.worker.Gone? ==> q.closed)
  }

  lemma AwaitInv(q: Queue)
    requires Inv(q.(worker := Woken)) && !q.headStarted
    ensures Inv(Await(q))
  {
    var t := Await(q);
    if !q.closed && q.funcs != [] {
      assert t.ran + Pending(t) == q.ran + q.funcs;
    }
  }

  lemma DropInv(q: Queue)
    requires Inv(q) && q.worker == Entering(true)
    ensures Inv(DropHead(q).(worker := Woken)) && !DropHead(q).headStarted
  {
    var t := DropHead(q);
    if q.funcs != [] && !q.headStarted {
      var a, b := q.ran + q.funcs, q.ran + q.funcs[1..];
      assert forall i :: 0 <= i < |b| ==> b[i] == a[if i < |q.ran| then i else i + 1];
    }
  }

  lemma EnqueueInv(q: Queue)
    requires Inv(q) && CanQueue(q)
    ensures Inv(Step(q, Enqueue))
  {
    var t := Step(q, Enqueue);
    assert Pending(t) == Pending(q) + [q.accepted];
    assert t.ran + Pending(t) == (q.ran + Pending(q)) + [q.accepted];
  }

  lemma StepInv(q: Queue, l: Label)
    requires Inv(q) && Enabled(q, l)
    ensures Inv(Step(q, l))
  {
    match l {
      case Enqueue =>
        if CanQueue(q) {
          EnqueueInv(q);
        }
      case Clear =>
        assert q.ran + [] == q.ran && forall i :: 0 <= i < |q.ran| ==> q.ran[i] == (q.ran + Pending(q))[i];
      case Quit =>
      case Enter =>
        if q.worker.drop {
          DropInv(q);
          AwaitInv(DropHead(q));
        } else {
          AwaitInv(q);
        }
      case Wake =>
        AwaitInv(q);
      case Finish =>
      case Leave =>
    }
  }

  // ---------- runs ----------

  ghost predicate Legal(q: Queue, labels: seq<Label>)
    decreases |labels|
  {
    labels == [] || (Enabled(q, labels[0]) && Legal(Step(q, labels[0]), labels[1..]))
  }

  ghost function Run(q: Queue, labels: seq<Label>): Queue
    requires Legal(q, labels)
    decreases |labels|
  {
    if labels == [] then q else Run(Step(q, labels[0]), labels[1..])
  }

  /** In every interleaving functions start in the order of acceptance, each at most once, and the
      queue never exceeds its capacity. */
  lemma {:induction false} RunInv(q: Queue, labels: seq<Label>)
    requires Inv(q) && Legal(q, labels)
    ensures Inv(Run(q, labels)) && Increasing(Run(q, labels).ran) && |Run(q, labels).funcs| <= Run(q, labels).capacity
    decreases |labels|
  {
    hide Step, Enabled;
    if labels == [] {
      assert forall i :: 0 <= i < |q.ran| ==> q.ran[i] == (q.ran + Pending(q))[i];
    } else {
      StepInv(q, labels[0]);
      RunInv(Step(q, labels[0]), labels[1..]);
    }
  }

  /** All numbers below n. */
  function Upto(n: nat): (s: seq<nat>)
    ensures |s| == n && forall i :: 0 <= i < n ==> s[i] == i
  {
    seq(n, i => i)
  }

  /** Every accepted function is started, pending, removed by `clear` or lost, and only one of these, once. */
  ghost predicate Accounted(q: Queue) {
    multiset(q.ran) + multiset(Pending(q)) + multiset(q.cleared) + multiset(q.lost) == multiset(Upto(q.accepted))
  }

  lemma AwaitAccounted(q: Queue)
    requires Accounted(q) && !q.headStarted
    ensures Accounted(Await(q))
  {
    if !q.closed && q.funcs != [] {
      assert q.funcs == [q.funcs[0]] + q.funcs[1..];
    }
  }

  lemma DropAccounted(q: Queue)
    requires Inv(q) && Accounted(q)
    ensures Accounted(DropHead(q)) && !DropHead(q).headStarted
  {
    if q.funcs != [] {
      assert q.funcs == [q.funcs[0]] + q.funcs[1..];
    }
  }

  lemma EnqueueAccounted(q: Queue)
    requires Inv(q) && Accounted(q) && CanQueue(q)
    ensures Accounted(Step(q, Enqueue))
  {
    hide Inv, CanQueue, Upto;
    assert Pending(Step(q, Enqueue)) == Pending(q) + [q.accepted] by { PendingGrows(q); }
    hide Pending;
    assert Upto(q.accepted + 1) == Upto(q.accepted) + [q.accepted];
  }

  lemma PendingGrows(q: Queue)
    requires Inv(q) && CanQueue(q)
    ensures Pending(Step(q, Enqueue)) == Pending(q) + [q.accepted]
  {
  }

  lemma ClearAccounted(q: Queue)
    requires Accounted(q)
    ensures Accounted(Step(q, Clear))
  {
    hide Upto;
    assert Pending(Step(q, Clear)) == [];
    hide Pending;
  }

  lemma StepAccounted(q: Queue, l: Label)
    requires Inv(q) && Accounted(q) && Enabled(q, l)
    ensures Accounted(Step(q, l))
  {
    hide Await, DropHead;
    match l {
      case Enqueue =>
        if CanQueue(q) {
          EnqueueAccounted(q);
        }
      case Clear => ClearAccounted(q);
      case Enter =>
        if q.worker.drop {
          DropAccounted(q);
          AwaitAccounted(DropHead(q));
        } else {
          AwaitAccounted(q);
        }
      case Wake => AwaitAccounted(q);
      case _ =>
    }
  }

  /** Conservation in every interleaving, with any calls of `clear`. */
  lemma {:induction false} RunAccounted(q: Queue, labels: seq<Label>)
    requires Inv(q) && Accounted(q) && Legal(q, labels)
    ensures Accounted(Run(q, labels))
    decreases |labels|
  {
    hide Step, Enabled, Inv, Accounted;
    if labels == [] {
    } else {
      StepInv(q, labels[0]);
      StepAccounted(q, labels[0]);
      RunAccounted(Step(q, labels[0]), labels[1..]);
    }
  }

  /** Nothing is missing: the functions accepted are those started followed by those pending. */
  ghost predicate Complete(q: Queue) {
    q.ran + Pending(q) == Upto(q.accepted) && q.lost == [] && (q.worker == Entering(true) || q.worker.Running? ==> q.headStarted)
  }

  lemma StepComplete(q: Queue, l: Label)
    requires Inv(q) && Complete(q) && Enabled(q, l) && l != Clear
    ensures Complete(Step(q, l))
  {
    var t := Step(q, l);
    match l {
      case Enqueue =>
        if CanQueue(q) {
          assert Pending(t) == Pending(q) + [q.accepted];
          assert t.ran + Pending(t) == (q.ran + Pending(q)) + [q.accepted];
        }
      case Enter =>
        assert t.ran + Pending(t) == q.ran + Pending(q);
      case Wake =>
        assert t.ran + Pending(t) == q.ran + Pending(q);
      case _ =>
    }
  }

  /** Without `clear`, the functions started are a prefix of those accepted, at every moment. */
  lemma {:induction false} RunsInOrder(q: Queue, labels: seq<Label>)
    requires Inv(q) && Complete(q) && Legal(q, labels) && Clear !in labels
    ensures var t := Run(q, labels);
      Complete(t) && t.ran <= Upto(t.accepted)
    decreases |labels|
  {
    hide Step, Enabled, Inv, Complete;
    if labels == [] {
      StartedArePrefix(q);
    } else {
      StepInv(q, labels[0]);
      StepComplete(q, labels[0]);
      RunsInOrder(Step(q, labels[0]), labels[1..]);
    }
  }

  lemma StartedArePrefix(q: Queue)
    requires Complete(q)
    ensures q.ran <= Upto(q.accepted)
  {
    assert (q.ran + Pending(q))[..|q.ran|] == q.ran;
  }

  /** Once `quit` has closed the queue nothing is started any more, and once `quit` may return it may
      always return: the worker is gone, and no function runs. */
  lemma {:induction false} NothingAfterQuit(q: Queue, labels: seq<Label>)
    requires q.closed && Legal(q, labels)
    ensures var t := Run(q, labels);
      t.closed && t.ran == q.ran && t.accepted == q.accepted && (QuitReturns(q) ==> t.worker == Gone)
    decreases |labels|
  {
    if labels == [] {
    } else {
      NothingAfterQuit(Step(q, labels[0]), labels[1..]);
    }
  }

  /** What the calls do, on what can be seen of a queue: a function is accepted if and only if the queue is open
      and the functions pending and running are fewer than its capacity, and is then the last one pending;
      `clear` leaves none pending; `quit` closes the queue; and no call starts or loses a function. */
  lemma Calls(q: Queue)
    requires Inv(q)
    ensures var t := Step(q, Enqueue);
      if !q.closed && |Pending(q)| + (if q.headStarted then 1 else 0) < q.capacity
      then t.accepted == q.accepted + 1 && Pending(t) == Pending(q) + [q.accepted]
      else t == q
    ensures var t := Step(q, Clear);
      Pending(t) == [] && t.accepted == q.accepted && t.closed == q.closed && t.worker == q.worker
    ensures var t := Step(q, Quit);
      t.closed && Pending(t) == Pending(q) && t.accepted == q.accepted
    ensures forall l :: l == Enqueue || l == Clear || l == Quit ==> Step(q, l).ran == q.ran && Step(q, l).lost == q.lost
  {
  }

  // ---------- progress ----------

  /** The worker's own steps; all others are calls. */
  predicate ByWorker(l: Label) {
    l == Enter || l == Wake || l == Finish || l == Leave
  }

  /** What the worker will find when it next looks: a function accepted after a `clear` while another ran is
      dropped first. */
  function Ahead(q: Queue): seq<nat> {
    if q.worker == Entering(true) && !q.headStarted && q.funcs != [] then q.funcs[1..] else Pending(q)
  }

  /** Whenever the worker looks into the queue it leaves if the queue is closed, otherwise starts exactly the
      first function it finds, and sleeps only if there is none. */
  lemma Looks(q: Queue, l: Label)
    requires Inv(q) && Enabled(q, l) && (l == Enter || l == Wake)
    ensures var t := Step(q, l);
      && (q.closed <==> t.worker == Leaving)
      && (!q.closed && Ahead(q) != [] ==> t.worker == Running(Ahead(q)[0]) && t.ran == q.ran + [Ahead(q)[0]] && Pending(t) == Ahead(q)[1..])
      && (!q.closed && Ahead(q) == [] ==> t.worker == Asleep && t.ran == q.ran)
  {
  }

  /** No call stops the worker: it can always take a step, unless it is gone, or sleeps over an open and
      empty queue. */
  lemma NeverStuck(q: Queue)
    requires Inv(q)
    ensures (exists l :: ByWorker(l) && Enabled(q, l)) || q.worker == Gone || (q.worker == Asleep && !q.closed && q.funcs == [])
  {
    match q.worker {
      case Entering(_) => assert ByWorker(Enter) && Enabled(q, Enter);
      case Woken => assert ByWorker(Wake) && Enabled(q, Wake);
      case Running(_) => assert ByWorker(Finish) && Enabled(q, Finish);
      case Leaving => assert ByWorker(Leave) && Enabled(q, Leave);
      case _ =>
    }
  }

  /** How many steps the worker of a closed queue still has to take. */
  function ToGo(w: Worker): nat {
    match w
    case Running(_) => 3
    case Entering(_) => 2
    case Woken => 2
    case Asleep => 2
    case Leaving => 1
    case Gone => 0
  }

  function WorkerSteps(labels: seq<Label>): nat {
    if labels == [] then 0 else (if ByWorker(labels[0]) then 1 else 0) + WorkerSteps(labels[1..])
  }

  /** `quit` returns: in every interleaving after it, with any calls between, each step of the worker brings
      it nearer to its end, which it reaches after the function that runs, if any, is done. */
  lemma {:induction false} QuitEnds(q: Queue, labels: seq<Label>)
    requires Inv(q) && q.closed && Legal(q, labels)
    ensures ToGo(q.worker) <= 3 && ToGo(Run(q, labels).worker) == ToGo(q.worker) - WorkerSteps(labels)
    ensures QuitReturns(Run(q, labels)) <==> WorkerSteps(labels) == ToGo(q.worker)
    decreases |labels|
  {
    hide Inv;
    if labels == [] {
    } else {
      StepInv(q, labels[0]);
      ClosedStep(q, labels[0]);
      QuitEnds(Step(q, labels[0]), labels[1..]);
    }
  }

  lemma ClosedStep(q: Queue, l: Label)
    requires Inv(q) && q.closed && Enabled(q, l)
    ensures Step(q, l).closed && ToGo(Step(q, l).worker) == ToGo(q.worker) - if ByWorker(l) then 1 else 0
  {
  }

  // ---------- clear while a function runs ----------

  /** A watcher that sees only calls and the worker's phase: was there a `clear` since the current
      function started, was a function accepted after it, and has that happened by the time the
      worker came back? */
  datatype Watch = Watch(cleared: bool, queued: bool, hazard: bool)

  predicate Busy(q: Queue) {
    q.worker.Running? || q.worker == Entering(true)
  }

  function Observe(w: Watch, q: Queue, l: Label): Watch {
    match l
    case Clear => if Busy(q) then w.(cleared := true, queued := false) else w
    case Enqueue => if CanQueue(q) && w.cleared then w.(queued := true) else w
    case Enter => if Busy(q) then Watch(false, false, w.hazard || w.queued) else w
    case _ => w
  }

  ghost function Watched(w: Watch, q: Queue, labels: seq<Label>): Watch
    requires Legal(q, labels)
    decreases |labels|
  {
    if labels == [] then w else Watched(Observe(w, q, labels[0]), Step(q, labels[0]), labels[1..])
  }

  /** What the watcher knows of the queue. */
  ghost predicate Tracks(w: Watch, q: Queue) {
    && (Busy(q) ==> (w.cleared <==> !q.headStarted))
    && (w.cleared ==> (w.queued <==> q.funcs != []))
    && (!w.cleared ==> !w.queued)
    && (!Busy(q) ==> !w.cleared)
    && (w.hazard <==> q.lost != [])
  }

  lemma StepTracks(w: Watch, q: Queue, l: Label)
    requires Inv(q) && Tracks(w, q) && Enabled(q, l)
    ensures Tracks(Observe(w, q, l), Step(q, l))
  {
  }

  /** The worker drops a function that was never run exactly when one was accepted after a `clear`
      during a running function and before that function was done. */
  lemma {:induction false} LostIffHazard(w: Watch, q: Queue, labels: seq<Label>)
    requires Inv(q) && Tracks(w, q) && Legal(q, labels)
    ensures Run(q, labels).lost != [] <==> Watched(w, q, labels).hazard
    decreases |labels|
  {
    hide Step, Enabled, Inv, Observe;
    if labels == [] {
    } else {
      StepInv(q, labels[0]);
      StepTracks(w, q, labels[0]);
      LostIffHazard(Observe(w, q, labels[0]), Step(q, labels[0]), labels[1..]);
    }
  }

  /** The shortest such run: the second function is accepted, and never run. */
  lemma ClearLosesTheNext()
    ensures var labels := [Enqueue, Enter, Clear, Enqueue, Finish, Enter];
      && Legal(New(1), labels)
      && Run(New(1), labels).ran == [0] && Run(New(1), labels).lost == [1] && Run(New(1), labels).accepted == 2
  {
    var q0 := New(1);
    var q1 := Step(q0, Enqueue);
    var q2 := Step(q1, Enter);
    var q3 := Step(q2, Clear);
    var q4 := Step(q3, Enqueue);
    var q5 := Step(q4, Finish);
    var q6 := Step(q5, Enter);
    assert q6.ran == [0] && q6.lost == [1];
    Unroll(q5, Enter, []);
    Unroll(q4, Finish, [Enter]);
    Unroll(q3, Enqueue, [Finish, Enter]);
    Unroll(q2, Clear, [Enqueue, Finish, Enter]);
    Unroll(q1, Enter, [Clear, Enqueue, Finish, Enter]);
    Unroll(q0, Enqueue, [Enter, Clear, Enqueue, Finish, Enter]);
  }

  lemma Unroll(q: Queue, l: Label, labels: seq<Label>)
    requires Enabled(q, l) && Legal(Step(q, l), labels)
    ensures Legal(q, [l] + labels) && Run(q, [l] + labels) == Run(Step(q, l), labels)
  {
    assert ([l] + labels)[1..] == labels;
  }

  /** A new queue meets what the lemmas about runs ask of their first state. */
  lemma NewQueue(capacity: nat)
    ensures Inv(New(capacity)) && Accounted(New(capacity)) && Complete(New(capacity)) && Tracks(Watch(false, false, false), New(capacity))
  {
  }

  // ---------- the queue as an object ----------

  /** The queue's fields and critical sections; the ghost fields observe the run. */
  class ExecQueue {
    const capacity: nat
    var funcs: seq<nat>
    var closeWait: bool
    ghost var worker: Worker
    ghost var accepted: nat
    ghost var ran: seq<nat>
    ghost var cleared: seq<nat>
    ghost var lost: seq<nat>
    ghost var headStarted: bool

    ghost function Model(): Queue
      reads this
    {
      Queue(capacity, funcs, closeWait, worker, accepted, ran, cleared, lost, headStarted)
    }

    constructor (capacity: nat)
      ensures Model() == New(capacity)
    {
      this.capacity, funcs, closeWait, worker := capacity, [], false, Entering(false);
      accepted, ran, cleared, lost, headStarted := 0, [], [], [], false;
    }

    /** `queue`, for the function with the next number. */
    method Enqueue(f: nat) returns (ok: bool)
      requires f == accepted
      modifies this
      ensures ok == CanQueue(old(Model())) && Model() == Step(old(Model()), Label.Enqueue)
    {
      ok := !closeWait && |funcs| < capacity;
      if ok {
        funcs := funcs + [f];
        worker := Signal(worker);
        accepted := accepted + 1;
      }
    }

    /** `clear`. */
    method Clear()
      modifies this
      ensures Model() == Step(old(Model()), Label.Clear)
    {
      cleared := cleared + Pending(Model());
      funcs := [];
      headStarted := false;
    }

    /** `quit` up to the wait for the worker. */
    method Quit()
      modifies this
      ensures Model() == Step(old(Model()), Label.Quit)
    {
      if !closeWait {
        closeWait := true;
        worker := Signal(worker);
      }
    }

    /** One pass of `waitNext` under the lock: a function to run, or none if it sleeps or is closed.
        `entering` says whether it was just called, rather than woken. */
    method WaitNext(drop: bool, entering: bool) returns (f: seq<nat>)
      requires if entering then worker == Entering(drop) else worker == Woken
      modifies this
      ensures Model() == Step(old(Model()), if entering then Enter else Wake)
      ensures f == if worker.Running? then [worker.f] else []
    {
      if entering && drop {
        lost := if funcs == [] || headStarted then lost else lost + [funcs[0]];
        headStarted := false;
        if |funcs| > 0 {
          funcs := funcs[1..];
        }
      }
      f := [];
      if closeWait {
        worker := Leaving;
      } else if |funcs| > 0 {
        f := [funcs[0]];
        worker, ran, headStarted := Running(funcs[0]), ran + f, true;
      } else {
        worker := Asleep;
      }
    }
  }
}
