/** Model of `poolEntryQueue` in `gossip/serverpool.go`: a map from a growing index to entries that
    acts as a bounded queue ordered by last access. */
module PoolQueue {
  import opened Options

  // ---------- the entries of a map by increasing index ----------

  function From<T>(q: map<int, T>, lo: int, hi: int): seq<T>
    decreases hi - lo
  {
    if lo >= hi then [] else (if lo in q then [q[lo]] else []) + From(q, lo + 1, hi)
  }

  /** All indexes lie between lo and hi. */
  ghost predicate Within<T>(q: map<int, T>, lo: int, hi: int) {
    forall k :: k in q ==> lo <= k < hi
  }

  lemma FromNone<T>(q: map<int, T>, lo: int)
    ensures From(q, lo, lo) == []
  {
  }

  lemma FromStep<T>(q: map<int, T>, lo: int, hi: int)
    requires lo < hi
    ensures From(q, lo, hi) == (if lo in q then [q[lo]] else []) + From(q, lo + 1, hi)
  {
  }

  lemma {:induction false} FromLength<T>(q: map<int, T>, lo: int, hi: int)
    requires lo <= hi && Within(q, lo, hi)
    ensures |From(q, lo, hi)| == |q|
    decreases hi - lo
  {
    hide From;
    if lo == hi {
      assert forall k :: k !in q;
      assert q.Keys == {} && |q| == |q.Keys|;
      FromNone(q, lo);
    } else {
      var rest := q - {lo};
      FromLength(rest, lo + 1, hi);
      FromSame(q, rest, lo + 1, hi);
      MinusSize(q, lo);
      FromStep(q, lo, hi);
    }
  }

  lemma MinusSize<T>(q: map<int, T>, k: int)
    ensures |q - {k}| == |q| - (if k in q then 1 else 0)
  {
    assert (q - {k}).Keys == q.Keys - {k};
    assert |q - {k}| == |(q - {k}).Keys| && |q| == |q.Keys|;
  }

  /** Every entry of p is in q at the same index. */
  ghost predicate Part<T>(p: map<int, T>, q: map<int, T>) {
    forall k :: k in p ==> k in q && p[k] == q[k]
  }

  /** From depends only on the entries in its range. */
  lemma {:induction false} FromSame<T>(p: map<int, T>, q: map<int, T>, lo: int, hi: int)
    requires forall k :: lo <= k < hi ==> (k in p <==> k in q) && (k in p ==> p[k] == q[k])
    ensures From(p, lo, hi) == From(q, lo, hi)
    decreases hi - lo
  {
    if lo >= hi {
    } else {
      FromSame(p, q, lo + 1, hi);
    }
  }

  /** Adding at the end appends. */
  lemma {:induction false} FromAppend<T>(q: map<int, T>, lo: int, hi: int, x: T)
    requires lo <= hi && Within(q, lo, hi)
    ensures From(q[hi := x], lo, hi + 1) == From(q, lo, hi) + [x]
  {
    hide From;
    FromSplit(q[hi := x], lo, hi, hi + 1);
    FromSame(q[hi := x], q, lo, hi);
    FromStep(q[hi := x], hi, hi + 1);
    FromNone(q[hi := x], hi + 1);
  }

  lemma {:induction false} FromSplit<T>(q: map<int, T>, lo: int, mid: int, hi: int)
    requires lo <= mid <= hi
    ensures From(q, lo, hi) == From(q, lo, mid) + From(q, mid, hi)
    decreases mid - lo
  {
    hide From;
    if lo >= mid {
      FromNone(q, lo);
    } else {
      FromStep(q, lo, mid);
      FromStep(q, lo, hi);
      FromSplit(q, lo + 1, mid, hi);
    }
  }

  /** Removing an index removes one entry. */
  lemma FromRemove<T>(q: map<int, T>, lo: int, hi: int, k: int)
    requires Within(q, lo, hi) && k in q
    ensures From(q - {k}, lo, hi) == From(q, lo, k) + From(q, k + 1, hi)
    ensures From(q, lo, hi) == From(q, lo, k) + [q[k]] + From(q, k + 1, hi)
  {
    hide From;
    FromStep(q, k, hi);
    FromStep(q - {k}, k, hi);
    FromSplit(q - {k}, lo, k, hi);
    FromSplit(q, lo, k, hi);
    FromSame(q - {k}, q, lo, k);
    FromSame(q - {k}, q, k + 1, hi);
  }

  lemma {:induction false} FromMembers<T>(q: map<int, T>, lo: int, hi: int, x: T)
    ensures x in From(q, lo, hi) <==> exists k :: lo <= k < hi && k in q && q[k] == x
    decreases hi - lo
  {
    if lo >= hi {
    } else {
      FromMembers(q, lo + 1, hi, x);
    }
  }

  // ---------- the queue ----------

  /** Removing every occurrence of an entry. */
  function Without<T(==)>(s: seq<T>, x: T): seq<T> {
    if s == [] then [] else (if s[0] == x then [] else [s[0]]) + Without(s[1..], x)
  }

  /** A bounded sequence after an access: the entry moves, or is added, to the end, and a full sequence
      loses its oldest entry to a new one. */
  function Accessed<T(==)>(s: seq<T>, x: T, n: nat): seq<T>
    requires 1 <= n
  {
    (if x in s then Without(s, x) else if |s| == n then s[1..] else s) + [x]
  }

  /** What an access means: the entry is last; the others are as they were, in their order, except that the
      oldest is gone exactly when a new entry meets a full sequence. */
  lemma AccessedLaw<T>(s: seq<T>, x: T, n: nat)
    requires 1 <= n && |s| <= n && Once(s)
    ensures var r := Accessed(s, x, n);
      && Once(r) && r[|r| - 1] == x && |r| == (if x in s || |s| == n then |s| else |s| + 1)
      && (forall y :: y != x ==> (y in r <==> y in s && !(x !in s && |s| == n && y == s[0])))
      && (x in s ==> exists k :: 0 <= k < |s| && s[k] == x && r == s[..k] + s[k + 1..] + [x])
      && (x !in s ==> r == s[|s| + 1 - |r|..] + [x])
  {
    hide Without, Once;
    if x in s {
      var k := Taken(s, x);
      Apart(s, k);
    } else if |s| == n {
      assert s[..0] == [] && s[1..] == s[..0] + s[1..];
      Apart(s, 0);
      OnceMore(s[1..], x);
    } else {
      OnceMore(s, x);
    }
  }

  lemma Taken<T>(s: seq<T>, x: T) returns (k: nat)
    requires Once(s) && x in s
    ensures k < |s| && s[k] == x && Without(s, x) == s[..k] + s[k + 1..]
  {
    hide Without, Once;
    k :| 0 <= k < |s| && s[k] == x;
    Apart(s, k);
    assert s == s[..k] + [x] + s[k + 1..];
    WithoutOnce(s[..k], x, s[k + 1..]);
  }

  /** Taking an entry out of a sequence that holds each once, and putting it at the end. */
  lemma Apart<T>(s: seq<T>, k: nat)
    requires Once(s) && k < |s|
    ensures var rest := s[..k] + s[k + 1..];
      && Once(rest) && Once(rest + [s[k]]) && s[k] !in s[..k] && s[k] !in s[k + 1..]
      && (forall y :: y != s[k] ==> (y in rest <==> y in s))
  {
    var rest := s[..k] + s[k + 1..];
    assert forall i :: 0 <= i < |rest| ==> rest[i] == s[if i < k then i else i + 1];
    assert s[k] !in rest;
    OnceMore(rest, s[k]);
    assert s == s[..k] + [s[k]] + s[k + 1..];
  }

  lemma OnceMore<T>(s: seq<T>, x: T)
    requires Once(s) && x !in s
    ensures Once(s + [x])
  {
  }

  ghost predicate Once<T>(s: seq<T>) {
    forall i, j :: 0 <= i < j < |s| ==> s[i] != s[j]
  }

  lemma {:induction false} WithoutConcat<T>(s: seq<T>, t: seq<T>, x: T)
    ensures Without(s + t, x) == Without(s, x) + Without(t, x)
  {
    if s == [] {
      assert s + t == t;
    } else {
      assert (s + t)[1..] == s[1..] + t;
      WithoutConcat(s[1..], t, x);
    }
  }

  lemma {:induction false} WithoutAbsent<T>(s: seq<T>, x: T)
    requires x !in s
    ensures Without(s, x) == s
  {
    if s == [] {
    } else {
      WithoutAbsent(s[1..], x);
    }
  }

  lemma WithoutOne<T>(x: T)
    ensures Without([x], x) == []
  {
  }

  lemma WithoutOnce<T>(a: seq<T>, x: T, b: seq<T>)
    requires x !in a && x !in b
    ensures Without(a + [x] + b, x) == a + b
  {
    hide Without;
    WithoutOne(x);
    WithoutConcat(a + [x], b, x);
    WithoutConcat(a, [x], x);
    WithoutAbsent(a, x);
    WithoutAbsent(b, x);
  }

  class PoolEntry {
    const node: nat
    var queueIdx: int
    var known: bool
    var knownSelected: bool
    var state: ConnState
    var removed: bool
    var delayedRetry: bool
    var shortRetry: nat
    /** The addresses in the entry's own selection set, and the one dialed last. */
    var addresses: set<nat>
    var dialed: Option<nat>

    constructor (node: nat, known: bool, address: nat)
      ensures this.node == node && this.known == known && queueIdx == 0 && state == NotConnected
      ensures !knownSelected && !removed && !delayedRetry && addresses == {address}
    {
      this.node, this.known := node, known;
      queueIdx, knownSelected, state, removed, delayedRetry, shortRetry := 0, false, NotConnected, false, false, 5;
      addresses, dialed := {address}, None;
    }
  }

  datatype ConnState = NotConnected | Dialed | Connected | Registered

  class PoolEntryQueue {
    const maxCnt: nat
    var queue: map<int, PoolEntry>
    var newPtr: int
    var oldPtr: int

    ghost predicate Valid()
      reads this, queue.Values`queueIdx
    {
      && 1 <= maxCnt
      && 0 <= oldPtr <= newPtr
      && Within(queue, oldPtr, newPtr)
      && |queue| <= maxCnt
      && forall k :: k in queue ==> queue[k].queueIdx == k
    }

    /** The entries, least recently accessed first. */
    ghost function Order(): seq<PoolEntry>
      reads this
    {
      From(queue, oldPtr, newPtr)
    }

    constructor (maxCnt: nat)
      requires 1 <= maxCnt
      ensures Valid() && Order() == [] && this.maxCnt == maxCnt && queue == map[]
    {
      this.maxCnt, queue, newPtr, oldPtr := maxCnt, map[], 0, 0;
    }

    /** The test `queue[entry.queueIdx] == entry` is membership, although both of the pool's queues use
        the same index field. */
    lemma MemberIff(e: PoolEntry)
      requires Valid()
      ensures e in Order() <==> e.queueIdx in queue && queue[e.queueIdx] == e
    {
      FromMembers(queue, oldPtr, newPtr, e);
      if e in Order() {
        var k :| oldPtr <= k < newPtr && k in queue && queue[k] == e;
        assert queue[k].queueIdx == k;
      }
      if e.queueIdx in queue && queue[e.queueIdx] == e {
        assert oldPtr <= e.queueIdx < newPtr;
      }
    }

    /** `fetchOldest`: takes the least recently accessed entry. */
    method FetchOldest() returns (e: PoolEntry?)
      requires Valid()
      modifies this`queue, this`oldPtr
      ensures Valid() && Part(queue, old(queue))
      ensures old(Order()) == [] ==> e == null && Order() == []
      ensures old(Order()) != [] ==> e == old(Order())[0] && Order() == old(Order())[1..]
    {
      hide From;
      FromLength(queue, oldPtr, newPtr);
      if |queue| == 0 {
        return null;
      }
      while true
        invariant Valid() && queue == old(queue) && Order() == old(Order()) && Order() != []
        decreases newPtr - oldPtr
      {
        FromNone(queue, oldPtr);
        assert oldPtr < newPtr;
        FromStep(queue, oldPtr, newPtr);
        if oldPtr in queue {
          e := TakeFirst();
          return;
        }
        oldPtr := oldPtr + 1;
      }
    }

    /** Takes the entry at the old end. */
    method TakeFirst() returns (e: PoolEntry)
      requires Valid() && oldPtr in queue
      modifies this`queue, this`oldPtr
      ensures Valid() && Part(queue, old(queue)) && [e] + Order() == old(Order())
    {
      hide From;
      e := queue[oldPtr];
      FromStep(queue, oldPtr, newPtr);
      FromSame(queue - {oldPtr}, queue, oldPtr + 1, newPtr);
      MinusSize(queue, oldPtr);
      queue := queue - {oldPtr};
      oldPtr := oldPtr + 1;
    }

    /** `remove`: takes the entry out if it is there. */
    method Remove(entry: PoolEntry)
      requires Valid()
      modifies this`queue
      ensures Valid() && Part(queue, old(queue))
      ensures Order() == Without(old(Order()), entry)
      ensures forall k :: k in queue ==> queue[k] != entry
    {
      MemberIff(entry);
      if entry.queueIdx in queue && queue[entry.queueIdx] == entry {
        DropAt(entry.queueIdx);
        queue := queue - {entry.queueIdx};
      } else {
        WithoutAbsent(Order(), entry);
      }
    }

    lemma DropAt(k: int)
      requires Valid() && k in queue
      ensures From(queue - {k}, oldPtr, newPtr) == Without(Order(), queue[k])
      ensures |queue - {k}| == |queue| - 1
    {
      hide From, Without;
      var e, a, b := queue[k], From(queue, oldPtr, k), From(queue, k + 1, newPtr);
      FromRemove(queue, oldPtr, newPtr, k);
      FromMembers(queue, oldPtr, k, e);
      FromMembers(queue, k + 1, newPtr, e);
      WithoutOnce(a, e, b);
      MinusSize(queue, k);
    }

    /** The first half of `setLatest`: the entry is out of the queue, and the queue has room. */
    method MakeRoom(entry: PoolEntry) returns (evicted: PoolEntry?)
      requires Valid()
      modifies this`queue, this`oldPtr
      ensures Valid() && Part(queue, old(queue)) && |queue| < maxCnt && forall k :: k in queue ==> queue[k] != entry
      ensures var was := old(Order());
        && (evicted != null <==> entry !in was && |was| == maxCnt)
        && (evicted != null ==> evicted == was[0])
        && Order() + [entry] == Accessed(was, entry, maxCnt)
    {
      hide From, Without;
      evicted := null;
      MemberIff(entry);
      FromLength(queue, oldPtr, newPtr);
      if entry.queueIdx in queue && queue[entry.queueIdx] == entry {
        DropAt(entry.queueIdx);
        queue := queue - {entry.queueIdx};
      } else if |queue| == maxCnt {
        evicted := FetchOldest();
      }
      assert forall k :: k in queue ==> queue[k] != entry;
      FromLength(queue, oldPtr, newPtr);
    }

    /** The second half: the entry gets the next index. */
    method Append(entry: PoolEntry)
      requires Valid() && |queue| < maxCnt && forall k :: k in queue ==> queue[k] != entry
      modifies this`queue, this`newPtr, entry`queueIdx
      ensures Valid() && queue == old(queue)[newPtr - 1 := entry] && newPtr == old(newPtr) + 1
      ensures Order() == old(Order()) + [entry]
    {
      hide From;
      FromAppend(queue, oldPtr, newPtr, entry);
      assert newPtr !in queue;
      assert |queue[newPtr := entry]| == |queue| + 1;
      entry.queueIdx := newPtr;
      queue := queue[entry.queueIdx := entry];
      newPtr := newPtr + 1;
    }

    /** `setLatest`: moves the entry to the end, or adds it there; exactly when a new entry meets a full
        queue, the oldest is evicted. */
    method SetLatest(entry: PoolEntry) returns (evicted: PoolEntry?)
      requires Valid()
      modifies this`queue, this`oldPtr, this`newPtr, entry`queueIdx
      ensures Valid() && Part(queue - {newPtr - 1}, old(queue)) && newPtr - 1 in queue && queue[newPtr - 1] == entry
      ensures var was := old(Order());
        && (evicted != null <==> entry !in was && |was| == maxCnt)
        && (evicted != null ==> evicted == was[0])
        && Order() == Accessed(was, entry, maxCnt)
    {
      hide From, Accessed;
      evicted := MakeRoom(entry);
      Append(entry);
    }
  }
}
