/** Model of `inter/events.go` and of the callbacks that collect a block's events
    (`gossip/consensus_callbacks.go`): events sorted by identifier, compared as byte strings. */
module EventOrder {
  import opened Numbers
  import opened EventCodec
  import opened EventBuild

  /** `bytes.Compare(a, b) < 0`. */
  predicate Below(a: seq<byte>, b: seq<byte>) {
    b != [] && (a == [] || a[0] < b[0] || (a[0] == b[0] && Below(a[1..], b[1..])))
  }

  lemma {:induction false} BelowIrreflexive(a: seq<byte>)
    ensures !Below(a, a)
  {
    if a == [] {
    } else {
      BelowIrreflexive(a[1..]);
    }
  }

  lemma {:induction false} BelowTransitive(a: seq<byte>, b: seq<byte>, c: seq<byte>)
    requires Below(a, b) && Below(b, c)
    ensures Below(a, c)
  {
    if a != [] && a[0] == b[0] && b[0] == c[0] {
      BelowTransitive(a[1..], b[1..], c[1..]);
    }
  }

  lemma {:induction false} BelowTotal(a: seq<byte>, b: seq<byte>)
    ensures Below(a, b) || a == b || Below(b, a)
  {
    if a != [] && b != [] && a[0] == b[0] {
      BelowTotal(a[1..], b[1..]);
      assert a == [a[0]] + a[1..] && b == [b[0]] + b[1..];
    }
  }

  /** Neither of the identifiers comes before an earlier one. */
  ghost predicate Sorted(ids: seq<Hash>) {
    forall i, j :: 0 <= i < j < |ids| ==> !Below(ids[j], ids[i])
  }

  function IDs(es: seq<Built>): (r: seq<Hash>)
    ensures |r| == |es| && forall i :: 0 <= i < |es| ==> r[i] == es[i].id
  {
    seq(|es|, i requires 0 <= i < |es| => es[i].id)
  }

  lemma Tail(a: seq<Hash>)
    requires a != []
    ensures a == [a[0]] + a[1..] && multiset(a[1..]) == multiset(a) - multiset{a[0]}
    ensures Sorted(a) ==> Sorted(a[1..])
  {
    hide Below;
    assert a == [a[0]] + a[1..];
  }

  /** A sorted list is determined by its elements: the order in which events are applied, and the
      sorting algorithm, cannot show in the result. */
  lemma {:induction false} SortedUnique(a: seq<Hash>, b: seq<Hash>)
    requires Sorted(a) && Sorted(b) && multiset(a) == multiset(b)
    ensures a == b
  {
    if a == [] {
      assert |multiset(b)| == 0;
    } else {
      assert a[0] in multiset(b) && |multiset(a)| == |multiset(b)|;
      SameHead(a, b);
      Tail(a);
      Tail(b);
      SortedUnique(a[1..], b[1..]);
    }
  }

  lemma SameHead(a: seq<Hash>, b: seq<Hash>)
    requires Sorted(a) && Sorted(b) && multiset(a) == multiset(b) && a != [] && b != []
    ensures a[0] == b[0]
  {
    assert a[0] in multiset(b) && b[0] in multiset(a);
    var i :| 0 <= i < |b| && b[i] == a[0];
    var j :| 0 <= j < |a| && a[j] == b[0];
    BelowTotal(a[0], b[0]);
  }

  /** The position of an event in a list sorted so far. */
  method FindPlace(es: seq<Built>, e: Built) returns (k: nat)
    requires Sorted(IDs(es))
    ensures k <= |es| && Sorted(IDs(es[..k] + [e] + es[k..]))
  {
    hide Below;
    k := |es|;
    while k > 0 && Below(e.id, es[k - 1].id)
      invariant 0 <= k <= |es|
      invariant forall i :: k <= i < |es| ==> Below(e.id, es[i].id)
    {
      k := k - 1;
    }
    var r := es[..k] + [e] + es[k..];
    forall i, j | 0 <= i < j < |r|
      ensures !Below(IDs(r)[j], IDs(r)[i])
    {
      var si, sj := if i < k then i else i - 1, if j < k then j else j - 1;
      if i == k {
        NotBoth(e.id, es[sj].id);
      } else if j == k {
        if i < k - 1 {
          NotBefore(IDs(es), i, k - 1, e.id);
        }
      } else {
        assert r[i] == es[si] && r[j] == es[sj];
        assert !Below(IDs(es)[sj], IDs(es)[si]);
      }
    }
  }

  lemma NotBoth(a: seq<byte>, b: seq<byte>)
    requires Below(a, b)
    ensures !Below(b, a)
  {
    if Below(b, a) {
      BelowTransitive(a, b, a);
      BelowIrreflexive(a);
    }
  }

  lemma NotBefore(ids: seq<Hash>, i: nat, j: nat, x: Hash)
    requires Sorted(ids) && i < j < |ids| && !Below(x, ids[j])
    ensures !Below(x, ids[i])
  {
    if Below(x, ids[i]) {
      BelowTotal(ids[i], ids[j]);
      if Below(ids[i], ids[j]) {
        BelowTransitive(x, ids[i], ids[j]);
      }
    }
  }

  lemma InsertAt(es: seq<Built>, k: nat, e: Built)
    requires k <= |es|
    ensures var r := es[..k] + [e] + es[k..];
      && multiset(r) == multiset(es) + multiset{e}
      && multiset(IDs(r)) == multiset(IDs(es)) + multiset{e.id}
  {
    var r := es[..k] + [e] + es[k..];
    assert es == es[..k] + es[k..];
    assert IDs(es) == IDs(es[..k]) + IDs(es[k..]);
    assert IDs(r) == IDs(es[..k]) + [e.id] + IDs(es[k..]);
  }

  method InsertEvent(es: seq<Built>, e: Built) returns (r: seq<Built>)
    requires Sorted(IDs(es))
    ensures Sorted(IDs(r)) && multiset(r) == multiset(es) + multiset{e}
    ensures multiset(IDs(r)) == multiset(IDs(es)) + multiset{e.id}
  {
    var k := FindPlace(es, e);
    InsertAt(es, k, e);
    r := es[..k] + [e] + es[k..];
  }

  lemma Prefix(es: seq<Built>, i: nat)
    requires i < |es|
    ensures multiset(es[..i + 1]) == multiset(es[..i]) + multiset{es[i]}
    ensures multiset(IDs(es[..i + 1])) == multiset(IDs(es[..i])) + multiset{es[i].id}
  {
    InsertAt(es[..i], i, es[i]);
    assert es[..i + 1] == es[..i][..i] + [es[i]] + es[..i][i..];
  }

  /** Sorting the confirmed events by identifier, for `sort.Sort`. */
  method SortEvents(es: seq<Built>) returns (r: seq<Built>)
    ensures multiset(r) == multiset(es)
    ensures Sorted(IDs(r)) && multiset(IDs(r)) == multiset(IDs(es))
  {
    hide Sorted;
    r := [];
    EmptySorted();
    for i := 0 to |es|
      invariant Sorted(IDs(r)) && multiset(r) == multiset(es[..i])
      invariant multiset(IDs(r)) == multiset(IDs(es[..i]))
    {
      Prefix(es, i);
      r := InsertEvent(r, es[i]);
    }
    assert es[..|es|] == es;
  }

  /** The identifiers of a list in order. */
  function SortIds(ids: seq<Hash>): (r: seq<Hash>)
    ensures |r| == |ids|
  {
    if ids == [] then [] else InsertId(ids[0], SortIds(ids[1..]))
  }

  function InsertId(x: Hash, ids: seq<Hash>): (r: seq<Hash>)
    ensures |r| == |ids| + 1
  {
    if ids == [] || !Below(ids[0], x) then [x] + ids else [ids[0]] + InsertId(x, ids[1..])
  }

  lemma {:induction false} InsertIdSorts(x: Hash, ids: seq<Hash>)
    requires Sorted(ids)
    ensures Sorted(InsertId(x, ids)) && multiset(InsertId(x, ids)) == multiset(ids) + multiset{x}
  {
    hide Below;
    var r := InsertId(x, ids);
    if ids == [] {
    } else if !Below(ids[0], x) {
      forall j | 1 <= j < |r|
        ensures !Below(r[j], x)
      {
        if Below(r[j], x) {
          BelowTotal(ids[0], x);
          if j > 1 {
            BelowTotal(r[j], ids[0]);
          }
          SmallestFirst(ids, j - 1, x);
        }
      }
    } else {
      assert ids == [ids[0]] + ids[1..];
      InsertIdSorts(x, ids[1..]);
      var t := InsertId(x, ids[1..]);
      NotBoth(ids[0], x);
      forall j | 0 <= j < |t|
        ensures !Below(t[j], ids[0])
      {
        assert t[j] in multiset(t);
        if t[j] != x {
          assert t[j] in multiset(ids[1..]);
          var i :| 0 <= i < |ids[1..]| && ids[1..][i] == t[j];
          assert !Below(ids[i + 1], ids[0]);
        }
      }
    }
  }

  lemma SmallestFirst(ids: seq<Hash>, j: nat, x: Hash)
    requires Sorted(ids) && j < |ids| && !Below(ids[0], x)
    ensures !Below(ids[j], x)
  {
    if Below(ids[j], x) && j > 0 {
      BelowTotal(ids[0], ids[j]);
      if Below(ids[0], ids[j]) {
        BelowTransitive(ids[0], ids[j], x);
      }
    }
  }

  lemma {:induction false} SortIdsSorts(ids: seq<Hash>)
    ensures Sorted(SortIds(ids)) && multiset(SortIds(ids)) == multiset(ids)
  {
    hide InsertId, Sorted;
    if ids == [] {
      EmptySorted();
    } else {
      SortIdsSorts(ids[1..]);
      InsertIdSorts(ids[0], SortIds(ids[1..]));
      assert ids == [ids[0]] + ids[1..];
    }
  }

  lemma EmptySorted()
    ensures Sorted([])
  {
  }

  /** The identifiers of the applied events that carry a payload, in the order applied. */
  function ConfirmedIDs(applied: seq<Built>): seq<Hash> {
    if applied == [] then []
    else (if applied[0].event.payload != [] then [applied[0].id] else []) + ConfirmedIDs(applied[1..])
  }

  lemma {:induction false} ConfirmedConcat(a: seq<Built>, b: seq<Built>)
    ensures ConfirmedIDs(a + b) == ConfirmedIDs(a) + ConfirmedIDs(b)
  {
    if a == [] {
      assert a + b == b;
    } else {
      assert (a + b)[1..] == a[1..] + b;
      ConfirmedConcat(a[1..], b);
    }
  }

  lemma Without(b: seq<Built>, i: nat)
    requires i < |b|
    ensures multiset(b[..i] + b[i + 1..]) == multiset(b) - multiset{b[i]}
  {
    assert b == b[..i] + [b[i]] + b[i + 1..];
  }

  lemma ConfirmedWithout(b: seq<Built>, i: nat)
    requires i < |b|
    ensures multiset(ConfirmedIDs(b)) == multiset(ConfirmedIDs(b[..i] + b[i + 1..])) + multiset(ConfirmedIDs([b[i]]))
  {
    hide ConfirmedIDs;
    var u, v := b[..i], b[i + 1..];
    assert b == u + ([b[i]] + v);
    ConfirmedConcat(u, [b[i]] + v);
    ConfirmedConcat([b[i]], v);
    ConfirmedConcat(u, v);
  }

  /** Takes the first event of a permutation out of both. */
  lemma Unpermuted(a: seq<Built>, b: seq<Built>) returns (rest: seq<Built>)
    requires multiset(a) == multiset(b) && a != []
    ensures multiset(a[1..]) == multiset(rest)
    ensures multiset(ConfirmedIDs(b)) == multiset(ConfirmedIDs(rest)) + multiset(ConfirmedIDs([a[0]]))
  {
    hide ConfirmedIDs;
    assert a[0] in multiset(b);
    var i :| 0 <= i < |b| && b[i] == a[0];
    rest := b[..i] + b[i + 1..];
    Without(b, i);
    ConfirmedWithout(b, i);
    assert a == [a[0]] + a[1..];
  }

  lemma {:induction false} ConfirmedPermuted(a: seq<Built>, b: seq<Built>)
    requires multiset(a) == multiset(b)
    ensures multiset(ConfirmedIDs(a)) == multiset(ConfirmedIDs(b))
    decreases |a|
  {
    hide ConfirmedIDs;
    if a == [] {
      assert |multiset(b)| == 0;
    } else {
      var rest := Unpermuted(a, b);
      ConfirmedPermuted(a[1..], rest);
      assert a == [a[0]] + a[1..];
      ConfirmedConcat([a[0]], a[1..]);
    }
  }

  /** The event list of a block is the same for every order of application. */
  lemma BlockEventsOrderFree(a: seq<Built>, b: seq<Built>)
    requires multiset(a) == multiset(b)
    ensures SortIds(ConfirmedIDs(a)) == SortIds(ConfirmedIDs(b))
  {
    ConfirmedPermuted(a, b);
    SortIdsSorts(ConfirmedIDs(a));
    SortIdsSorts(ConfirmedIDs(b));
    SortedUnique(SortIds(ConfirmedIDs(a)), SortIds(ConfirmedIDs(b)));
  }

  // ---------- identifiers and Lamport times ----------

  lemma {:induction false} BelowPrefix(p: seq<byte>, a: seq<byte>, b: seq<byte>)
    ensures Below(p + a, p + b) == Below(a, b)
  {
    if p == [] {
      assert p + a == a && p + b == b;
    } else {
      assert (p + a)[1..] == p[1..] + a && (p + b)[1..] == p[1..] + b;
      BelowPrefix(p[1..], a, b);
    }
  }

  lemma {:induction false} BelowAt(a: seq<byte>, b: seq<byte>, k: nat)
    requires k < |a| && k < |b| && a[..k] == b[..k] && a[k] < b[k]
    ensures Below(a, b)
  {
    if k == 0 {
    } else {
      assert a[0] == a[..k][0] && b[0] == b[..k][0];
      assert a[1..][..k - 1] == a[..k][1..] && b[1..][..k - 1] == b[..k][1..];
      BelowAt(a[1..], b[1..], k - 1);
    }
  }

  /** The first byte in which two big-endian numbers differ is larger in the larger number. */
  lemma BeDiffer(x: nat, y: nat) returns (k: nat)
    requires x < y < U32
    ensures k < 4 && Be32(x)[..k] == Be32(y)[..k] && Be32(x)[k] < Be32(y)[k]
  {
    hide Be32;
    BeValue(x);
    BeValue(y);
    var a, b := Be32(x), Be32(y);
    k := if a[0] != b[0] then 0 else if a[1] != b[1] then 1 else if a[2] != b[2] then 2 else 3;
  }

  /** Big-endian bytes compare like the numbers. */
  lemma BeBelow(x: nat, y: nat, u: seq<byte>, v: seq<byte>)
    requires x < y < U32
    ensures Below(Be32(x) + u, Be32(y) + v)
  {
    hide Below, Be32;
    var k := BeDiffer(x, y);
    var a, b := Be32(x) + u, Be32(y) + v;
    assert a[..k] == Be32(x)[..k] && b[..k] == Be32(y)[..k];
    BelowAt(a, b, k);
  }

  lemma IdBelow(epoch: nat, x: nat, y: nat, h: Hash, g: Hash)
    requires x < y < U32
    ensures Below(EventId(epoch, x, h), EventId(epoch, y, g))
  {
    hide Below, Be32;
    var a, b := Be32(x) + h[..24], Be32(y) + g[..24];
    BeBelow(x, y, h[..24], g[..24]);
    BelowPrefix(Be32(epoch), a, b);
    assert EventId(epoch, x, h) == Be32(epoch) + a && EventId(epoch, y, g) == Be32(epoch) + b;
  }

  /** Identifiers of one epoch in order have their Lamport times in order. */
  lemma IdOrderIsLamportOrder(epoch: nat, x: nat, y: nat, h: Hash, g: Hash)
    requires x < U32 && y < U32
    requires !Below(EventId(epoch, y, g), EventId(epoch, x, h))
    ensures x <= y
  {
    if y < x {
      IdBelow(epoch, y, x, g, h);
    }
  }

  /** The identifier was made from the event's epoch and Lamport time and some hash. */
  ghost predicate Identified(e: Built) {
    Typed(e.event) && exists h: Hash :: e.id == EventId(e.event.epoch, e.event.lamport, h)
  }

  ghost predicate OfOneEpoch(x: Built, y: Built) {
    Identified(x) && Identified(y) && x.event.epoch == y.event.epoch
  }

  /** A sorted list of identifiers lists events of one epoch by Lamport time. */
  lemma SortedByLamport(ids: seq<Hash>, i: nat, j: nat, x: Built, y: Built)
    requires Sorted(ids) && i < j < |ids| && x.id == ids[i] && y.id == ids[j]
    requires OfOneEpoch(x, y)
    ensures x.event.lamport <= y.event.lamport
  {
    hide Below;
    var h: Hash :| x.id == EventId(x.event.epoch, x.event.lamport, h);
    var g: Hash :| y.id == EventId(y.event.epoch, y.event.lamport, g);
    IdOrderIsLamportOrder(x.event.epoch, x.event.lamport, y.event.lamport, h, g);
  }

  /** The collected identifiers are those of the applied events with a payload. */
  lemma {:induction false} ConfirmedIff(applied: seq<Built>, id: Hash)
    ensures id in ConfirmedIDs(applied) <==> exists e :: e in applied && e.event.payload != [] && e.id == id
  {
    if applied == [] {
    } else {
      ConfirmedIff(applied[1..], id);
    }
  }
}
