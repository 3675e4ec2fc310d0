/** The specification of the weighted selection tree of `gossip/randselect.go`: a flat row
    of slots.  A tree of depth d is a fast index over 8^d slots; inserting takes the first
    free slot, and choosing a value walks the prefix sums of the weights. */
module WeightedSlots {

  datatype Slot<T> = Free | Used(item: T, weight: nat)

  function WeightOf<T>(s: Slot<T>): nat {
    if s.Used? then s.weight else 0
  }

  /** The total weight of a row. */
  function Sum<T>(s: seq<Slot<T>>): nat {
    if s == [] then 0 else WeightOf(s[0]) + Sum(s[1..])
  }

  function Tick<T>(s: Slot<T>): nat {
    if s.Used? then 1 else 0
  }

  /** How many slots of a row are used. */
  function Count<T>(s: seq<Slot<T>>): nat {
    if s == [] then 0 else Tick(s[0]) + Count(s[1..])
  }

  /** The index of the first free slot, or the length of the row when it is full. */
  function FirstFree<T>(s: seq<Slot<T>>): (k: nat)
    ensures k <= |s|
    ensures forall i :: 0 <= i < k ==> s[i].Used?
    ensures k < |s| ==> s[k].Free?
  {
    if s == [] || s[0].Free? then 0 else 1 + FirstFree(s[1..])
  }

  /** The slot in whose share of [0, Sum) the value lies. */
  function Pick<T>(s: seq<Slot<T>>, val: nat): (k: nat)
    requires val < Sum(s)
    ensures k < |s| && s[k].Used? && 0 < s[k].weight
  {
    if val < WeightOf(s[0]) then 0 else 1 + Pick(s[1..], val - WeightOf(s[0]))
  }

  function Frees<T>(n: nat): (s: seq<Slot<T>>)
    ensures |s| == n && forall i :: 0 <= i < n ==> s[i] == Free
  {
    seq(n, _ => Free)
  }

  /** Rows side by side. */
  function Flat<T>(parts: seq<seq<Slot<T>>>): seq<Slot<T>> {
    if parts == [] then [] else parts[0] + Flat(parts[1..])
  }

  /** All rows have the same length. */
  ghost predicate Even<T>(parts: seq<seq<Slot<T>>>, m: nat) {
    forall i :: 0 <= i < |parts| ==> |parts[i]| == m
  }

  // ---------- rows and concatenation ----------

  lemma {:induction false} ConcatSums<T>(a: seq<Slot<T>>, b: seq<Slot<T>>)
    ensures Sum(a + b) == Sum(a) + Sum(b)
    ensures Count(a + b) == Count(a) + Count(b)
  {
    if a == [] {
      assert a + b == b;
    } else {
      assert (a + b)[1..] == a[1..] + b;
      ConcatSums(a[1..], b);
    }
  }

  lemma {:induction false} FreesAreWeightless<T>(n: nat)
    ensures Sum(Frees<T>(n)) == 0 && Count(Frees<T>(n)) == 0
  {
    if n == 0 {
    } else {
      assert Frees<T>(n)[1..] == Frees<T>(n - 1);
      FreesAreWeightless<T>(n - 1);
    }
  }

  /** A row is full exactly when it has no free slot. */
  lemma {:induction false} FullIffNoFree<T>(s: seq<Slot<T>>)
    ensures Count(s) <= |s|
    ensures Count(s) == |s| <==> FirstFree(s) == |s|
  {
    if s == [] {
    } else {
      FullIffNoFree(s[1..]);
    }
  }

  /** Changing one slot changes the sums by that slot's difference. */
  lemma {:induction false} UpdateSums<T>(s: seq<Slot<T>>, k: nat, x: Slot<T>)
    requires k < |s|
    ensures Sum(s[k := x]) == Sum(s) - WeightOf(s[k]) + WeightOf(x)
    ensures Count(s[k := x]) == Count(s) - Tick(s[k]) + Tick(x)
  {
    if k == 0 {
      assert s[k := x] == [x] + s[1..];
    } else {
      assert s[k := x] == [s[0]] + s[1..][k - 1 := x];
      UpdateSums(s[1..], k - 1, x);
    }
  }

  lemma {:induction false} PickConcat<T>(a: seq<Slot<T>>, b: seq<Slot<T>>, val: nat)
    requires val < Sum(a + b)
    ensures Sum(a + b) == Sum(a) + Sum(b)
    ensures Pick(a + b, val) == if val < Sum(a) then Pick(a, val) else |a| + Pick(b, val - Sum(a))
  {
    ConcatSums(a, b);
    if a == [] {
      assert a + b == b;
    } else {
      PickConcat1(a, b, val);
      var w := WeightOf(a[0]);
      if w <= val {
        ConcatSums(a[1..], b);
        PickConcat(a[1..], b, val - w);
      }
    }
  }

  /** One step of the search on a concatenation. */
  lemma PickConcat1<T>(a: seq<Slot<T>>, b: seq<Slot<T>>, val: nat)
    requires val < Sum(a + b) && a != []
    ensures Sum(a + b) == WeightOf(a[0]) + Sum(a[1..] + b)
    ensures Pick(a + b, val) == if val < WeightOf(a[0]) then 0 else 1 + Pick(a[1..] + b, val - WeightOf(a[0]))
  {
    assert (a + b)[0] == a[0] && (a + b)[1..] == a[1..] + b;
  }

  // ---------- branches of a node ----------

  /** The sums of the branches a node has walked past. */
  function SumParts<T>(parts: seq<seq<Slot<T>>>): nat {
    if parts == [] then 0 else Sum(parts[0]) + SumParts(parts[1..])
  }

  lemma {:induction false} FlatSums<T>(parts: seq<seq<Slot<T>>>, m: nat)
    requires Even(parts, m)
    ensures |Flat(parts)| == |parts| * m
    ensures Sum(Flat(parts)) == SumParts(parts)
  {
    if parts == [] {
    } else {
      FlatSums(parts[1..], m);
      ConcatSums(parts[0], Flat(parts[1..]));
      Times(|parts|, m);
    }
  }

  lemma Times(b: nat, m: nat)
    requires 0 < b
    ensures b * m == m + (b - 1) * m
  {
  }

  /** Slot k of branch b is slot b*m+k of the node. */
  lemma {:induction false} FlatIndex<T>(parts: seq<seq<Slot<T>>>, m: nat, b: nat, k: nat)
    requires Even(parts, m) && b < |parts| && k < m
    ensures b * m + k < |Flat(parts)| && Flat(parts)[b * m + k] == parts[b][k]
  {
    FlatSums(parts, m);
    if b == 0 {
    } else {
      FlatIndex(parts[1..], m, b - 1, k);
      Times(b, m);
      assert Flat(parts)[b * m + k] == Flat(parts[1..])[(b - 1) * m + k];
    }
  }

  lemma {:induction false} FlatUpdate<T>(parts: seq<seq<Slot<T>>>, m: nat, b: nat, k: nat, x: Slot<T>)
    requires Even(parts, m) && b < |parts| && k < m
    ensures b * m + k < |Flat(parts)|
    ensures Flat(parts[b := parts[b][k := x]]) == Flat(parts)[b * m + k := x]
  {
    FlatIndex(parts, m, b, k);
    var p := parts[b := parts[b][k := x]];
    if b == 0 {
      assert p[1..] == parts[1..];
    } else {
      FlatUpdate(parts[1..], m, b - 1, k, x);
      assert p[1..] == parts[1..][b - 1 := parts[b][k := x]];
      Times(b, m);
      assert Flat(p) == parts[0] + Flat(parts[1..])[(b - 1) * m + k := x];
      assert Flat(parts)[b * m + k := x] == parts[0] + Flat(parts[1..])[(b - 1) * m + k := x];
    }
  }

  /** A node's counters agree with the slots below its branches. */
  ghost predicate Tallied<T>(parts: seq<seq<Slot<T>>>, m: nat, weights: seq<int>, sum: int, cnt: int) {
    && |weights| == |parts|
    && Even(parts, m)
    && (forall i :: 0 <= i < |parts| ==> weights[i] == Sum(parts[i]))
    && sum == Sum(Flat(parts))
    && cnt == Count(Flat(parts))
  }

  /** Writing slot k of branch b and adding the difference to the counters keeps them right. */
  lemma {:induction false} TalliedUpdate<T>(parts: seq<seq<Slot<T>>>, m: nat, weights: seq<int>, sum: int, cnt: int,
                                            b: nat, k: nat, x: Slot<T>)
    requires Tallied(parts, m, weights, sum, cnt) && b < |parts| && k < m
    ensures b * m + k < |Flat(parts)| && Flat(parts)[b * m + k] == parts[b][k]
    ensures var was, p := parts[b][k], parts[b := parts[b][k := x]];
      var diff := WeightOf(x) - WeightOf(was);
      && Flat(p) == Flat(parts)[b * m + k := x]
      && Tallied(p, m, weights[b := weights[b] + diff], sum + diff, cnt - Tick(was) + Tick(x))
  {
    FlatIndex(parts, m, b, k);
    FlatUpdate(parts, m, b, k, x);
    UpdateSums(parts[b], k, x);
    UpdateSums(Flat(parts), b * m + k, x);
  }

  /** The first free slot of a node lies in its first branch with room. */
  lemma {:induction false} FlatFirstFree<T>(parts: seq<seq<Slot<T>>>, m: nat, b: nat)
    requires Even(parts, m) && b < |parts|
    requires forall j :: 0 <= j < b ==> FirstFree(parts[j]) == m
    requires FirstFree(parts[b]) < m
    ensures FirstFree(Flat(parts)) == b * m + FirstFree(parts[b])
  {
    var s, f := Flat(parts), FirstFree(Flat(parts));
    FlatSums(parts, m);
    var k := FirstFree(parts[b]);
    FlatIndex(parts, m, b, k);
    FlatUsedBefore(parts, m, b, k);
  }

  lemma {:induction false} FlatUsedBefore<T>(parts: seq<seq<Slot<T>>>, m: nat, b: nat, k: nat)
    requires Even(parts, m) && b < |parts| && k < m
    requires forall j :: 0 <= j < b ==> FirstFree(parts[j]) == m
    requires forall i :: 0 <= i < k ==> parts[b][i].Used?
    ensures b * m + k < |Flat(parts)|
    ensures forall i :: 0 <= i < b * m + k ==> Flat(parts)[i].Used?
  {
    FlatIndex(parts, m, b, k);
    if b == 0 {
    } else {
      FlatUsedBefore(parts[1..], m, b - 1, k);
      Times(b, m);
      assert FirstFree(parts[0]) == m;
    }
  }

  /** A node whose branches are all full is full. */
  lemma {:induction false} FlatFull<T>(parts: seq<seq<Slot<T>>>, m: nat)
    requires Even(parts, m)
    requires forall j :: 0 <= j < |parts| ==> FirstFree(parts[j]) == m
    ensures FirstFree(Flat(parts)) == |Flat(parts)|
  {
    if parts == [] {
    } else {
      FlatFull(parts[1..], m);
      assert FirstFree(parts[0]) == m;
      assert forall i :: 0 <= i < |Flat(parts)| ==> Flat(parts)[i].Used?;
    }
  }

  /** Walking past the first b branches and then picking in branch b is picking in the node. */
  lemma {:induction false} FlatPick<T>(parts: seq<seq<Slot<T>>>, m: nat, b: nat, val: nat)
    requires Even(parts, m) && b < |parts|
    requires val < Sum(parts[b])
    ensures SumParts(parts[..b]) + val < Sum(Flat(parts))
    ensures Pick(parts[b], val) < m
    ensures Pick(Flat(parts), SumParts(parts[..b]) + val) == b * m + Pick(parts[b], val)
  {
    var rest := Flat(parts[1..]);
    ConcatSums(parts[0], rest);
    if b == 0 {
      PickConcat(parts[0], rest, val);
    } else {
      var before := SumParts(parts[1..][..b - 1]);
      assert parts[1..][..b - 1] == parts[..b][1..];
      assert SumParts(parts[..b]) == Sum(parts[0]) + before;
      FlatPick(parts[1..], m, b - 1, val);
      PickConcat(parts[0], rest, Sum(parts[0]) + before + val);
      Times(b, m);
    }
  }

  lemma {:induction false} SumPartsSnoc<T>(parts: seq<seq<Slot<T>>>, b: nat)
    requires b < |parts|
    ensures SumParts(parts[..b + 1]) == SumParts(parts[..b]) + Sum(parts[b])
  {
    if b == 0 {
    } else {
      assert parts[..b + 1][1..] == parts[1..][..b];
      assert parts[..b][1..] == parts[1..][..b - 1];
      SumPartsSnoc(parts[1..], b - 1);
    }
  }

  // ---------- fairness ----------

  /** The interval of values that select slot k starts after all earlier weights. */
  lemma {:induction false} PickInterval<T>(s: seq<Slot<T>>, k: nat, val: nat)
    requires k < |s| && val < Sum(s)
    ensures Pick(s, val) == k <==> Sum(s[..k]) <= val < Sum(s[..k]) + WeightOf(s[k])
  {
    if k == 0 {
      assert s[..0] == [];
    } else {
      assert s[..k][1..] == s[1..][..k - 1];
      if WeightOf(s[0]) <= val {
        PickInterval(s[1..], k - 1, val - WeightOf(s[0]));
      }
    }
  }

  /** The n values from lo on. */
  ghost function Interval(lo: nat, n: nat): (r: set<nat>)
    ensures |r| == n && forall v :: v in r <==> lo <= v < lo + n
  {
    if n == 0 then {} else Interval(lo, n - 1) + {lo + n - 1}
  }

  /** The random values that select slot k. */
  ghost function Selecting<T>(s: seq<Slot<T>>, k: nat): set<nat> {
    set val: nat | 0 <= val < Sum(s) && Pick(s, val) == k
  }

  /** Fairness: exactly `weight` of the Sum(s) equally likely random values select a slot. */
  lemma {:induction false} SelectedInProportion<T>(s: seq<Slot<T>>, k: nat)
    requires k < |s|
    ensures |Selecting(s, k)| == WeightOf(s[k])
  {
    var lo := Sum(s[..k]);
    assert s == s[..k] + ([s[k]] + s[k + 1..]);
    ConcatSums(s[..k], [s[k]] + s[k + 1..]);
    assert lo + WeightOf(s[k]) <= Sum(s);
    forall v: nat | v < Sum(s)
      ensures Pick(s, v) == k <==> lo <= v < lo + WeightOf(s[k])
    {
      PickInterval(s, k, v);
    }
    assert Selecting(s, k) == Interval(lo, WeightOf(s[k]));
  }

  ghost function Pairs(a: set<nat>, b: set<nat>): set<(nat, nat)> {
    set x, y | x in a && y in b :: (x, y)
  }

  lemma {:induction false} PairsSize(a: set<nat>, b: set<nat>)
    ensures |Pairs(a, b)| == |a| * |b|
  {
    if a == {} {
      assert Pairs(a, b) == {};
    } else {
      var x :| x in a;
      var rest := a - {x};
      PairsSize(rest, b);
      PairsWith(x, b);
      assert Pairs(a, b) == Pairs(rest, b) + Pairs({x}, b) && Pairs(rest, b) !! Pairs({x}, b);
      assert |rest| == |a| - 1;
      Times(|a|, |b|);
    }
  }

  lemma {:induction false} PairsWith(x: nat, b: set<nat>)
    ensures |Pairs({x}, b)| == |b|
  {
    if b == {} {
      assert Pairs({x}, b) == {};
    } else {
      var y :| y in b;
      PairsWith(x, b - {y});
      assert Pairs({x}, b) == Pairs({x}, b - {y}) + {(x, y)};
    }
  }

  /** The pairs of random numbers, drawn below Sum(s) and below the stored weight, with which
      slot k is drawn and then kept although its item now only weighs `current`. */
  ghost function Keeping<T>(s: seq<Slot<T>>, k: nat, current: nat): set<(nat, nat)>
    requires k < |s|
  {
    set val, r | val in Selecting(s, k) && r in Interval(0, WeightOf(s[k])) &&
                 (current >= WeightOf(s[k]) || r < current) :: (val, r)
  }

  /** Rejection keeps the choice fair: out of Sum(s) * stored pairs, stored * current keep an item
      whose weight has dropped to `current`, so it is chosen with chance current / Sum(s). */
  lemma KeptInProportion<T>(s: seq<Slot<T>>, k: nat, current: nat)
    requires k < |s|
    ensures |Keeping(s, k, current)| == WeightOf(s[k]) * (if current < WeightOf(s[k]) then current else WeightOf(s[k]))
  {
    var n := if current < WeightOf(s[k]) then current else WeightOf(s[k]);
    SelectedInProportion(s, k);
    PairsSize(Selecting(s, k), Interval(0, n));
    assert Keeping(s, k, current) == Pairs(Selecting(s, k), Interval(0, n));
  }

  /** A row whose used slots all weigh something is empty exactly when it weighs nothing. */
  lemma {:induction false} WeightlessIsEmpty<T>(s: seq<Slot<T>>)
    requires forall i :: 0 <= i < |s| && s[i].Used? ==> 0 < s[i].weight
    ensures Sum(s) == 0 <==> forall i :: 0 <= i < |s| ==> s[i].Free?
  {
    if s == [] {
    } else {
      WeightlessIsEmpty(s[1..]);
      assert forall i :: 0 < i < |s| ==> s[i] == s[1..][i - 1];
    }
  }

  // ---------- the set a row stands for ----------

  /** idx is exactly the index of the items stored in the row, and all their weights are positive. */
  ghost predicate Indexed<T>(s: seq<Slot<T>>, idx: map<T, nat>) {
    && (forall t :: t in idx ==> idx[t] < |s| && s[idx[t]].Used? && s[idx[t]].item == t && 0 < s[idx[t]].weight)
    && (forall i :: 0 <= i < |s| && s[i].Used? ==> s[i].item in idx && idx[s[i].item] == i)
  }

  /** The map from item to weight that an indexed row stands for. */
  ghost function Stored<T>(s: seq<Slot<T>>, idx: map<T, nat>): map<T, nat>
    requires Indexed(s, idx)
  {
    map t | t in idx :: s[idx[t]].weight
  }

  /** Setting a weight on the map: zero removes the item. */
  function Put<T>(w: map<T, nat>, item: T, weight: nat): map<T, nat> {
    if weight == 0 then w - {item} else w[item := weight]
  }

  /** Writing a fresh item into a free slot, and writing or freeing the slot of a stored item,
      are both `Put` on the map. */
  lemma WriteIsPut<T>(s: seq<Slot<T>>, idx: map<T, nat>, k: nat, item: T, weight: nat)
    requires Indexed(s, idx) && k < |s|
    requires if item in idx then k == idx[item] else s[k].Free? && weight != 0
    ensures var s', idx' := s[k := if weight == 0 then Free else Used(item, weight)],
                            if weight == 0 then idx - {item} else idx[item := k];
      Indexed(s', idx') && Stored(s', idx') == Put(Stored(s, idx), item, weight)
  {
  }

  lemma AppendFrees<T>(s: seq<Slot<T>>, idx: map<T, nat>, n: nat)
    requires Indexed(s, idx)
    ensures Indexed(s + Frees(n), idx) && Stored(s + Frees(n), idx) == Stored(s, idx)
  {
  }

  /** The set is empty exactly when its row weighs nothing. */
  lemma EmptyIffWeightless<T>(s: seq<Slot<T>>, idx: map<T, nat>)
    requires Indexed(s, idx)
    ensures Sum(s) == 0 <==> Stored(s, idx) == map[]
  {
    WeightlessIsEmpty(s);
    assert forall t :: t in idx ==> t in Stored(s, idx);
    if Sum(s) != 0 {
      var i :| 0 <= i < |s| && !s[i].Free?;
      assert s[i].item in Stored(s, idx);
    }
  }

  /** The random values that choose an item. */
  ghost function Choosing<T>(s: seq<Slot<T>>, item: T): set<nat> {
    set val: nat | 0 <= val < Sum(s) && s[Pick(s, val)].item == item
  }

  /** Fairness, for the map: an item of weight w is chosen by exactly w random values. */
  lemma StoredInProportion<T>(s: seq<Slot<T>>, idx: map<T, nat>, item: T)
    requires Indexed(s, idx) && item in idx
    ensures |Choosing(s, item)| == Stored(s, idx)[item]
  {
    SelectedInProportion(s, idx[item]);
    assert Choosing(s, item) == Selecting(s, idx[item]);
  }
}
