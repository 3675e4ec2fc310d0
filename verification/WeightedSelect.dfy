/** Model of `gossip/randselect.go`: the 8-ary selection tree and the weighted random set
    built on it, proved against the flat row of slots of WeightedSlots. */
module WeightedSelect {
  import Numbers
  import opened Options
  import opened WeightedChance
  import opened WeightedSlots

  const BRANCHES := 8

  /** The number of slots below one branch of a node of a level; the node has eight times as many. */
  function Width(level: nat): (n: nat)
    ensures 1 <= n
  {
    if level == 0 then 1 else BRANCHES * Width(level - 1)
  }

  lemma {:induction false} FlatFrees<T>(parts: seq<seq<Slot<T>>>, m: nat)
    requires forall i :: 0 <= i < |parts| ==> parts[i] == Frees(m)
    ensures Flat(parts) == Frees(|parts| * m)
  {
    if parts == [] {
    } else {
      FlatFrees(parts[1..], m);
      Times(|parts|, m);
      assert Frees<T>(|parts| * m) == Frees(m) + Frees((|parts| - 1) * m);
    }
  }

  /** What a branch of a node holds. */
  datatype Branch<T> = Nil | Leaf(item: T) | Sub(node: Node<T>)

  class Node<T(==)> {
    var items: seq<Branch<T>>
    var weights: seq<int>
    var sumWeight: int
    var level: nat
    var itemCnt: int
    var maxItems: int

    /** The slots below each branch; a branch of a leaf node is one slot wide. */
    ghost var parts: seq<seq<Slot<T>>>
    ghost var Repr: set<Node<T>>

    /** The row of slots this node indexes. */
    ghost function Slots(): seq<Slot<T>>
      reads this
    {
      Flat(parts)
    }

    ghost predicate Counted()
      reads this
    {
      && |items| == |parts| == BRANCHES
      && maxItems == BRANCHES * Width(level)
      && Tallied(parts, Width(level), weights, sumWeight, itemCnt)
      && |Slots()| == maxItems
    }

    /** Branch i is the single slot of a leaf node, an absent subtree, or the slots of a subtree. */
    ghost predicate BranchOk(i: nat)
      requires i < |items| == |parts|
      reads this, if i < |items| && items[i].Sub? then {items[i].node} else {}
    {
      match items[i]
      case Nil => parts[i] == Frees(Width(level))
      case Leaf(item) => level == 0 && |parts[i]| == 1 && parts[i][0].Used? && parts[i][0].item == item
      case Sub(c) =>
        && c.level == level - 1
        && c in Repr && c.Repr <= Repr && this !in c.Repr
        && parts[i] == c.Slots()
    }

    /** Sound except that the subtree of branch b may already have moved on. */
    ghost predicate ValidBut(b: nat)
      reads this, Repr
    {
      && this in Repr
      && Counted()
      && (forall i :: 0 <= i < BRANCHES && i != b && items[i].Sub? ==>
            items[i].node in Repr && items[i].node.Repr <= Repr && items[i].node.level < level && items[i].node.Valid())
      && (forall i :: 0 <= i < BRANCHES && i != b ==> BranchOk(i))
      && (forall i, j :: 0 <= i < j < BRANCHES && i != b && j != b && items[i].Sub? && items[j].Sub? ==>
            items[i].node.Repr !! items[j].node.Repr)
    }

    ghost predicate Valid()
      reads this, Repr
      ensures Valid() ==> this in Repr
      decreases level
    {
      && this in Repr
      && Counted()
      && (forall i :: 0 <= i < BRANCHES && items[i].Sub? ==>
            items[i].node in Repr && items[i].node.Repr <= Repr && items[i].node.level < level && items[i].node.Valid())
      && (forall i :: 0 <= i < BRANCHES ==> BranchOk(i))
      && (forall i, j :: 0 <= i < j < BRANCHES && items[i].Sub? && items[j].Sub? ==>
            items[i].node.Repr !! items[j].node.Repr)
    }

    /** A node without items, as `newWeightedRandomSelect` and `insert` make them. */
    constructor Empty(level: nat, maxItems: int)
      requires maxItems == BRANCHES * Width(level)
      ensures Valid() && fresh(Repr)
      ensures this.level == level && this.maxItems == maxItems
      ensures Slots() == Frees(maxItems)
    {
      this.items := seq(BRANCHES, _ => Nil);
      this.weights := seq(BRANCHES, _ => 0);
      this.sumWeight, this.itemCnt := 0, 0;
      this.level, this.maxItems := level, maxItems;
      this.parts := seq(BRANCHES, _ => Frees(Width(level)));
      this.Repr := {this};
      new;
      FreesAreWeightless<T>(Width(level));
      FlatFrees(parts, Width(level));
      FreesAreWeightless<T>(maxItems);
    }

    /** A root one level above a full root: the old slots come first. */
    constructor Above(below: Node<T>)
      requires below.Valid()
      ensures Valid() && fresh(Repr - below.Repr)
      ensures level == below.level + 1 && maxItems == BRANCHES * below.maxItems
      ensures sumWeight == below.sumWeight && itemCnt == below.itemCnt
      ensures Slots() == below.Slots() + Frees(7 * below.maxItems)
    {
      var sum, m := below.sumWeight, below.maxItems;
      this.items := seq(BRANCHES, i => if i == 0 then Sub(below) else Nil);
      this.weights := seq(BRANCHES, i => if i == 0 then sum else 0);
      this.sumWeight, this.itemCnt := sum, below.itemCnt;
      this.level, this.maxItems := below.level + 1, m * BRANCHES;
      this.parts := [below.Slots()] + seq(7, _ => Frees(m));
      this.Repr := {this} + below.Repr;
      new;
      FreesAreWeightless<T>(m);
      FreesAreWeightless<T>(7 * m);
      assert parts[1..] == seq(7, _ => Frees<T>(m));
      FlatFrees(parts[1..], m);
      ConcatSums(below.Slots(), Frees<T>(7 * m));
    }

    /** `insert` skips a branch exactly when it has no free slot. */
    lemma SkippedIffFull(i: nat)
      requires Valid() && i < BRANCHES
      ensures items[i].Sub? ==> items[i].node in Repr
      ensures level > 0 ==> !items[i].Leaf?
      ensures (!items[i].Nil? && (level == 0 || items[i].node.itemCnt == items[i].node.maxItems))
          <==> FirstFree(parts[i]) == Width(level)
    {
      assert BranchOk(i);
      FullIffNoFree(parts[i]);
      assert 1 <= |parts[i]| == Width(level);
      match items[i] {
        case Nil => assert parts[i][0].Free? && FirstFree(parts[i]) == 0;
        case Leaf(_) => assert parts[i][0].Used? && FirstFree(parts[i]) == 1;
        case Sub(c) => assert c.Valid(); assert c.Counted() && c.maxItems == |parts[i]|;
      }
    }

    /** The field updates of one step of `insert` or `setWeight`. */
    method Write(b: nat, branch: Branch<T>, diff: int, count: int, ghost part: seq<Slot<T>>, ghost more: set<Node<T>>)
      requires b < |items| == |weights| == |parts|
      modifies this
      ensures items == old(items)[b := branch] && weights == old(weights)[b := old(weights)[b] + diff]
      ensures sumWeight == old(sumWeight) + diff && itemCnt == old(itemCnt) + count
      ensures level == old(level) && maxItems == old(maxItems)
      ensures parts == old(parts)[b := part] && Repr == old(Repr) + more
    {
      itemCnt := itemCnt + count;
      sumWeight := sumWeight + diff;
      weights := weights[b := weights[b] + diff];
      items := items[b := branch];
      parts := parts[b := part];
      Repr := Repr + more;
    }

    /** The same, with the counters right for the changed slot. */
    method Recount(b: nat, branch: Branch<T>, diff: int, count: int, ghost k: nat, ghost x: Slot<T>, ghost more: set<Node<T>>)
      requires Counted() && b < BRANCHES && k < |parts[b]|
      requires diff == WeightOf(x) - WeightOf(parts[b][k]) && count == Tick(x) - Tick(parts[b][k])
      modifies this
      ensures Counted() && items == old(items)[b := branch] && level == old(level) && maxItems == old(maxItems)
      ensures parts == old(parts)[b := old(parts)[b][k := x]] && Repr == old(Repr) + more
      ensures b * Width(level) + k < |old(Slots())| && Slots() == old(Slots())[b * Width(level) + k := x]
    {
      hide Flat, Sum, Count, Tallied;
      EvenParts();
      TalliedUpdate(parts, Width(level), weights, sumWeight, itemCnt, b, k, x);
      Write(b, branch, diff, count, parts[b][k := x], more);
    }

    lemma EvenParts()
      requires Counted()
      ensures |weights| == BRANCHES && forall i :: 0 <= i < BRANCHES ==> |parts[i]| == Width(level)
    {
      hide Flat, Sum, Count;
    }

    /** Installs the contents of branch b after slot k below it went from `was` to x, and adds
        the difference to the counters of this node. */
    method Install(b: nat, branch: Branch<T>, diff: int, count: int, ghost k: nat, ghost was: Slot<T>, ghost x: Slot<T>)
      requires ValidBut(b) && b < BRANCHES && k < |parts[b]| && parts[b][k] == was
      requires diff == WeightOf(x) - WeightOf(was) && count == Tick(x) - Tick(was)
      requires match branch
        case Nil => level == 0 && x == Free
        case Leaf(item) => level == 0 && x.Used? && x.item == item
        case Sub(c) => level > 0 && c.Valid() && this !in c.Repr && c.level == level - 1 && c.Slots() == parts[b][k := x]
      requires branch.Sub? ==> forall i :: 0 <= i < BRANCHES && i != b && items[i].Sub? ==> items[i].node.Repr !! branch.node.Repr
      modifies this
      ensures Valid() && Repr == old(Repr) + (if branch.Sub? then branch.node.Repr else {})
      ensures level == old(level) && maxItems == old(maxItems)
      ensures b * Width(level) + k < |old(Slots())| && Slots() == old(Slots())[b * Width(level) + k := x]
    {
      hide Flat, Sum, Count, Tallied;
      EvenParts();
      assert level == 0 ==> parts[b][k := x] == [x] && [Free] == Frees<T>(Width(level));
      Recount(b, branch, diff, count, k, x, if branch.Sub? then branch.node.Repr else {});
      assert BranchOk(b);
      forall i | 0 <= i < BRANCHES
        ensures BranchOk(i) && (items[i].Sub? ==> items[i].node.Valid())
        ensures i != b && items[i].Sub? ==> items[i].node.Repr == old(items[i].node.Repr)
      {
        assert i != b ==> old(BranchOk(i)) && items[i] == old(items)[i] && parts[i] == old(parts)[i];
      }
      assert forall i, j :: 0 <= i < j < BRANCHES && items[i].Sub? && items[j].Sub? ==>
          items[i].node.Repr !! items[j].node.Repr;
    }

    /** The loop of `insert`: finds the first branch with room; its panic is unreachable. */
    method FirstRoom() returns (branch: nat)
      requires Valid() && itemCnt != maxItems
      ensures branch < BRANCHES && FirstFree(parts[branch]) < Width(level)
      ensures items[branch].Nil? || (level > 0 && items[branch].Sub? && items[branch].node.itemCnt != items[branch].node.maxItems)
      ensures FirstFree(Slots()) == branch * Width(level) + FirstFree(parts[branch])
    {
      hide Flat, Sum;
      ghost var m := Width(level);
      branch := 0;
      SkippedIffFull(0);
      while !items[branch].Nil? && (level == 0 || items[branch].node.itemCnt == items[branch].node.maxItems)
        invariant 0 <= branch < BRANCHES
        invariant items[branch].Sub? ==> items[branch].node in Repr
        invariant level > 0 ==> !items[branch].Leaf?
        invariant (!items[branch].Nil? && (level == 0 || items[branch].node.itemCnt == items[branch].node.maxItems))
            <==> FirstFree(parts[branch]) == m
        invariant forall j :: 0 <= j < branch ==> FirstFree(parts[j]) == m
        decreases BRANCHES - branch
      {
        branch := branch + 1;
        if branch == BRANCHES {
          FlatFull(parts, m);
          FullIffNoFree(Slots());
          assert false;
        }
        SkippedIffFull(branch);
      }
      FlatFirstFree(parts, m, branch);
    }

    /** `insert`: takes the first free slot of the row. */
    method Insert(item: T, weight: nat) returns (idx: nat)
      requires Valid() && itemCnt != maxItems
      modifies Repr
      ensures Valid() && fresh(Repr - old(Repr))
      ensures level == old(level) && maxItems == old(maxItems)
      ensures idx == FirstFree(old(Slots())) && idx < |old(Slots())|
      ensures Slots() == old(Slots())[idx := Used(item, weight)]
      decreases level, 2
    {
      hide Flat, Sum, Count, FirstFree, Tallied, BranchOk;
      var branch := FirstRoom();
      if level == 0 {
        InsertLeaf(branch, item, weight);
        return branch;
      }
      idx := InsertBelow(branch, item, weight);
    }

    /** `insert` in the subtree of a branch with room. */
    method InsertBelow(branch: nat, item: T, weight: nat) returns (idx: nat)
      requires Valid() && level > 0 && branch < BRANCHES && FirstFree(parts[branch]) < Width(level)
      requires items[branch].Nil? || (items[branch].Sub? && items[branch].node.itemCnt != items[branch].node.maxItems)
      modifies Repr
      ensures Valid() && fresh(Repr - old(Repr))
      ensures level == old(level) && maxItems == old(maxItems)
      ensures idx == branch * Width(level) + FirstFree(old(parts)[branch]) && idx < |old(Slots())|
      ensures Slots() == old(Slots())[idx := Used(item, weight)]
      decreases level, 1
    {
      hide Flat, Sum, Count, FirstFree, Tallied, BranchOk, ValidBut;
      EvenParts();
      ghost var k := FirstFree(parts[branch]);
      var subNode, subIdx := InsertSub(branch, item, weight);
      Install(branch, Sub(subNode), weight, 1, k, Free, Used(item, weight));
      Swap(branch, Width(level));
      idx := subNode.maxItems * branch + subIdx;
    }

    /** The recursive call of `insert`: only the subtree has moved on when it returns. */
    method InsertSub(branch: nat, item: T, weight: nat) returns (c: Node<T>, subIdx: nat)
      requires Valid() && level > 0 && branch < BRANCHES && FirstFree(parts[branch]) < Width(level)
      requires items[branch].Nil? || (items[branch].Sub? && items[branch].node.itemCnt != items[branch].node.maxItems)
      modifies Repr - {this}
      ensures ValidBut(branch) && c.Valid() && this !in c.Repr && fresh(c.Repr - old(Repr))
      ensures c.level == level - 1 && c.maxItems == Width(level) && |parts[branch]| == Width(level)
      ensures subIdx == FirstFree(parts[branch]) && parts[branch][subIdx] == Free
      ensures c.Slots() == parts[branch][subIdx := Used(item, weight)]
      ensures forall i :: 0 <= i < BRANCHES && i != branch && items[i].Sub? ==> items[i].node.Repr !! c.Repr
      decreases level, 0
    {
      hide Flat, Sum, Count, Tallied;
      EvenParts();
      c := SubNode(branch);
      subIdx := c.Insert(item, weight);
    }

    /** `insert` in a leaf node. */
    method InsertLeaf(branch: nat, item: T, weight: nat)
      requires Valid() && level == 0 && branch < BRANCHES && FirstFree(parts[branch]) == 0
      modifies this
      ensures Valid() && Repr == old(Repr) && level == old(level) && maxItems == old(maxItems)
      ensures Slots() == old(Slots())[branch := Used(item, weight)]
    {
      hide Flat, Sum, Count;
      Install(branch, Leaf(item), weight, 1, 0, Free, Used(item, weight));
    }

    /** The subtree below a branch, made when it is absent. */
    method SubNode(branch: nat) returns (c: Node<T>)
      requires Valid() && branch < BRANCHES && level > 0 && !items[branch].Leaf?
      ensures c.Valid() && c.level == level - 1 && c.maxItems == Width(level) && c.Slots() == parts[branch]
      ensures if items[branch].Sub? then c == items[branch].node else fresh(c.Repr) && c.itemCnt == 0
      ensures this !in c.Repr && fresh(c.Repr - Repr)
      ensures forall i :: 0 <= i < BRANCHES && i != branch && items[i].Sub? ==> items[i].node.Repr !! c.Repr
    {
      assert BranchOk(branch);
      if items[branch].Nil? {
        c := new Node<T>.Empty(level - 1, maxItems / BRANCHES);
        FreesAreWeightless<T>(Width(level));
      } else {
        c := items[branch].node;
      }
    }

    /** Where slot idx lies: in branch idx / m, at the rest. */
    lemma Locate(idx: nat)
      requires Valid() && idx < maxItems
      ensures var m := Width(level);
        && idx / m < BRANCHES
        && 0 <= idx - (idx / m) * m < m
        && parts[idx / m][idx - (idx / m) * m] == Slots()[idx]
    {
      var m := Width(level);
      Numbers.DivBelow(idx, m, BRANCHES);
      Numbers.Euclid(idx, m);
      FlatIndex(parts, m, idx / m, idx - (idx / m) * m);
    }

    /** The branch that holds slot idx, and the place in it. */
    method Branch(idx: nat) returns (branch: nat, rest: nat)
      requires Valid() && idx < maxItems
      ensures branch < BRANCHES && rest < Width(level) && |parts[branch]| == Width(level)
      ensures parts[branch][rest] == Slots()[idx] && branch * Width(level) + rest == idx
    {
      hide Flat, Sum, Count, Tallied, Node.BranchOk;
      Locate(idx);
      EvenParts();
      Numbers.Euclid(idx, Width(level));
      var branchItems := maxItems / BRANCHES;
      assert branchItems == Width(level);
      branch := idx / branchItems;
      rest := idx - branch * branchItems;
    }

    ghost function Rewritten(was: Slot<T>, weight: nat): Slot<T>
      requires was.Used?
    {
      if weight == 0 then Free else Used(was.item, weight)
    }

    /** `setWeight`: rewrites one used slot, freeing it when the weight is zero. */
    method SetWeight(idx: nat, weight: nat) returns (diff: int)
      requires Valid() && idx < maxItems && Slots()[idx].Used?
      modifies Repr
      ensures Valid() && Repr == old(Repr)
      ensures level == old(level) && maxItems == old(maxItems)
      ensures diff == weight - old(Slots())[idx].weight
      ensures Slots() == old(Slots())[idx := Rewritten(old(Slots())[idx], weight)]
      decreases level
    {
      hide Flat, Sum, Count, Tallied;
      if level == 0 {
        diff := SetLeaf(idx, weight);
        return;
      }
      ghost var was := Slots()[idx];
      ghost var x := Rewritten(was, weight);
      var branch, rest := Branch(idx);
      assert BranchOk(branch);
      diff := items[branch].node.SetWeight(rest, weight);
      Install(branch, items[branch], diff, if weight == 0 then -1 else 0, rest, was, x);
    }

    /** `setWeight` in a leaf node. */
    method SetLeaf(idx: nat, weight: nat) returns (diff: int)
      requires Valid() && level == 0 && idx < maxItems && Slots()[idx].Used?
      modifies this
      ensures Valid() && Repr == old(Repr) && level == old(level) && maxItems == old(maxItems)
      ensures diff == weight - old(Slots())[idx].weight
      ensures Slots() == old(Slots())[idx := Rewritten(old(Slots())[idx], weight)]
    {
      hide Flat, Count;
      Locate(idx);
      assert BranchOk(idx);
      assert parts[idx][1..] == [] && Sum(parts[idx]) == WeightOf(parts[idx][0]);
      ghost var was := Slots()[idx];
      diff := weight - weights[idx];
      Install(idx, if weight == 0 then Nil else items[idx], diff, if weight == 0 then -1 else 0, 0, was, Rewritten(was, weight));
    }

    /** `choose`: the prefix-sum search; the panic after the last branch is unreachable. */
    method Choose(val: nat) returns (item: T, weight: nat)
      requires Valid() && val < sumWeight
      ensures Slots()[Pick(Slots(), val)] == Used(item, weight)
      decreases level
    {
      hide Flat, Count;
      ghost var m := Width(level);
      FlatSums(parts, m);
      assert parts[..BRANCHES] == parts;
      var i, v := 0, val;
      while i < BRANCHES
        invariant 0 <= i <= BRANCHES
        invariant 0 <= v && v + SumParts(parts[..i]) == val
      {
        var w := weights[i];
        if v < w {
          assert BranchOk(i);
          FlatPick(parts, m, i, v);
          FlatIndex(parts, m, i, Pick(parts[i], v));
          if level == 0 {
            return items[i].item, weights[i];
          }
          item, weight := items[i].node.Choose(v);
          return;
        }
        v := v - w;
        SumPartsSnoc(parts, i);
        i := i + 1;
      }
      assert false;
    }
  }

  lemma Swap(a: int, b: int)
    ensures a * b == b * a
  {
  }

  /** Every item of the later index was there before, at the same place. */
  ghost predicate Unmoved<T>(was: map<T, nat>, idx: map<T, nat>) {
    forall t :: t in idx ==> t in was && idx[t] == was[t]
  }

  /** The item reported this weight at one of the questions from `since` to `until`. */
  ghost predicate Reported<T>(weigh: (nat, T) -> nat, item: T, since: nat, until: nat, weight: nat) {
    exists q: nat :: since <= q < until && weigh(q, item) == weight
  }

  /** No item is new, and every item has its old weight or one it reported meanwhile; an item that is
      gone reported zero. */
  ghost predicate Refreshed<T>(w0: map<T, nat>, w1: map<T, nat>, weigh: (nat, T) -> nat, since: nat, until: nat) {
    && (forall t :: t in w1 ==> t in w0)
    && (forall t :: t in w0 ==> (t in w1 && w1[t] == w0[t]) || Reported(weigh, t, since, until, if t in w1 then w1[t] else 0))
  }

  lemma RefreshedMore<T>(w0: map<T, nat>, w1: map<T, nat>, weigh: (nat, T) -> nat, since: nat, until: nat, item: T)
    requires Refreshed(w0, w1, weigh, since, until) && since <= until && item in w1
    ensures Refreshed(w0, Put(w1, item, weigh(until, item)), weigh, since, until + 1)
  {
    var w2 := Put(w1, item, weigh(until, item));
    forall t | t in w0
      ensures (t in w2 && w2[t] == w0[t]) || Reported(weigh, t, since, until + 1, if t in w2 then w2[t] else 0)
    {
      if t != item && !(t in w1 && w1[t] == w0[t]) {
        var weight := if t in w1 then w1[t] else 0;
        var q: nat :| since <= q < until && weigh(q, t) == weight;
      }
    }
  }

  /** A set of weighted items to choose from at random. */
  class WeightedRandomSelect<T(==)> {
    var root: Node<T>
    var idx: map<T, nat>

    ghost predicate Valid()
      reads this, root, root.Repr
      ensures Valid() ==> root in root.Repr
    {
      root.Valid() && Indexed(root.Slots(), idx)
    }

    /** The set as a map from item to stored, positive weight. */
    ghost function Weights(): map<T, nat>
      requires Valid()
      reads this, root, root.Repr
    {
      Stored(root.Slots(), idx)
    }

    constructor ()
      ensures Valid() && Weights() == map[] && fresh(root.Repr)
    {
      root := new Node<T>.Empty(0, BRANCHES);
      idx := map[];
    }

    /** `setWeight`: changes nothing but the item's weight, and no item that stays changes its index. */
    method SetWeight(item: T, weight: nat)
      requires Valid()
      modifies this, root.Repr
      ensures Valid() && fresh(root.Repr - old(root.Repr))
      ensures Weights() == Put(old(Weights()), item, weight)
      ensures forall t :: t in idx && t in old(idx) ==> idx[t] == old(idx)[t]
      ensures root.sumWeight == old(root.sumWeight) + weight - (if item in old(Weights()) then old(Weights())[item] else 0)
    {
      if item in idx {
        Reset(item, weight);
      } else if weight != 0 {
        if root.itemCnt == root.maxItems {
          Grow();
        }
        Add(item, weight);
      }
    }

    /** Rewrites the slot of a stored item. */
    method Reset(item: T, weight: nat)
      requires Valid() && item in idx
      modifies this, root.Repr
      ensures Valid() && root == old(root) && root.Repr == old(root.Repr)
      ensures Weights() == Put(old(Weights()), item, weight)
      ensures forall t :: t in idx ==> t in old(idx) && idx[t] == old(idx)[t]
      ensures root.sumWeight == old(root.sumWeight) + weight - old(Weights())[item]
      ensures root.Slots() == Corrected(old(root.Slots()), old(idx)[item], weight)
    {
      hide Flat, Sum, Count;
      ghost var s, k := root.Slots(), idx[item];
      WriteIsPut(s, idx, k, item, weight);
      UpdateSums(s, k, root.Rewritten(s[k], weight));
      var _ := root.SetWeight(idx[item], weight);
      if weight == 0 {
        idx := idx - {item};
      }
      assert weight != 0 ==> idx[item := k] == idx;
    }

    /** Stores a new item in the first free slot. */
    method Add(item: T, weight: nat)
      requires Valid() && item !in idx && weight != 0 && root.itemCnt != root.maxItems
      modifies this, root.Repr
      ensures Valid() && fresh(root.Repr - old(root.Repr))
      ensures Weights() == Put(old(Weights()), item, weight)
      ensures idx.Keys == old(idx.Keys) + {item} && forall t :: t in old(idx) ==> idx[t] == old(idx)[t]
      ensures root.sumWeight == old(root.sumWeight) + weight
    {
      hide Flat, Sum, Count;
      ghost var s, free := root.Slots(), FirstFree(root.Slots());
      FullIffNoFree(s);
      WriteIsPut(s, idx, free, item, weight);
      UpdateSums(s, free, Used(item, weight));
      var k := root.Insert(item, weight);
      idx := idx[item := k];
    }

    /** Adds a level above a full root. */
    method Grow()
      requires Valid()
      modifies this
      ensures Valid() && fresh(root.Repr - old(root.Repr)) && idx == old(idx)
      ensures Weights() == old(Weights()) && root.sumWeight == old(root.sumWeight)
      ensures root.itemCnt < root.maxItems
    {
      AppendFrees(root.Slots(), idx, 7 * root.maxItems);
      FullIffNoFree(root.Slots());
      root := new Node<T>.Above(root);
    }

    /** `update` with the item's current weight, and `remove`. */
    method Update(item: T, current: nat)
      requires Valid()
      modifies this, root.Repr
      ensures Valid() && fresh(root.Repr - old(root.Repr))
      ensures Weights() == Put(old(Weights()), item, current)
    {
      SetWeight(item, current);
    }

    method Remove(item: T)
      requires Valid()
      modifies this, root.Repr
      ensures Valid() && fresh(root.Repr - old(root.Repr))
      ensures Weights() == old(Weights()) - {item}
    {
      SetWeight(item, 0);
    }

    /** One draw of `choose`: the random value `val` picks a stored item. */
    method Draw(val: nat) returns (choice: T, lastWeight: nat)
      requires Valid() && val < root.sumWeight
      ensures choice in Weights() && lastWeight == Weights()[choice]
      ensures root.sumWeight == Sum(root.Slots()) && root.Slots()[Pick(root.Slots(), val)] == Used(choice, lastWeight)
    {
      choice, lastWeight := root.Choose(val);
    }

    lemma WeightsAre()
      requires Valid()
      ensures Indexed(root.Slots(), idx) && Weights() == Stored(root.Slots(), idx)
    {
    }

    /** The items on offer are those of the index. */
    lemma Offered()
      requires Valid()
      ensures Weights().Keys == idx.Keys && (Weights() == map[] <==> idx == map[])
    {
    }

    lemma EmptyWhen()
      requires Valid()
      ensures 0 <= root.sumWeight
      ensures root.sumWeight == 0 <==> Weights() == map[]
    {
      EmptyIffWeightless(root.Slots(), idx);
    }

    /** The correction of `choose`: stores the drawn item's current weight if it changed. */
    method Correct(item: T, lastWeight: nat, weight: nat, ghost k: nat)
      requires Valid() && item in Weights() && lastWeight == Weights()[item]
      requires k < |root.Slots()| && root.Slots()[k] == Used(item, lastWeight)
      modifies this, root.Repr
      ensures Valid() && fresh(root.Repr - old(root.Repr))
      ensures Weights() == Put(old(Weights()), item, weight)
      ensures Unmoved(old(idx), idx)
      ensures root.sumWeight == old(root.sumWeight) + weight - lastWeight
      ensures root.Slots() == Corrected(old(root.Slots()), k, weight)
    {
      assert item in idx && idx[item] == k;
      if weight != lastWeight {
        Reset(item, weight);
      }
    }

    lemma SumIs()
      requires Valid()
      ensures root.sumWeight == Sum(root.Slots())
    {
    }

    /** One round of `choose`. */
    method Round(weigh: (nat, T) -> nat, draws: Draws, now: nat) returns (choice: Option<T>, ghost item: T)
      requires Valid() && 0 < root.sumWeight
      modifies this, root.Repr
      ensures Valid() && fresh(root.Repr - old(root.Repr))
      ensures item in old(Weights()) && Weights() == Put(old(Weights()), item, weigh(now, item))
      ensures Unmoved(old(idx), idx)
      ensures choice.Some? ==> choice.value == item && 0 < weigh(now, item)
      ensures choice.None? ==> root.sumWeight < old(root.sumWeight)
      ensures Chosen(old(root.Slots()), weigh, draws, now)
        == if choice.Some? then (choice, now + 1, root.Slots()) else Chosen(root.Slots(), weigh, draws, now + 1)
    {
      hide Flat, Pick, Node.Valid, Indexed, Stored;
      ghost var s := root.Slots();
      SumIs();
      var val := draws.value(now, root.sumWeight);
      var drawn, lastWeight := Draw(val);
      item := drawn;
      ghost var k := Pick(s, val);
      var weight := weigh(now, drawn);
      Correct(drawn, lastWeight, weight, k);
      if weight >= lastWeight {
        RejectedFell(s, val, draws.keep(now, lastWeight), weight);
        return Some(drawn), item;
      }
      var r := draws.keep(now, lastWeight);
      RejectedFell(s, val, r, weight);
      if r < weight {
        return Some(drawn), item;
      }
      return None, item;
    }

    /** `choose`: terminates however the items' current weights change from draw to draw, with any draws.
        `weigh(t, item)` is the weight an item reports at the t-th question. */
    method Choose(weigh: (nat, T) -> nat, draws: Draws, now: nat) returns (choice: Option<T>, clock: nat)
      requires Valid()
      modifies this, root.Repr
      ensures Valid() && fresh(root.Repr - old(root.Repr))
      ensures choice.None? <==> Weights() == map[]
      ensures choice.Some? ==> now < clock && 0 < weigh(clock - 1, choice.value)
      ensures choice.Some? ==> choice.value in old(Weights()) && choice.value in Weights()
      ensures choice.Some? ==> Weights()[choice.value] == weigh(clock - 1, choice.value)
      ensures Refreshed(old(Weights()), Weights(), weigh, now, clock)
      ensures Unmoved(old(idx), idx)
      ensures now <= clock && (choice, clock, root.Slots()) == Chosen(old(root.Slots()), weigh, draws, now)
    {
      hide Flat, Pick, Reported, Node.Valid, Indexed, Stored, Kept, Corrected, Sum;
      clock := now;
      EmptyWhen();
      while true
        invariant Valid() && fresh(root.Repr - old(root.Repr))
        invariant now <= clock && 0 <= root.sumWeight
        invariant root.sumWeight == 0 <==> Weights() == map[]
        invariant Refreshed(old(Weights()), Weights(), weigh, now, clock)
        invariant Unmoved(old(idx), idx)
        invariant Chosen(root.Slots(), weigh, draws, clock) == Chosen(old(root.Slots()), weigh, draws, now)
        decreases root.sumWeight
      {
        if root.sumWeight == 0 {
          SumIs();
          return None, clock;
        }
        ghost var w := Weights();
        ghost var item;
        choice, item := Round(weigh, draws, clock);
        RefreshedMore(old(Weights()), w, weigh, now, clock, item);
        clock := clock + 1;
        EmptyWhen();
        if choice.Some? {
          return;
        }
      }
    }
  }
}
