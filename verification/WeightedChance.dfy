/** What `choose` of `gossip/randselect.go` promises over all its rounds: with random draws that are all
    equally likely, an item is returned with a chance proportional to its weight. */
module WeightedChance {
  import opened Options
  import opened WeightedSlots

  /** A share. */
  function Per(m: nat, n: nat): real
    requires 0 < n
  {
    m as real / n as real
  }

  /** The row once slot j has got its current weight. */
  function Corrected<T>(s: seq<Slot<T>>, j: nat, c: nat): seq<Slot<T>>
    requires j < |s|
  {
    s[j := if c == 0 || s[j].Free? then Free else Used(s[j].item, c)]
  }

  lemma CorrectedSum<T>(s: seq<Slot<T>>, j: nat, c: nat)
    requires j < |s| && c <= WeightOf(s[j])
    ensures Sum(Corrected(s, j, c)) == Sum(s) - WeightOf(s[j]) + c
  {
    hide Sum, Count;
    UpdateSums(s, j, Corrected(s, j, c)[j]);
  }

  // ---------- one call ----------

  /** A source of random numbers: number t, drawn below n. */
  type Draw = f: (nat, nat) -> nat | forall t: nat, n: nat :: 0 < n ==> f(t, n) < n witness (t, n) => 0

  /** What the rounds of `choose` draw: first a value below the sum of the weights, then a number below the
      stored weight of the item found. */
  datatype Draws = Draws(value: Draw, keep: Draw)

  /** The two draws of a round keep the slot they found, whose item now weighs c. */
  ghost predicate Kept<T>(s: seq<Slot<T>>, v: nat, r: nat, c: nat)
    requires v < Sum(s)
  {
    (v, r) in Keeping(s, Pick(s, v), c)
  }

  /** What `choose` returns, at which round and with which row left, if the items report the weights weigh at
      round t and later: a kept slot ends it, and a rejected one is corrected first. */
  ghost function Chosen<T>(s: seq<Slot<T>>, weigh: (nat, T) -> nat, draws: Draws, t: nat): (Option<T>, nat, seq<Slot<T>>)
    decreases Sum(s)
  {
    if Sum(s) == 0 then (None, t, s)
    else
      var v := draws.value(t, Sum(s));
      var k := Pick(s, v);
      var c := weigh(t, s[k].item);
      if Kept(s, v, draws.keep(t, WeightOf(s[k])), c) then (Some(s[k].item), t + 1, Corrected(s, k, c))
      else
        RejectedFell(s, v, draws.keep(t, WeightOf(s[k])), c);
        CorrectedSum(s, k, c);
        Chosen(Corrected(s, k, c), weigh, draws, t + 1)
  }

  /** Only an item whose weight fell is rejected, by a second draw at or above the current weight. */
  lemma RejectedFell<T>(s: seq<Slot<T>>, v: nat, r: nat, c: nat)
    requires v < Sum(s) && r < WeightOf(s[Pick(s, v)])
    ensures !Kept(s, v, r, c) <==> c < WeightOf(s[Pick(s, v)]) && c <= r
  {
    hide Sum;
  }

  // ---------- shares ----------

  /** The weight that counts: the current one, but a rise is not seen before the item is drawn. */
  function Counted<T>(s: seq<Slot<T>>, cur: seq<nat>, j: nat): nat
    requires |cur| == |s| && j < |s|
  {
    if cur[j] < WeightOf(s[j]) then cur[j] else WeightOf(s[j])
  }

  function Total<T>(s: seq<Slot<T>>, cur: seq<nat>, k: nat): nat
    requires |cur| == |s| && k <= |s|
  {
    if k == 0 then 0 else Total(s, cur, k - 1) + Counted(s, cur, k - 1)
  }

  /** How much of the stored weight is out of date. */
  function Excess<T>(s: seq<Slot<T>>, cur: seq<nat>, k: nat): nat
    requires |cur| == |s| && k <= |s|
  {
    if k == 0 then 0 else Excess(s, cur, k - 1) + WeightOf(s[k - 1]) - Counted(s, cur, k - 1)
  }

  lemma {:induction false} TotalExcess<T>(s: seq<Slot<T>>, cur: seq<nat>, k: nat)
    requires |cur| == |s| && k <= |s|
    ensures Total(s, cur, k) + Excess(s, cur, k) == Sum(s[..k])
  {
    if k == 0 {
    } else {
      TotalExcess(s, cur, k - 1);
      assert s[..k] == s[..k - 1] + [s[k - 1]];
      ConcatSums(s[..k - 1], [s[k - 1]]);
    }
  }

  lemma {:induction false} SameTotal<T>(s: seq<Slot<T>>, t: seq<Slot<T>>, cur: seq<nat>, k: nat)
    requires |cur| == |s| == |t| && k <= |s| && forall j :: 0 <= j < |s| ==> Counted(t, cur, j) == Counted(s, cur, j)
    ensures Total(t, cur, k) == Total(s, cur, k)
  {
    if k == 0 {
    } else {
      SameTotal(s, t, cur, k - 1);
    }
  }

  /** The share of slot i in the weights that count. */
  ghost function Share<T>(s: seq<Slot<T>>, cur: seq<nat>, i: nat): real
    requires |cur| == |s| && i < |s|
  {
    var total := Total(s, cur, |s|);
    if total == 0 then 0.0 else Per(Counted(s, cur, i), total)
  }

  lemma {:induction false} CountedBelow<T>(s: seq<Slot<T>>, cur: seq<nat>, i: nat, k: nat)
    requires |cur| == |s| && i < k <= |s|
    ensures Counted(s, cur, i) <= Total(s, cur, k)
  {
    if i == k - 1 {
    } else {
      CountedBelow(s, cur, i, k - 1);
    }
  }

  lemma Series(m: real, t: real, x: real)
    requires 0.0 < t && 0.0 <= x
    ensures (m + x * (m / t)) / (t + x) == m / t
  {
    var q := m / t;
    assert m == q * t;
    assert m + x * q == q * (t + x);
  }

  lemma CorrectedCounts<T>(s: seq<Slot<T>>, cur: seq<nat>, j: nat)
    requires |cur| == |s| && j < |s| && cur[j] < WeightOf(s[j])
    ensures var t := Corrected(s, j, cur[j]);
      |t| == |s| && forall i :: 0 <= i < |s| ==> Counted(t, cur, i) == Counted(s, cur, i)
  {
  }

  lemma SameShare<T>(s: seq<Slot<T>>, t: seq<Slot<T>>, cur: seq<nat>, i: nat)
    requires |cur| == |s| == |t| && i < |s| && forall j :: 0 <= j < |s| ==> Counted(t, cur, j) == Counted(s, cur, j)
    ensures Share(t, cur, i) == Share(s, cur, i)
  {
    SameTotal(s, t, cur, |s|);
  }

  // ---------- the chance as an average over all draws ----------

  /** What a round with draws v and r contributes to the chance of slot i: one or zero if it ends `choose`,
      otherwise the chance on the corrected row. */
  ghost function After<T>(s: seq<Slot<T>>, cur: seq<nat>, i: nat, v: nat, r: nat): real
    requires |cur| == |s| && i < |s| && v < Sum(s) && r < WeightOf(s[Pick(s, v)])
    decreases Sum(s), 0, 0
  {
    var k := Pick(s, v);
    if Kept(s, v, r, cur[k]) then One(k == i)
    else
      RejectedFell(s, v, r, cur[k]);
      CorrectedSum(s, k, cur[k]);
      Returns(Corrected(s, k, cur[k]), cur, i)
  }

  function One(b: bool): real {
    if b then 1.0 else 0.0
  }

  function Scaled(n: nat, x: real): real {
    n as real * x
  }

  function Mean(x: real, n: nat): real
    requires 0 < n
  {
    x / n as real
  }

  lemma TimesSum(a: nat, b: nat, x: real)
    ensures Scaled(a, x) + Scaled(b, x) == Scaled(a + b, x)
  {
    assert (a + b) as real == a as real + b as real;
  }

  lemma TimesFew(x: real)
    ensures Scaled(0, x) == 0.0 && Scaled(1, x) == x
  {
  }

  lemma TimesMean(x: real, n: nat)
    requires 0 < n
    ensures Scaled(n, Mean(x, n)) == x
  {
  }

  /** The sum over the first m second draws. */
  ghost function OverKeep<T>(s: seq<Slot<T>>, cur: seq<nat>, i: nat, v: nat, m: nat): real
    requires |cur| == |s| && i < |s| && v < Sum(s) && m <= WeightOf(s[Pick(s, v)])
    decreases Sum(s), 1, m
  {
    if m == 0 then 0.0 else OverKeep(s, cur, i, v, m - 1) + After(s, cur, i, v, m - 1)
  }

  /** The average over all second draws, summed over the first n values. */
  ghost function OverValue<T>(s: seq<Slot<T>>, cur: seq<nat>, i: nat, n: nat): real
    requires |cur| == |s| && i < |s| && n <= Sum(s)
    decreases Sum(s), 2, n
  {
    if n == 0 then 0.0
    else
      var w := WeightOf(s[Pick(s, n - 1)]);
      OverValue(s, cur, i, n - 1) + Mean(OverKeep(s, cur, i, n - 1, w), w)
  }

  /** The chance that `choose` returns slot i, the items weighing cur: the average over all its draws. */
  ghost function Returns<T>(s: seq<Slot<T>>, cur: seq<nat>, i: nat): real
    requires |cur| == |s| && i < |s|
    decreases Sum(s), 3, 0
  {
    if Sum(s) == 0 then 0.0 else Mean(OverValue(s, cur, i, Sum(s)), Sum(s))
  }

  /** The same summed slot by slot: what slot k contributes, times its weight. */
  ghost function Landing<T>(s: seq<Slot<T>>, cur: seq<nat>, i: nat, k: nat): real
    requires |cur| == |s| && i < |s| && k < |s|
  {
    Scaled(Counted(s, cur, k), One(k == i)) + Scaled(WeightOf(s[k]) - Counted(s, cur, k), Share(s, cur, i))
  }

  /** The second draws: those below the current weight keep the slot, the others lead on. */
  lemma {:induction false} KeepSum<T>(s: seq<Slot<T>>, cur: seq<nat>, i: nat, v: nat, m: nat)
    requires |cur| == |s| && i < |s| && v < Sum(s) && m <= WeightOf(s[Pick(s, v)])
    ensures var k := Pick(s, v);
      var low := if m <= Counted(s, cur, k) then m else Counted(s, cur, k);
      OverKeep(s, cur, i, v, m) == Scaled(low, One(k == i)) + Scaled(m - low, Share(s, cur, i))
    decreases Sum(s), 1, m
  {
    hide Sum, Kept, Share, Returns, Corrected, Scaled, One;
    var k := Pick(s, v);
    TimesFew(One(k == i));
    TimesFew(Share(s, cur, i));
    if m == 0 {
    } else {
      KeepSum(s, cur, i, v, m - 1);
      RejectedFell(s, v, m - 1, cur[k]);
      if Kept(s, v, m - 1, cur[k]) {
        TimesSum(m - 1, 1, One(k == i));
      } else {
        Rejected(s, cur, i, k);
        TimesSum(m - 1 - Counted(s, cur, k), 1, Share(s, cur, i));
      }
    }
  }

  /** A rejected slot leads to a row with the same shares. */
  lemma {:induction false} Rejected<T>(s: seq<Slot<T>>, cur: seq<nat>, i: nat, k: nat)
    requires |cur| == |s| && i < |s| && k < |s| && cur[k] < WeightOf(s[k])
    ensures Sum(Corrected(s, k, cur[k])) < Sum(s) && Returns(Corrected(s, k, cur[k]), cur, i) == Share(s, cur, i)
    decreases Sum(s), 0, 0
  {
    hide Sum, Share, Returns, Counted, Corrected;
    CorrectedSum(s, k, cur[k]);
    CorrectedCounts(s, cur, k);
    ReturnsInProportion(Corrected(s, k, cur[k]), cur, i);
    SameShare(s, Corrected(s, k, cur[k]), cur, i);
  }

  lemma {:induction false} ValueSum<T>(s: seq<Slot<T>>, cur: seq<nat>, i: nat, k: nat, n: nat)
    requires |cur| == |s| && i < |s| && k < |s| && n <= WeightOf(s[k]) && Sum(s[..k]) + WeightOf(s[k]) <= Sum(s)
    ensures OverValue(s, cur, i, Sum(s[..k]) + n) == OverValue(s, cur, i, Sum(s[..k]))
      + if n == 0 then 0.0 else Scaled(n, Mean(Landing(s, cur, i, k), WeightOf(s[k])))
    decreases Sum(s), 2, n
  {
    hide Sum, Share, Returns, OverKeep, Pick, Counted, Landing, Scaled, Mean, One;
    if n == 0 {
    } else {
      ValueSum(s, cur, i, k, n - 1);
      var v := Sum(s[..k]) + n - 1;
      PickInterval(s, k, v);
      KeepSum(s, cur, i, v, WeightOf(s[k]));
      WholeSlot(s, cur, i, k);
      var x := Mean(Landing(s, cur, i, k), WeightOf(s[k]));
      TimesFew(x);
      TimesSum(n - 1, 1, x);
    }
  }

  lemma WholeSlot<T>(s: seq<Slot<T>>, cur: seq<nat>, i: nat, k: nat)
    requires |cur| == |s| && i < |s| && k < |s|
    ensures Counted(s, cur, k) <= WeightOf(s[k])
    ensures Landing(s, cur, i, k) == Scaled(Counted(s, cur, k), One(k == i)) + Scaled(WeightOf(s[k]) - Counted(s, cur, k), Share(s, cur, i))
  {
    hide Scaled, Share;
  }

  /** The values that fall into the first k slots. */
  lemma {:induction false} SlotSum<T>(s: seq<Slot<T>>, cur: seq<nat>, i: nat, k: nat)
    requires |cur| == |s| && i < |s| && k <= |s|
    ensures Sum(s[..k]) <= Sum(s)
    ensures OverValue(s, cur, i, Sum(s[..k]))
      == (if i < k then Counted(s, cur, i) as real else 0.0) + Scaled(Excess(s, cur, k), Share(s, cur, i))
    decreases Sum(s), 2, Sum(s) + k
  {
    hide Sum, Share, Returns, Counted, OverValue, Landing, Scaled, Mean;
    TimesFew(Share(s, cur, i));
    Prefix(s, k);
    if k == 0 {
      Prefix(s, 0);
      NoValues(s, cur, i);
    } else {
      var j := k - 1;
      SlotSum(s, cur, i, j);
      PrefixStep(s, j);
      ValueSum(s, cur, i, j, WeightOf(s[j]));
      WholeSlot(s, cur, i, j);
      Landed(s, cur, i, j);
      TimesOne(Counted(s, cur, j), j == i);
      TimesSum(Excess(s, cur, j), WeightOf(s[j]) - Counted(s, cur, j), Share(s, cur, i));
    }
  }

  lemma Prefix<T>(s: seq<Slot<T>>, k: nat)
    requires k <= |s|
    ensures Sum(s[..k]) <= Sum(s) && Sum(s[..0]) == 0
  {
    assert s == s[..k] + s[k..];
    ConcatSums(s[..k], s[k..]);
  }

  lemma PrefixStep<T>(s: seq<Slot<T>>, j: nat)
    requires j < |s|
    ensures Sum(s[..j + 1]) == Sum(s[..j]) + WeightOf(s[j])
  {
    assert s[..j + 1] == s[..j] + [s[j]];
    ConcatSums(s[..j], [s[j]]);
  }

  lemma NoValues<T>(s: seq<Slot<T>>, cur: seq<nat>, i: nat)
    requires |cur| == |s| && i < |s|
    ensures OverValue(s, cur, i, 0) == 0.0 && Excess(s, cur, 0) == 0
  {
  }

  lemma Landed<T>(s: seq<Slot<T>>, cur: seq<nat>, i: nat, j: nat)
    requires |cur| == |s| && i < |s| && j < |s|
    ensures Counted(s, cur, j) <= WeightOf(s[j]) && Excess(s, cur, j + 1) == Excess(s, cur, j) + (WeightOf(s[j]) - Counted(s, cur, j))
    ensures if WeightOf(s[j]) == 0 then Landing(s, cur, i, j) == 0.0
            else Scaled(WeightOf(s[j]), Mean(Landing(s, cur, i, j), WeightOf(s[j]))) == Landing(s, cur, i, j)
  {
    hide Share, Scaled, Mean, One;
    if WeightOf(s[j]) == 0 {
      TimesFew(One(j == i));
      TimesFew(Share(s, cur, i));
    } else {
      TimesMean(Landing(s, cur, i, j), WeightOf(s[j]));
    }
  }

  lemma TimesOne(n: nat, b: bool)
    ensures Scaled(n, One(b)) == if b then n as real else 0.0
  {
  }

  /** Averaged over all draws, `choose` returns an item with a chance equal to its share in the weights. */
  lemma {:induction false} ReturnsInProportion<T>(s: seq<Slot<T>>, cur: seq<nat>, i: nat)
    requires |cur| == |s| && i < |s|
    ensures Returns(s, cur, i) == Share(s, cur, i)
    decreases Sum(s), 3, 0
  {
    hide Sum, Share, OverValue, Counted, Excess, Total, Scaled, Mean;
    assert s[..|s|] == s;
    TotalExcess(s, cur, |s|);
    CountedBelow(s, cur, i, |s|);
    if Sum(s) == 0 {
      NoTotal(s, cur, i);
    } else {
      SlotSum(s, cur, i, |s|);
      Settled(s, cur, i);
    }
  }

  lemma NoTotal<T>(s: seq<Slot<T>>, cur: seq<nat>, i: nat)
    requires |cur| == |s| && i < |s| && Total(s, cur, |s|) == 0
    ensures Share(s, cur, i) == 0.0
  {
  }

  lemma Settled<T>(s: seq<Slot<T>>, cur: seq<nat>, i: nat)
    requires |cur| == |s| && i < |s| && 0 < Sum(s)
    requires Total(s, cur, |s|) + Excess(s, cur, |s|) == Sum(s) && Counted(s, cur, i) <= Total(s, cur, |s|)
    ensures Mean(Counted(s, cur, i) as real + Scaled(Excess(s, cur, |s|), Share(s, cur, i)), Sum(s)) == Share(s, cur, i)
  {
    hide Sum, Counted, Excess, Total, Scaled, Mean, Per;
    var m, t, x := Counted(s, cur, i), Total(s, cur, |s|), Excess(s, cur, |s|);
    TimesFew(Share(s, cur, i));
    if t == 0 {
      TimesNothing(x);
      NoMean(Sum(s));
    } else {
      Geometric(m, t, x);
    }
  }

  lemma TimesNothing(n: nat)
    ensures Scaled(n, 0.0) == 0.0
  {
  }

  lemma NoMean(n: nat)
    requires 0 < n
    ensures Mean(0.0, n) == 0.0
  {
  }

  /** A round that ends with m out of t + x values, and starts over with x, ends with a share of m in t. */
  lemma Geometric(m: nat, t: nat, x: nat)
    requires 0 < t
    ensures Mean(m as real + Scaled(x, Per(m, t)), t + x) == Per(m, t)
  {
    assert (t + x) as real == t as real + x as real;
    Series(m as real, t as real, x as real);
  }
}
