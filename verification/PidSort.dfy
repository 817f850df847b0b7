/** sort_pids (src/adapter.cpp:1546-1570): the in-place bubble sort that brings busy pids to the front. */
module PidSort {
  import opened PidTable

  /** What sort_pids orders by: live slots before free ones, then by packet count. */
  function Weight(s: Slot): nat { if IsLive(s) then s.packets + 1 else 0 }

  function SwapAt(s: Slots, i: nat): (r: Slots)
    requires i + 1 < |s|
    ensures |r| == |s|
  {
    s[i := s[i + 1]][i + 1 := s[i]]
  }

  function PassStep(s: Slots, i: nat): (r: Slots)
    requires i + 1 < |s|
    ensures |r| == |s|
  {
    if Weight(s[i]) < Weight(s[i + 1]) then SwapAt(s, i) else s
  }

  /** The first i comparisons of one pass of sort_pids. */
  function Pass(s: Slots, i: nat): (r: Slots)
    requires i < |s| || i == 0
    ensures |r| == |s|
  {
    if i == 0 then s else PassStep(Pass(s, i - 1), i - 1)
  }

  function FullPass(s: Slots): (r: Slots)
    ensures |r| == |s|
  {
    Pass(s, if s == [] then 0 else |s| - 1)
  }

  /** Each slot's weight times its position: every swap lowers it. */
  function Potential(s: Slots): nat {
    if s == [] then 0 else Potential(s[..|s| - 1]) + (|s| - 1) * Weight(s[|s| - 1])
  }

  lemma {:induction false} PotentialAfterSwap(s: Slots, i: nat)
    requires i + 1 < |s| && Weight(s[i]) < Weight(s[i + 1])
    ensures Potential(SwapAt(s, i)) == Potential(s) - (Weight(s[i + 1]) - Weight(s[i]))
    decreases |s|
  {
    hide Weight;
    var n, r := |s| - 1, SwapAt(s, i);
    if i + 1 < n {
      PotentialAfterSwap(s[..n], i);
      assert r[..n] == SwapAt(s[..n], i);
    } else {
      var a, b, front := s[i], s[i + 1], s[..i];
      assert s[..n][..i] == front && r[..n][..i] == front;
      assert Potential(s) == Potential(front) + i * Weight(a) + (i + 1) * Weight(b);
      assert Potential(r) == Potential(front) + i * Weight(b) + (i + 1) * Weight(a);
      SwapWeights(i, Weight(a), Weight(b));
    }
  }

  lemma SwapWeights(i: nat, a: nat, b: nat)
    ensures i * b + (i + 1) * a == i * a + (i + 1) * b - (b - a)
  {
  }

  /** A pass either finds nothing to swap or lowers the potential. */
  lemma {:induction false} PassLowers(s: Slots, i: nat)
    requires i < |s| || i == 0
    ensures Potential(Pass(s, i)) <= Potential(s)
    ensures Potential(Pass(s, i)) == Potential(s) ==> Pass(s, i) == s && forall j :: 0 < j <= i ==> Weight(s[j - 1]) >= Weight(s[j])
  {
    hide Weight, Potential;
    if i > 0 {
      PassLowers(s, i - 1);
      var p := Pass(s, i - 1);
      if Weight(p[i - 1]) < Weight(p[i]) { PotentialAfterSwap(p, i - 1); }
    }
  }

  /** sort_pids: passes until one swaps nothing. */
  function Bubble(s: Slots): (r: Slots)
    ensures |r| == |s|
    decreases Potential(s)
  {
    var p := FullPass(s);
    PassLowers(s, if s == [] then 0 else |s| - 1);
    if p == s then s else Bubble(p)
  }

  ghost predicate Sorted(s: Slots) { forall i, j | 0 <= i <= j < |s| :: Weight(s[i]) >= Weight(s[j]) }

  lemma {:induction false} AdjacentIsSorted(s: Slots, i: nat, j: nat)
    requires i <= j < |s| && forall k :: 0 < k < |s| ==> Weight(s[k - 1]) >= Weight(s[k])
    ensures Weight(s[i]) >= Weight(s[j])
    decreases j - i
  {
    if i < j { AdjacentIsSorted(s, i, j - 1); }
  }

  lemma {:induction false} BubbleIsSorted(s: Slots)
    ensures Sorted(Bubble(s))
    decreases Potential(s)
  {
    hide Weight, Potential, Pass;
    var p, n := FullPass(s), if s == [] then 0 else |s| - 1;
    PassLowers(s, n);
    if p == s {
      forall i, j | 0 <= i <= j < |s| ensures Weight(s[i]) >= Weight(s[j]) { AdjacentIsSorted(s, i, j); }
    } else {
      BubbleIsSorted(p);
    }
  }

  /** Sorted by weight: live slots first, the busier ones in front. */
  lemma BusyComeFirst(s: Slots, i: nat, j: nat)
    requires i < j < |s|
    ensures var r := Bubble(s);
            IsLive(r[j]) ==> IsLive(r[i]) && r[i].packets >= r[j].packets
  {
    hide Bubble;
    BubbleIsSorted(s);
  }

  /** The slots of one weight, in order. */
  function OfWeight(s: Slots, w: nat): Slots {
    if s == [] then [] else OfWeight(s[..|s| - 1], w) + if Weight(s[|s| - 1]) == w then [s[|s| - 1]] else []
  }

  lemma {:induction false} SwapKeepsOrder(s: Slots, i: nat, w: nat)
    requires i + 1 < |s| && Weight(s[i]) != Weight(s[i + 1])
    ensures OfWeight(SwapAt(s, i), w) == OfWeight(s, w)
    decreases |s|
  {
    hide Weight;
    var n, r := |s| - 1, SwapAt(s, i);
    if i + 1 < n {
      SwapKeepsOrder(s[..n], i, w);
      assert r[..n] == SwapAt(s[..n], i);
    } else {
      assert s[..n][..i] == s[..i] && r[..n][..i] == s[..i];
    }
  }

  lemma {:induction false} PassKeepsOrder(s: Slots, i: nat, w: nat)
    requires i < |s| || i == 0
    ensures OfWeight(Pass(s, i), w) == OfWeight(s, w)
  {
    hide Weight, OfWeight;
    if i > 0 {
      PassKeepsOrder(s, i - 1, w);
      var p := Pass(s, i - 1);
      if Weight(p[i - 1]) < Weight(p[i]) { SwapKeepsOrder(p, i - 1, w); }
    }
  }

  /** Sorting loses no slot and keeps slots of the same weight in their order. */
  lemma {:induction false} BubbleIsStable(s: Slots, w: nat)
    ensures OfWeight(Bubble(s), w) == OfWeight(s, w)
    decreases Potential(s)
  {
    hide Weight, Potential, Pass, OfWeight;
    var n := if s == [] then 0 else |s| - 1;
    PassLowers(s, n);
    PassKeepsOrder(s, n, w);
    if FullPass(s) != s { BubbleIsStable(FullPass(s), w); }
  }

  lemma {:induction false} OfWeightHas(s: Slots, w: nat)
    ensures OfWeight(s, w) != [] <==> exists i :: 0 <= i < |s| && Weight(s[i]) == w
  {
    hide Weight;
    if s != [] {
      var n := |s| - 1;
      OfWeightHas(s[..n], w);
      assert forall i :: 0 <= i < n ==> s[..n][i] == s[i];
    }
  }

  /** A sorted list ends with its lowest weight; two sorted lists with the same slots of each weight end alike. */
  lemma SameLast(a: Slots, b: Slots)
    requires Sorted(a) && Sorted(b) && (forall w :: OfWeight(a, w) == OfWeight(b, w)) && a != []
    ensures b != [] && Weight(a[|a| - 1]) == Weight(b[|b| - 1])
  {
    hide Weight, OfWeight;
    var w := Weight(a[|a| - 1]);
    OfWeightHas(a, w);
    OfWeightHas(b, w);
    var v := Weight(b[|b| - 1]);
    OfWeightHas(b, v);
    OfWeightHas(a, v);
  }

  /** Order and stability leave one possible result. */
  lemma {:induction false} StableSortIsUnique(a: Slots, b: Slots)
    requires Sorted(a) && Sorted(b) && forall w :: OfWeight(a, w) == OfWeight(b, w)
    ensures a == b
    decreases |a|
  {
    if a == [] {
      if b != [] { SameLast(b, a); }
    } else {
      SameLast(a, b);
      var n, m := |a| - 1, |b| - 1;
      var w := Weight(a[n]);
      assert OfWeight(a, w)[|OfWeight(a, w)| - 1] == a[n] && OfWeight(b, w)[|OfWeight(b, w)| - 1] == b[m];
      forall v ensures OfWeight(a[..n], v) == OfWeight(b[..m], v) {
        WithoutLast(a, v);
        WithoutLast(b, v);
      }
      StableSortIsUnique(a[..n], b[..m]);
      assert a == a[..n] + [a[n]] && b == b[..m] + [b[m]];
    }
  }

  lemma WithoutLast(s: Slots, v: nat)
    requires s != []
    ensures OfWeight(s[..|s| - 1], v) ==
            if Weight(s[|s| - 1]) == v then OfWeight(s, v)[..|OfWeight(s, v)| - 1] else OfWeight(s, v)
  {
  }

  lemma SwapKeepsInv(t: Table, i: nat)
    requires Inv(t) && i + 1 < |t.slots|
    ensures Inv(t.(slots := SwapAt(t.slots, i)))
  {
    var s, r := t.slots, SwapAt(t.slots, i);
    forall p ensures p in t.open <==> exists j :: IsOpen(r, j, p) {
      if j :| IsOpen(s, j, p) { assert IsOpen(r, if j == i then i + 1 else if j == i + 1 then i else j, p); }
      if j :| IsOpen(r, j, p) { assert IsOpen(s, if j == i then i + 1 else if j == i + 1 then i else j, p); }
    }
  }

  lemma {:induction false} PassKeepsInv(t: Table, i: nat)
    requires Inv(t) && (i < |t.slots| || i == 0)
    ensures Inv(t.(slots := Pass(t.slots, i)))
  {
    hide Inv, Weight;
    if i > 0 {
      PassKeepsInv(t, i - 1);
      SwapKeepsInv(t.(slots := Pass(t.slots, i - 1)), i - 1);
    }
  }

  lemma {:induction false} BubbleKeepsInv(t: Table)
    requires Inv(t)
    ensures Inv(t.(slots := Bubble(t.slots)))
    decreases Potential(t.slots)
  {
    hide Inv, Potential, Pass, Weight;
    var n := if t.slots == [] then 0 else |t.slots| - 1;
    PassLowers(t.slots, n);
    PassKeepsInv(t, n);
    if FullPass(t.slots) != t.slots { BubbleKeepsInv(t.(slots := FullPass(t.slots))); }
  }
}
