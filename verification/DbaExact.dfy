/** What the bandwidth request leaves in the budget, over all its contexts:
    when the cut grants sum to the frame's total, and when they overrun it. */
module DbaExact {
  import opened Basics
  import opened WaterFill
  import opened DbaRequest

  /** The request list, and what its grants share. */
  function ListFor(c: seq<Alloc>, share: int): (l: seq<nat>)
    ensures forall y :: y in l <==> 0 <= y < |c| && Listed(c[y], share)
    ensures forall i :: 0 <= i < |l| ==> l[i] < |c|
  {
    ListOf(c, |c|, share)
  }

  function RemFor(c: seq<Alloc>, total: int, share: int): int {
    total - DemandOf(c, |c|) + ListedDemand(c, |c|, share)
  }

  // ---------------------------------------------------------------- sums over updates

  lemma {:induction false} DemandUpdate(c: seq<Alloc>, c': seq<Alloc>, x: nat, k: nat)
    requires x < |c| == |c'| && k <= |c| && (forall i :: 0 <= i < |c| && i != x ==> c[i] == c'[i])
    requires c[x].valid && c'[x].valid
    ensures DemandOf(c', k) == DemandOf(c, k) + if x < k then c'[x].cur - c[x].cur else 0
  {
    if k > 0 { DemandUpdate(c, c', x, k - 1); }
  }

  lemma {:induction false} RequestedSum(c: seq<Alloc>, l: seq<nat>)
    requires l != [] && forall i :: 0 <= i < |l| ==> l[i] < |c|
    ensures var n := |l| - 1;
            Sum(Requests(ItemsOf(c, l))) == Sum(Requests(ItemsOf(c, l[..n]))) + c[l[n]].cur
  {
    var n := |l| - 1;
    assert l == l[..n] + [l[n]];
    RequestsSnoc(c, l[..n], l[n]);
  }

  lemma SumLast(g: seq<int>)
    requires g != []
    ensures Sum(g) == Sum(g[..|g| - 1]) + g[|g| - 1]
  {
    assert g == g[..|g| - 1] + [g[|g| - 1]];
    SumConcat(g[..|g| - 1], [g[|g| - 1]]);
  }

  /** The contexts as they were before the last listed grant changed. */
  lemma GrantedPeel(c: seq<Alloc>, c': seq<Alloc>, l: seq<nat>, g: seq<int>) returns (m: seq<Alloc>)
    requires Granted(c, c', l, g) && Distinct(l) && l != []
    ensures var n := |l| - 1;
            && Granted(c, m, l[..n], g[..n]) && Distinct(l[..n])
            && |m| == |c'| && l[n] < |m| && m[l[n]] == c[l[n]]
            && c'[l[n]].valid == c[l[n]].valid && c'[l[n]].cur == g[n]
            && forall i :: 0 <= i < |m| && i != l[n] ==> m[i] == c'[i]
  {
    var n := |l| - 1;
    m := c'[l[n] := c[l[n]]];
    assert forall i :: 0 <= i < n ==> l[..n][i] == l[i] != l[n];
    assert forall y :: y in l ==> y in l[..n] || y == l[n];
  }

  /** Granting a list of valid ids moves the demand by what the grants moved. */
  lemma {:induction false} GrantedSum(c: seq<Alloc>, c': seq<Alloc>, l: seq<nat>, g: seq<int>)
    requires Granted(c, c', l, g) && Distinct(l)
    requires forall y :: y in l ==> 0 <= y < |c| && c[y].valid
    ensures |c'| == |c| && DemandOf(c', |c'|) == DemandOf(c, |c|) - Sum(Requests(ItemsOf(c, l))) + Sum(g)
    decreases |l|
  {
    if l == [] {
      GrantedNothing(c, c', l, g);
    } else {
      hide Granted, Distinct, DemandOf, ItemsOf, Requests, Sum;
      var n := |l| - 1;
      GrantedShape(c, c', l, g);
      var m := GrantedPeel(c, c', l, g);
      GrantedSum(c, m, l[..n], g[..n]);
      DemandUpdate(m, c', l[n], |c|);
      RequestedSum(c, l);
      SumLast(g);
    }
  }

  lemma GrantedShape(c: seq<Alloc>, c': seq<Alloc>, l: seq<nat>, g: seq<int>)
    requires Granted(c, c', l, g)
    ensures |c'| == |c| && |g| == |l| && forall i :: 0 <= i < |l| ==> l[i] < |c|
  {
  }

  lemma GrantedNothing(c: seq<Alloc>, c': seq<Alloc>, l: seq<nat>, g: seq<int>)
    requires Granted(c, c', l, g) && l == []
    ensures c' == c && Sum(g) == 0 && Sum(Requests(ItemsOf(c, l))) == 0
  {
  }

  // ---------------------------------------------------------------- the list as items

  lemma ItemsReasonable(c: seq<Alloc>, l: seq<nat>, share: int)
    requires Measured(c) && Grouped(c, share) && 0 <= share && SortedBy(c, l)
    requires forall y :: y in l ==> 0 <= y < |c| && Listed(c[y], share)
    ensures Sorted(ItemsOf(c, l)) && Reasonable(ItemsOf(c, l)) && Plausible(ItemsOf(c, l))
  {
    var t := ItemsOf(c, l);
    forall i | 0 <= i < |t| ensures 0 <= t[i].cur && (t[i].assured ==> 0 < t[i].assure < t[i].cur < 0x1_0000) {
      assert l[i] in l;
    }
  }

  /** All the fit needs of its list. */
  lemma ListReady(c: seq<Alloc>, total: int, share: int)
    requires Measured(c) && Grouped(c, share) && 0 <= share && DemandOf(c, |c|) > total
    ensures var l := ListFor(c, share);
            && Sorted(ItemsOf(c, l)) && Reasonable(ItemsOf(c, l)) && Plausible(ItemsOf(c, l))
            && Distinct(l) && Sum(Requests(ItemsOf(c, l))) == ListedDemand(c, |c|, share) > RemFor(c, total, share)
            && forall y :: y in l ==> 0 <= y < |c| && c[y].valid
  {
    hide ItemsOf, Sorted, Reasonable, Plausible, Distinct, SortedBy, Measured, Grouped;
    ListSorted(c, |c|, share);
    ItemsReasonable(c, ListFor(c, share), share);
  }

  lemma {:induction false} UnlistedFits(c: seq<Alloc>, k: nat, share: int)
    requires k <= |c| && 0 <= share && (forall i :: 0 <= i < |c| && c[i].valid ==> 0 <= c[i].cur)
    ensures 0 <= ListedDemand(c, k, share) <= DemandOf(c, k)
  {
    if k > 0 { UnlistedFits(c, k - 1, share); }
  }

  // ---------------------------------------------------------------- main results

  /** Grants that were demanded below the level stand, the others end at it. */
  predicate CutAtLevel(c: seq<Alloc>, after: seq<Alloc>, share: int, level: int)
    requires |after| == |c|
  {
    forall i :: 0 <= i < |c| && Listed(c[i], share) ==>
      || after[i].cur == c[i].cur <= level
      || level <= after[i].cur <= level + 1 <= c[i].cur
  }

  lemma LevelledCuts(c: seq<Alloc>, after: seq<Alloc>, l: seq<nat>, g: seq<int>, k: nat, share: int, level: int)
    requires l == ListFor(c, share) && Granted(c, after, l, g) && Levelled(ItemsOf(c, l), g, k, level)
    ensures |after| == |c| && CutAtLevel(c, after, share, level)
    ensures forall i :: 0 <= i < |c| ==> after[i].cur <= c[i].cur
    ensures forall i :: 0 <= i < |c| && !Listed(c[i], share) ==> after[i] == c[i]
  {
    hide Listed, ListFor;
    forall i | 0 <= i < |c| && Listed(c[i], share)
      ensures after[i].cur <= c[i].cur
      ensures after[i].cur == c[i].cur <= level || level <= after[i].cur <= level + 1 <= c[i].cur
    {
      var j :| 0 <= j < |l| && l[j] == i;
      assert after[l[j]].cur == g[j] && ItemsOf(c, l)[j].cur == c[i].cur;
    }
  }

  /** A demand above the budget, with room for the list and nothing assured from
      the cut on, ends with grants that sum to exactly the total; no grant grew,
      unlisted ones stand, and the listed ones are cut to one water level. */
  lemma BudgetExact(c: seq<Alloc>, after: seq<Alloc>, total: int, share: int)
    requires Measured(c) && Grouped(c, share) && 0 <= share && 0 <= total < 0x1_0000
    requires Settled(c, after, total, share) && DemandOf(c, |c|) > total
    requires RemFor(c, total, share) > 0
    requires Unassured(AtCut(ItemsOf(c, ListFor(c, share)), RemFor(c, total, share)))
    ensures |after| == |c| && DemandOf(after, |after|) == total
    ensures exists level :: CutAtLevel(c, after, share, level)
    ensures forall i :: 0 <= i < |c| ==> after[i].cur <= c[i].cur
    ensures forall i :: 0 <= i < |c| && !Listed(c[i], share) ==> after[i] == c[i]
  {
    hide ItemsOf, Sorted, Reasonable, Plausible, Distinct, Granted, Fill, AtCut, Unassured,
         Levelled, Cut, Level, Sum, Requests, DemandOf, ListedDemand, Listed, CutAtLevel;
    var l, rem := ListFor(c, share), RemFor(c, total, share);
    var t := ItemsOf(c, l);
    RemBelow(c, total, share);
    ListReady(c, total, share);
    FillExact(t, rem);
    GrantedSum(c, after, l, Fill(t, rem));
    LevelledCuts(c, after, l, Fill(t, rem), Cut(t, rem), share, Level(t, rem));
  }

  lemma RemBelow(c: seq<Alloc>, total: int, share: int)
    requires Measured(c) && 0 <= share
    ensures RemFor(c, total, share) <= total
  {
    UnlistedFits(c, |c|, share);
  }

  lemma {:induction false} SumZeros(n: nat)
    ensures Sum(Zeros(n)) == 0
  {
    if n > 0 {
      SumZeros(n - 1);
      assert Zeros(n)[1..] == Zeros(n - 1);
    }
  }

  /** The grants at the cut: AboveAssured ones assured below the share demoted. */
  function CutItems(c: seq<Alloc>, total: int, share: int): seq<Item> {
    AtCut(ItemsOf(c, ListFor(c, share)), RemFor(c, total, share))
  }

  function LeftFor(c: seq<Alloc>, total: int, share: int): int {
    LeftAtCut(ItemsOf(c, ListFor(c, share)), RemFor(c, total, share))
  }

  /** No assured grant left at the cut, or only assured ones whose sum fits. */
  predicate AssuredStay(c: seq<Alloc>, total: int, share: int) {
    var d := CutItems(c, total, share);
    Assureds(d) == 0 || (Assureds(d) == |d| && AssureSum(d) <= LeftFor(c, total, share))
  }

  /** Where assured grants at the cut stand beside sharing ones, the even share
      does not wrap; nothing is asked where none do. */
  predicate NoShareWraps(c: seq<Alloc>, total: int, share: int) {
    DemandOf(c, |c|) > total && RemFor(c, total, share) > 0 ==>
      SharesFit(CutItems(c, total, share), LeftFor(c, total, share))
  }

  /** None wraps as long as the demand and the total fit 16 bits together. */
  lemma SmallDemandFits(c: seq<Alloc>, total: int, share: int)
    requires Measured(c) && Grouped(c, share) && 0 <= share && DemandOf(c, |c|) + total <= 0xFFFF
    ensures NoShareWraps(c, total, share)
  {
    hide ItemsOf, Sorted, Reasonable, Plausible, Distinct, AtCut, LeftAtCut, Sum, Requests, SharesFit,
         DemandOf, ListedDemand, Listed, ListOf, Assureds;
    var rem := RemFor(c, total, share);
    if DemandOf(c, |c|) > total && rem > 0 {
      var t := ItemsOf(c, ListFor(c, share));
      RemBelow(c, total, share);
      ListReady(c, total, share);
      UnlistedFits(c, |c|, share);
      AtCutReasonable(t, rem);
      CutShrinks(t, rem);
      SharesFitWhen(AtCut(t, rem), LeftAtCut(t, rem));
    }
  }

  /** The grants fit the frame if and only if the demand does, or the unlisted
      demand alone just fills it, or there is room for the list and the assured
      grants at the cut do not overdraw it. */
  lemma BudgetMetIff(c: seq<Alloc>, after: seq<Alloc>, total: int, share: int)
    requires Measured(c) && Grouped(c, share) && 0 <= share && 0 <= total < 0x1_0000
    requires Settled(c, after, total, share)
    requires NoShareWraps(c, total, share)
    ensures DemandOf(after, |after|) <= total <==>
      || DemandOf(c, |c|) <= total
      || RemFor(c, total, share) == 0
      || (RemFor(c, total, share) > 0 && AssuredStay(c, total, share))
  {
    hide ItemsOf, Sorted, Reasonable, Plausible, Distinct, Granted, Fill, AtCut, LeftAtCut,
         Sum, Requests, DemandOf, ListedDemand, Listed, Zeros, Assureds, AssureSum, Overs, ListOf;
    if DemandOf(c, |c|) > total {
      var l, rem := ListFor(c, share), RemFor(c, total, share);
      RemBelow(c, total, share);
      ListReady(c, total, share);
      if rem <= 0 {
        SumZeros(|l|);
        GrantedSum(c, after, l, Zeros(|l|));
      } else {
        FitsIff(ItemsOf(c, l), rem);
        GrantedSum(c, after, l, Fill(ItemsOf(c, l), rem));
      }
    }
  }

  // ---------------------------------------------------------------- what each kind is granted

  /** A grant the request may cut: above its share, and above its contract if it
      has one to be assured of. */
  predicate MayBeCut(a: Alloc, adapt: int, share: int) {
    a.valid && adapt > share && (a.kind == 4 || ((a.kind == 3 || a.kind == 5) && adapt > a.assure))
  }

  /** What an alloc id asks for: nothing if it is not valid; its contract, for two
      frames under the new DBA, if it is fixed; what its adaptation left it if it is
      of a kind that adapts; else two units. */
  predicate Asks(a: Alloc, adapt: int, dual: bool, asked: int) {
    && (!a.valid ==> asked == a.cur)
    && (a.valid && a.kind == 1 ==> asked == a.fix + if dual then a.fix else 0)
    && (a.valid && 2 <= a.kind <= 5 ==> asked == adapt)
    && (a.valid && !(1 <= a.kind <= 5) ==> asked == 2)
  }

  lemma DemandedAsks(ctx: seq<Alloc>, adapts: seq<int>, dual: bool, share: int, i: nat)
    requires i < |ctx| == |adapts|
    ensures var d := DemandedAll(ctx, adapts, dual, share)[i];
            && Asks(ctx[i], adapts[i], dual, d.cur) && d == ctx[i].(cur := d.cur, group := d.group)
            && (Listed(d, share) <==> MayBeCut(ctx[i], adapts[i], share))
  {
  }

  /** After the request every alloc id has what it asked for, unless it may be cut
      and the demand passes the total; its contract stands. A fixed T-CONT is never
      cut. */
  lemma RequestLeaves(ctx: seq<Alloc>, adapts: seq<int>, dual: bool, after: seq<Alloc>, total: int, share: int, i: nat)
    requires i < |ctx| == |adapts| && 0 <= share
    requires Settled(DemandedAll(ctx, adapts, dual, share), after, total, share)
    ensures |after| == |ctx| && after[i] == ctx[i].(cur := after[i].cur, group := after[i].group)
    ensures var c := DemandedAll(ctx, adapts, dual, share);
            DemandOf(c, |c|) <= total || !MayBeCut(ctx[i], adapts[i], share) ==>
              Asks(ctx[i], adapts[i], dual, after[i].cur)
    ensures ctx[i].valid && ctx[i].kind == 1 ==> after[i].cur == ctx[i].fix + if dual then ctx[i].fix else 0
  {
    hide Fill, ItemsOf, DemandOf, ListedDemand, Listed, DemandedAll;
    var c := DemandedAll(ctx, adapts, dual, share);
    DemandedAsks(ctx, adapts, dual, share, i);
    var l := ListOf(c, |c|, share);
    if i in l {
      var j :| 0 <= j < |l| && l[j] == i;
    }
  }
}
