/** The fit of GPON grants to the frame (dba_bw_request): what the sorted pass
    over the grants above their share computes, and when it meets the budget. */
module WaterFill {
  import opened Basics

  /** One listed grant, in list order: the request, the assured bandwidth, and
      whether the ASSURE group bit is set. */
  datatype Item = Item(cur: int, assure: int, assured: bool)

  function U16(x: int): (r: int)
    ensures 0 <= r < 0x1_0000
  {
    x % 0x1_0000
  }

  function Floor0(x: int): int {
    if x < 0 then 0 else x
  }

  /** The even share of what is left, as the code's 16-bit variable holds it. */
  function Share(rem: int, n: int): int {
    U16(if n > 0 then Floor0(rem) / n else Floor0(rem))
  }

  /** What an assured grant asks over its assured bandwidth, in 16 bits. */
  function Over(i: Item): int {
    if i.assured then U16(i.cur - i.assure) else 0
  }

  function Overs(items: seq<Item>): int {
    if items == [] then 0 else Over(items[0]) + Overs(items[1..])
  }

  function Assureds(items: seq<Item>): (n: nat)
    ensures n <= |items|
  {
    if items == [] then 0 else (if items[0].assured then 1 else 0) + Assureds(items[1..])
  }

  /** At the first overflow, grants assured below the share join the sharing. */
  function Demote(items: seq<Item>, share: int): (r: seq<Item>)
    ensures |r| == |items|
    ensures forall j :: 0 <= j < |r| ==> r[j].cur == items[j].cur && r[j].assure == items[j].assure
    ensures forall j :: 0 <= j < |r| ==> r[j].assured == (items[j].assured && items[j].assure >= share)
  {
    seq(|items|, j requires 0 <= j < |items| =>
      items[j].(assured := items[j].assured && items[j].assure >= share))
  }

  /** The pass after the overflow: assured grants get their assured bandwidth,
      the others an even share of what is left. */
  function Pour(items: seq<Item>, n: int, rem: int): (g: seq<int>)
    ensures |g| == |items|
  {
    if items == [] then []
    else if items[0].assured then [items[0].assure] + Pour(items[1..], n, Floor0(rem) - items[0].assure)
    else [Share(rem, n)] + Pour(items[1..], n - 1, Floor0(rem) - Share(rem, n))
  }

  /** The whole pass: grants fit while the even share covers them. */
  function Fill(items: seq<Item>, rem: int): (g: seq<int>)
    ensures |g| == |items|
  {
    if items == [] then []
    else if Share(rem, |items|) >= items[0].cur then
      [items[0].cur] + Fill(items[1..], Floor0(rem) - items[0].cur)
    else
      var d := Demote(items, Share(rem, |items|));
      Pour(d, |d| - Assureds(d), Floor0(rem) + Overs(d))
  }

  /** Index of the first grant the even share does not cover. */
  function Cut(items: seq<Item>, rem: int): (k: nat)
    ensures k <= |items|
  {
    if items == [] || Share(rem, |items|) < items[0].cur then 0
    else 1 + Cut(items[1..], Floor0(rem) - items[0].cur)
  }

  /** What is left for the grants from the cut on. */
  function LeftAtCut(items: seq<Item>, rem: int): int {
    if items == [] || Share(rem, |items|) < items[0].cur then Floor0(rem)
    else LeftAtCut(items[1..], Floor0(rem) - items[0].cur)
  }

  /** The grants from the cut on, assured ones below the share demoted. */
  function AtCut(items: seq<Item>, rem: int): seq<Item> {
    var k := Cut(items, rem);
    if k == |items| then [] else Demote(items[k..], Share(LeftAtCut(items, rem), |items| - k))
  }

  function Sum(s: seq<int>): int {
    if s == [] then 0 else s[0] + Sum(s[1..])
  }

  function Requests(items: seq<Item>): (r: seq<int>)
    ensures |r| == |items|
  {
    seq(|items|, j requires 0 <= j < |items| => items[j].cur)
  }

  predicate Sorted(items: seq<Item>) {
    forall i, j :: 0 <= i < j < |items| ==> items[i].cur <= items[j].cur
  }

  predicate Plausible(items: seq<Item>) {
    forall i :: 0 <= i < |items| ==> 0 <= items[i].cur
  }

  // ---------------------------------------------------------------- sums

  lemma {:induction false} SumConcat(a: seq<int>, b: seq<int>)
    ensures Sum(a + b) == Sum(a) + Sum(b)
  {
    if a == [] {
      assert a + b == b;
    } else {
      assert (a + b)[1..] == a[1..] + b;
      SumConcat(a[1..], b);
    }
  }

  /** A sharing pass hands out everything, each grant the floor or the ceiling
      of the even share at its start. */
  lemma {:induction false} PourEven(items: seq<Item>, rem: int, q: int)
    requires items != [] && 0 <= rem < 0x1_0000 && q == rem / |items|
    requires forall j :: 0 <= j < |items| ==> !items[j].assured
    ensures var g := Pour(items, |items|, rem);
            && Sum(g) == rem
            && forall j :: 0 <= j < |g| ==> q <= g[j] <= q + (if rem % |items| == 0 then 0 else 1)
    decreases |items|
  {
    var n := |items|;
    assert rem == n * q + rem % n;
    assert 0 <= q <= rem by { DivBounds(rem, n); }
    assert Share(rem, n) == q;
    var g := Pour(items, n, rem);
    assert g == [q] + Pour(items[1..], n - 1, rem - q);
    if n > 1 {
      NextShare(rem, n, q);
      PourEven(items[1..], rem - q, (rem - q) / (n - 1));
    } else {
      assert items[1..] == [];
    }
  }

  /** Taking the floor of the even share leaves the others' even share between
      the same floor and ceiling. */
  lemma NextShare(rem: int, n: int, q: int)
    requires n > 1 && rem >= 0 && q == rem / n
    ensures 0 <= rem - q
    ensures (rem % n < n - 1 && (rem - q) / (n - 1) == q && (rem - q) % (n - 1) == rem % n)
         || (rem % n == n - 1 && (rem - q) / (n - 1) == q + 1 && (rem - q) % (n - 1) == 0)
  {
    var r := rem % n;
    assert rem == n * q + r;
    DivBounds(rem, n);
    assert rem - q == (n - 1) * q + r by { assert n * q - q == (n - 1) * q; }
    if r < n - 1 {
      DivUnique(rem - q, n - 1, q, r);
    } else {
      assert (n - 1) * q + (n - 1) == (n - 1) * (q + 1);
      DivUnique(rem - q, n - 1, q + 1, 0);
    }
  }

  lemma DivUnique(a: int, n: int, q: int, r: int)
    requires n > 0 && a == n * q + r && 0 <= r < n
    ensures a / n == q && a % n == r
  {
    var q', r' := a / n, a % n;
    assert n * (q - q') == r' - r && n * (q' - q) == r - r';
    if q > q' {
      MulAtLeast(n, q - q');
    } else if q < q' {
      MulAtLeast(n, q' - q);
    }
  }

  // ---------------------------------------------------------------- exact and fair

  predicate Unassured(items: seq<Item>) {
    forall i :: 0 <= i < |items| ==> !items[i].assured
  }

  lemma {:induction false} UnassuredCounts(items: seq<Item>)
    requires Unassured(items)
    ensures Assureds(items) == 0 && Overs(items) == 0
  {
    if items != [] { UnassuredCounts(items[1..]); }
  }

  /** The water level: the even share at the first overflow. */
  function Level(items: seq<Item>, rem: int): int
    requires Cut(items, rem) < |items|
  {
    LeftAtCut(items, rem) / (|items| - Cut(items, rem))
  }

  /** Grants below the level stand, every other one is cut to it. */
  predicate Levelled(items: seq<Item>, g: seq<int>, k: nat, level: int)
    requires |g| == |items|
  {
    && (forall i :: 0 <= i < |g| && i < k ==> g[i] == items[i].cur <= level)
    && (forall i :: k <= i < |g| ==> level <= g[i] <= level + 1 <= items[i].cur)
  }

  lemma DemandRest(items: seq<Item>)
    requires items != []
    ensures Sum(Requests(items)) == items[0].cur + Sum(Requests(items[1..]))
  {
    assert Requests(items)[1..] == Requests(items[1..]);
  }

  lemma DivMonotone(a: int, b: int, n: int)
    requires n > 0 && 0 <= a <= b
    ensures a / n <= b / n
  {
    var qa, qb := a / n, b / n;
    assert n * qa - n * qb == n * (qa - qb);
    if qa > qb { MulAtLeast(n, qa - qb); }
  }

  /** The level only rises over the grants that fit. */
  lemma {:induction false} LevelRises(items: seq<Item>, rem: int)
    requires 0 <= rem < 0x1_0000 && items != [] && Cut(items, rem) < |items| && Plausible(items)
    ensures rem / |items| <= Level(items, rem)
    ensures 0 <= LeftAtCut(items, rem) <= rem
    decreases |items|
  {
    var n, c := |items|, items[0].cur;
    DivBounds(rem, n);
    if Cut(items, rem) > 0 {
      assert n > 1;
      NextShare(rem, n, rem / n);
      DivMonotone(rem - rem / n, rem - c, n - 1);
      LevelRises(items[1..], rem - c);
    }
  }

  /** With nothing assured from the cut on, a pass that must cut hands out
      exactly what it was given, and every grant ends at the water level. */
  lemma {:induction false} FillExact(items: seq<Item>, rem: int)
    requires Sorted(items) && Plausible(items) && 0 <= rem < 0x1_0000
    requires Sum(Requests(items)) > rem
    requires Unassured(AtCut(items, rem))
    ensures Cut(items, rem) < |items|
    ensures Sum(Fill(items, rem)) == rem
    ensures Levelled(items, Fill(items, rem), Cut(items, rem), Level(items, rem))
    decreases |items|
  {
    hide Level, Share, Pour, Demote, AtCut, Fill, Levelled;
    DemandRest(items);
    var n, c := |items|, items[0].cur;
    ShareIs(rem, n);
    if Share(rem, n) >= c {
      CutLater(items, rem);
      FillExact(items[1..], rem - c);
      LevelRises(items, rem);
      FitsFirst(items, rem);
    } else {
      CutHere(items, rem);
    }
  }

  lemma CutLater(items: seq<Item>, rem: int)
    requires items != [] && rem >= 0 && Share(rem, |items|) >= items[0].cur
    ensures AtCut(items, rem) == AtCut(items[1..], rem - items[0].cur)
    ensures Cut(items, rem) == 1 + Cut(items[1..], rem - items[0].cur)
    ensures LeftAtCut(items, rem) == LeftAtCut(items[1..], rem - items[0].cur)
    ensures Cut(items, rem) < |items| ==> Level(items, rem) == Level(items[1..], rem - items[0].cur)
  {
    hide Share, Demote;
    var k := Cut(items, rem);
    assert items[1..][k - 1..] == items[k..];
  }

  lemma FitsFirst(items: seq<Item>, rem: int)
    requires items != [] && 0 <= rem < 0x1_0000 && Share(rem, |items|) >= items[0].cur
    requires var rest := items[1..];
             var g := Fill(rest, rem - items[0].cur);
             && Cut(rest, rem - items[0].cur) < |rest| && Cut(items, rem) < |items|
             && Levelled(rest, g, Cut(rest, rem - items[0].cur), Level(items, rem))
             && Sum(g) == rem - items[0].cur
    requires items[0].cur <= Level(items, rem)
    ensures Sum(Fill(items, rem)) == rem
    ensures Levelled(items, Fill(items, rem), Cut(items, rem), Level(items, rem))
  {
    hide Level, Share, Fill, Sum, Pour, Demote, Cut, LeftAtCut;
    CutLater(items, rem);
    var h := Fill(items[1..], rem - items[0].cur);
    var g := Fill(items, rem);
    FillUnfold(items, rem);
    SumFirst(items[0].cur, h);
    assert g == [items[0].cur] + h;
    assert forall i :: 1 <= i < |g| ==> g[i] == h[i - 1] && items[i] == items[1..][i - 1];
  }

  lemma CutHere(items: seq<Item>, rem: int)
    requires items != [] && 0 <= rem < 0x1_0000 && Share(rem, |items|) < items[0].cur
    requires Sorted(items) && Unassured(AtCut(items, rem))
    ensures Sum(Fill(items, rem)) == rem
    ensures Levelled(items, Fill(items, rem), 0, Level(items, rem))
  {
    hide Level, Share, Pour, Demote;
    var q := rem / |items|;
    ShareIs(rem, |items|);
    var d := Demote(items, q);
    assert items[0..] == items;
    assert d == AtCut(items, rem);
    FillHere(items, rem, d);
    PourEven(d, rem, q);
    LevelHere(items, rem);
    EvenLevels(items, Fill(items, rem), q);
  }

  lemma ShareIs(rem: int, n: int)
    requires 0 <= rem < 0x1_0000 && n > 0
    ensures Share(rem, n) == rem / n && 0 <= rem / n <= rem
  {
    DivBounds(rem, n);
  }

  lemma FillHere(items: seq<Item>, rem: int, d: seq<Item>)
    requires items != [] && rem >= 0 && Share(rem, |items|) < items[0].cur
    requires d == Demote(items, Share(rem, |items|)) && Unassured(d)
    ensures Fill(items, rem) == Pour(d, |d|, rem)
  {
    hide Share, Pour, Demote, Fill, Assureds, Overs;
    UnassuredCounts(d);
    FillUnfold(items, rem);
  }

  lemma FillUnfold(items: seq<Item>, rem: int)
    requires items != []
    ensures Fill(items, rem) == if Share(rem, |items|) >= items[0].cur
      then [items[0].cur] + Fill(items[1..], Floor0(rem) - items[0].cur)
      else var d := Demote(items, Share(rem, |items|)); Pour(d, |d| - Assureds(d), Floor0(rem) + Overs(d))
  {
    hide Share, Pour, Demote, Assureds, Overs;
  }

  lemma LevelHere(items: seq<Item>, rem: int)
    requires items != [] && rem >= 0 && Share(rem, |items|) < items[0].cur
    ensures Cut(items, rem) == 0 && Level(items, rem) == rem / |items|
  {
    hide Share;
  }

  lemma EvenLevels(items: seq<Item>, g: seq<int>, q: int)
    requires items != [] && |g| == |items| && Sorted(items) && q < items[0].cur
    requires forall j :: 0 <= j < |g| ==> q <= g[j] <= q + 1
    ensures Levelled(items, g, 0, q)
  {
    assert forall i :: 0 <= i < |items| ==> items[0].cur <= items[i].cur;
  }

  // ---------------------------------------------------------------- assured grants

  predicate Reasonable(items: seq<Item>) {
    forall i :: 0 <= i < |items| ==>
      0 <= items[i].cur && (items[i].assured ==> 0 < items[i].assure < items[i].cur < 0x1_0000)
  }

  function AssureSum(items: seq<Item>): int {
    if items == [] then 0 else items[0].assure + AssureSum(items[1..])
  }

  /** While one grant still shares, the pass hands out all it has, and more when
      assured grants have already overdrawn it; an even share past 16 bits would
      wrap. */
  lemma {:induction false} PourAtLeast(items: seq<Item>, rem: int)
    requires Reasonable(items)
    requires var n := |items| - Assureds(items); n > 0 ==> rem <= 0xFFFF * n
    ensures Sum(Pour(items, |items| - Assureds(items), rem)) >=
            if Assureds(items) < |items| then Floor0(rem) else 0
    decreases |items|
  {
    hide Share;
    if items != [] {
      var n := |items| - Assureds(items);
      if items[0].assured {
        PourAtLeast(items[1..], Floor0(rem) - items[0].assure);
      } else {
        SharesOut(rem, n);
        PourAtLeast(items[1..], Floor0(rem) - Share(rem, n));
      }
    }
  }

  /** A share that does not wrap leaves one that does not either. */
  lemma SharesOut(rem: int, n: int)
    requires n > 0 && rem <= 0xFFFF * n
    ensures var left := Floor0(rem) - Share(rem, n);
            0 <= left && (n == 1 ==> left == 0) && (n > 1 ==> left <= 0xFFFF * (n - 1))
  {
    var r, full := Floor0(rem), 0xFFFF * n;
    var q := r / n;
    DivBounds(r, n);
    DivMonotone(r, full, n);
    DivUnique(full, n, 0xFFFF, 0);
    assert Share(rem, n) == q;
    if n > 1 {
      NextShare(r, n, q);
      LeftFits(r - q, n - 1, q);
    }
  }

  lemma LeftFits(left: int, n: int, q: int)
    requires n > 0 && 0 <= q <= 0xFFFF && (q == 0xFFFF ==> left == n * q)
    requires left / n == q || left == n * (q + 1)
    ensures left <= 0xFFFF * n
  {
    if q < 0xFFFF {
      assert left == n * (left / n) + left % n;
      assert n * (q + 1) == n * q + n;
      MulOrder(n, q + 1, 0xFFFF);
    }
  }

  lemma {:induction false} PourAssured(items: seq<Item>, n: int, rem: int)
    requires Assureds(items) == |items|
    ensures Sum(Pour(items, n, rem)) == AssureSum(items)
  {
    if items != [] { PourAssured(items[1..], n, Floor0(rem) - items[0].assure); }
  }

  lemma {:induction false} PourGives(items: seq<Item>, n: int, rem: int, j: nat)
    requires j < |items| && items[j].assured
    ensures Pour(items, n, rem)[j] == items[j].assure
    decreases |items|
  {
    hide Share;
    if j > 0 {
      if items[0].assured {
        PourGives(items[1..], n, Floor0(rem) - items[0].assure, j - 1);
      } else {
        PourGives(items[1..], n - 1, Floor0(rem) - Share(rem, n), j - 1);
      }
    }
  }

  lemma {:induction false} OversPositive(items: seq<Item>)
    requires Reasonable(items)
    ensures Overs(items) >= Assureds(items)
  {
    if items != [] { OversPositive(items[1..]); }
  }

  lemma {:induction false} NoneAssured(items: seq<Item>)
    requires Assureds(items) == 0
    ensures Unassured(items)
  {
    if items != [] {
      NoneAssured(items[1..]);
      assert forall i :: 1 <= i < |items| ==> items[i] == items[1..][i - 1];
    }
  }

  /** The grants before the cut use up rem down to what is left at the cut. */
  lemma {:induction false} FillSplits(items: seq<Item>, rem: int)
    requires rem >= 0 && Cut(items, rem) < |items|
    ensures var d := AtCut(items, rem);
            Sum(Fill(items, rem)) ==
              rem - LeftAtCut(items, rem)
              + Sum(Pour(d, |d| - Assureds(d), LeftAtCut(items, rem) + Overs(d)))
    decreases |items|
  {
    hide Pour, Demote, Fill, Share, Assureds, Overs, AtCut, LeftAtCut, Cut, Sum;
    CutUnfold(items, rem);
    FillUnfold(items, rem);
    if Share(rem, |items|) >= items[0].cur {
      ShareCovers(rem, |items|, items[0].cur);
      CutLater(items, rem);
      var rest := Fill(items[1..], rem - items[0].cur);
      FillSplits(items[1..], rem - items[0].cur);
      SumFirst(items[0].cur, rest);
    }
  }

  lemma SumFirst(x: int, s: seq<int>)
    ensures Sum([x] + s) == x + Sum(s)
  {
    assert ([x] + s)[1..] == s;
  }

  lemma CutUnfold(items: seq<Item>, rem: int)
    ensures items == [] ==> Cut(items, rem) == 0
    ensures items != [] && Share(rem, |items|) < items[0].cur ==>
      Cut(items, rem) == 0 && LeftAtCut(items, rem) == Floor0(rem)
      && AtCut(items, rem) == Demote(items, Share(Floor0(rem), |items|))
    ensures rem >= 0 ==> Floor0(rem) == rem
  {
    hide Share, Demote;
    assert items[0..] == items;
  }

  lemma ShareCovers(rem: int, n: int, c: int)
    requires rem >= 0 && n > 0 && Share(rem, n) >= c
    ensures rem - c >= 0
  {
    DivBounds(rem, n);
  }

  /** A demand above the budget is cut somewhere. */
  lemma {:induction false} MustCut(items: seq<Item>, rem: int)
    requires rem >= 0 && Sum(Requests(items)) > rem
    ensures Cut(items, rem) < |items|
    decreases |items|
  {
    DemandRest(items);
    if Share(rem, |items|) >= items[0].cur {
      ShareCovers(rem, |items|, items[0].cur);
      MustCut(items[1..], rem - items[0].cur);
    }
  }

  lemma AtCutReasonable(items: seq<Item>, rem: int)
    requires Reasonable(items)
    ensures Reasonable(AtCut(items, rem))
  {
  }

  /** Where assured grants stand beside sharing ones, the even share of what the
      pass starts from holds in 16 bits. */
  predicate SharesFit(d: seq<Item>, left: int) {
    0 < Assureds(d) < |d| ==> left + Overs(d) <= 0xFFFF * (|d| - Assureds(d))
  }

  lemma {:induction false} OversBounded(d: seq<Item>)
    requires Reasonable(d)
    ensures 0 <= Overs(d) <= 0xFFFF * Assureds(d) && Overs(d) <= Sum(Requests(d))
  {
    if d != [] {
      OversBounded(d[1..]);
      assert Requests(d)[1..] == Requests(d[1..]);
    }
  }

  /** The share holds when more grants share than are assured, or when the demand
      beside what is left fits 16 bits. */
  lemma SharesFitWhen(d: seq<Item>, left: int)
    requires Reasonable(d) && left <= 0xFFFF
    requires 2 * Assureds(d) < |d| || left + Sum(Requests(d)) <= 0xFFFF
    ensures SharesFit(d, left)
  {
    OversBounded(d);
  }

  lemma RestPlausible(items: seq<Item>)
    requires Plausible(items) && items != []
    ensures Plausible(items[1..]) && 0 <= items[0].cur
  {
  }

  lemma CutFirst(items: seq<Item>, rem: int)
    requires items != [] && rem >= 0 && Share(rem, |items|) < items[0].cur
    ensures LeftAtCut(items, rem) == rem && Requests(AtCut(items, rem)) == Requests(items)
  {
    hide Share, Demote, Cut, AtCut, LeftAtCut;
    CutUnfold(items, rem);
  }

  /** From the cut on no more is left, and asked, than from the start. */
  lemma {:induction false} CutShrinks(items: seq<Item>, rem: int)
    requires rem >= 0 && Plausible(items)
    ensures LeftAtCut(items, rem) <= rem && Sum(Requests(AtCut(items, rem))) <= Sum(Requests(items))
    decreases |items|
  {
    if items != [] {
      hide Share, Demote, Cut, AtCut, LeftAtCut, Sum, Requests, Plausible;
      DemandRest(items);
      RestPlausible(items);
      if Share(rem, |items|) >= items[0].cur {
        ShareCovers(rem, |items|, items[0].cur);
        CutLater(items, rem);
        CutShrinks(items[1..], rem - items[0].cur);
      } else {
        CutFirst(items, rem);
      }
    }
  }

  /** From the cut on a grant that stays assured is cut to exactly its assured
      bandwidth; before the cut every grant stands. */
  lemma {:induction false} FillAssured(items: seq<Item>, rem: int, j: nat)
    requires rem >= 0 && j < |items| && Plausible(items)
    ensures j < Cut(items, rem) ==> Fill(items, rem)[j] == items[j].cur
    ensures Cut(items, rem) <= j && AtCut(items, rem)[j - Cut(items, rem)].assured ==>
              Fill(items, rem)[j] == items[j].assure
    decreases |items|
  {
    hide Share, Demote, Cut, AtCut, Pour, Fill, Assureds, Overs, Plausible;
    RestPlausible(items);
    FillUnfold(items, rem);
    CutUnfold(items, rem);
    if Share(rem, |items|) >= items[0].cur {
      ShareCovers(rem, |items|, items[0].cur);
      CutLater(items, rem);
      if j > 0 { FillAssured(items[1..], rem - items[0].cur, j - 1); }
    } else {
      var d := Demote(items, Share(rem, |items|));
      if d[j].assured { PourGives(d, |d| - Assureds(d), rem + Overs(d), j); }
    }
  }

  /** When the grants must be cut, they fit the budget if and only if no assured
      grant is left at the cut, or only assured ones are and their sum fits.
      Assured grants beside sharing ones always overdraw it, unless the even
      share wraps: what they ask over their assured bandwidth is added to the
      rest instead of taken from it. */
  lemma FitsIff(items: seq<Item>, rem: int)
    requires Sorted(items) && Reasonable(items) && 0 <= rem < 0x1_0000
    requires SharesFit(AtCut(items, rem), LeftAtCut(items, rem))
    requires Sum(Requests(items)) > rem
    ensures var d := AtCut(items, rem);
            Sum(Fill(items, rem)) <= rem <==>
              Assureds(d) == 0 || (Assureds(d) == |d| && AssureSum(d) <= LeftAtCut(items, rem))
  {
    hide Fill, Pour, AtCut, LeftAtCut, Cut, Sorted;
    var d, left := AtCut(items, rem), LeftAtCut(items, rem);
    MustCut(items, rem);
    AtCutReasonable(items, rem);
    FillSplits(items, rem);
    OversPositive(d);
    if Assureds(d) == 0 {
      NoneAssured(d);
      FillExact(items, rem);
    } else if Assureds(d) == |d| {
      PourAssured(d, |d| - Assureds(d), left + Overs(d));
    } else {
      PourAtLeast(d, left + Overs(d));
    }
  }

  /** A share that wraps can fit: 65536 shared by one is 0. */
  lemma WrappedShareFits()
    ensures var items := [Item(65535, 0, false), Item(65535, 1, true)];
            && Sorted(items) && Reasonable(items) && AtCut(items, 2) == items && LeftAtCut(items, 2) == 2
            && Fill(items, 2) == [0, 1] && Sum(Fill(items, 2)) <= 2
            && Assureds(items) == 1 && !SharesFit(items, 2)
  {
    var items := [Item(65535, 0, false), Item(65535, 1, true)];
    assert Share(2, 2) == 1;
    var d := Demote(items, 1);
    assert d == items && items[0..] == items;
    assert items[1..] == [Item(65535, 1, true)] && items[1..][1..] == [];
    assert Assureds(items) == Assureds(items[1..]) == 1;
    assert Overs(items) == Overs(items[1..]) == 65534;
    assert Share(65536, 1) == 0;
    assert Pour(items, 1, 65536) == [0] + Pour(items[1..], 0, 65536);
    assert Pour(items[1..], 0, 65536) == [1] + Pour([], 0, 65535);
    assert Fill(items, 2) == [0, 1];
    SumFirst(0, [1]);
    SumFirst(1, []);
    assert [0] + [1] == [0, 1] && [1] + [] == [1];
  }

  /** An assured grant of 17248 beside a shared one: 21000 are handed out of 19248. */
  lemma AssuredOverdraws()
    ensures Fill([Item(19000, 17248, true), Item(19000, 0, false)], 19248) == [17248, 3752]
  {
    var items := [Item(19000, 17248, true), Item(19000, 0, false)];
    assert Share(19248, 2) == 9624;
    var d := Demote(items, 9624);
    assert d == items;
    assert items[1..] == [Item(19000, 0, false)] && items[1..][1..] == [];
    assert Assureds(items) == 1 + Assureds(items[1..]) == 1;
    assert Overs(items) == 1752 + Overs(items[1..]) == 1752;
    assert Pour(items, 1, 21000) == [17248] + Pour(items[1..], 1, 3752);
    assert Pour(items[1..], 1, 3752) == [3752] + Pour([], 0, 0);
  }
}
