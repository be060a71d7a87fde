/** dba_bw_request and dba_sort_bw, in place on the allocation contexts: the
    demand of every alloc id, the sorted list of those above their share, and
    the pass of WaterFill over it. */
module DbaRequest {
  import opened Basics
  import opened WaterFill

  /** state bits 5:3 of an allocation. */
  datatype Group = Plain | AboveShare | AboveAssured

  /** One alloc id: its T-CONT contract and the grant for the next map. kind is
      the DBA type: 1 fixed, 2 assured, 3 and 5 assured and more, 4 best effort. */
  datatype Alloc = Alloc(valid: bool, fec: bool, id: int, kind: int, fix: int, assure: int, cur: int, group: Group)

  // ---------------------------------------------------------------- sorting

  /** The list with x sunk below the larger grants at its end; the key is read
      in 16 bits. */
  function Sink(ctx: seq<Alloc>, s: seq<nat>, x: nat): (r: seq<nat>)
    requires x < |ctx| && forall i :: 0 <= i < |s| ==> s[i] < |ctx|
    ensures |r| == |s| + 1 && forall i :: 0 <= i < |r| ==> r[i] < |ctx| && r[i] in r
    ensures forall y :: y in r <==> y == x || y in s
  {
    if s == [] then [x]
    else
      var e := s[|s| - 1];
      if U16(ctx[x].cur) >= ctx[e].cur then s + [x]
      else
        assert s == s[..|s| - 1] + [e];
        Sink(ctx, s[..|s| - 1], x) + [e]
  }

  /** The list with position i vacated for x: what the insertion loop holds. */
  function Gap(was: seq<nat>, i: nat, x: nat, end: nat): seq<nat>
    requires i <= end < |was|
  {
    was[..i] + [x] + was[i..end] + was[end + 1..]
  }

  lemma GapMoves(was: seq<nat>, i: nat, x: nat, end: nat)
    requires 0 < i <= end < |was|
    ensures |Gap(was, i, x, end)| == |was| && Gap(was, i, x, end)[i - 1] == was[i - 1]
    ensures Gap(was, i, x, end)[i := was[i - 1]][i - 1 := x] == Gap(was, i - 1, x, end)
  {
  }

  /** Sinking into list[start..end] comes down to sinking into its first part. */
  predicate SinksTo(ctx: seq<Alloc>, list: seq<nat>, start: nat, end: nat, i: nat, x: nat) {
    && start <= i <= end < |list| && x < |ctx| && (forall k :: start <= k < end ==> list[k] < |ctx|)
    && Sink(ctx, list[start..end], x) == Sink(ctx, list[start..i], x) + list[i..end]
  }

  lemma SinksStep(ctx: seq<Alloc>, list: seq<nat>, start: nat, end: nat, i: nat, x: nat)
    requires SinksTo(ctx, list, start, end, i, x) && start < i && U16(ctx[x].cur) < ctx[list[i - 1]].cur
    ensures SinksTo(ctx, list, start, end, i - 1, x)
  {
    hide U16;
    assert list[start..i][..i - 1 - start] == list[start..i - 1];
    assert list[i - 1..end] == [list[i - 1]] + list[i..end];
  }

  /** Stopped at the front or below a grant no larger: the list is sunk. */
  lemma SinksDone(ctx: seq<Alloc>, list: seq<nat>, start: nat, end: nat, i: nat, x: nat)
    requires SinksTo(ctx, list, start, end, i, x)
    requires i == start || U16(ctx[x].cur) >= ctx[list[i - 1]].cur
    ensures Gap(list, i, x, end) == list[..start] + Sink(ctx, list[start..end], x) + list[end + 1..]
  {
    hide Sink, U16;
    SinkStops(ctx, list[start..i], x);
    GapJoins(list, start, i, x, end);
  }

  lemma GapJoins(list: seq<nat>, start: nat, i: nat, x: nat, end: nat)
    requires start <= i <= end < |list|
    ensures Gap(list, i, x, end) == list[..start] + (list[start..i] + [x] + list[i..end]) + list[end + 1..]
  {
    assert list[..i] == list[..start] + list[start..i];
  }

  lemma SinkStops(ctx: seq<Alloc>, s: seq<nat>, x: nat)
    requires x < |ctx| && forall i :: 0 <= i < |s| ==> s[i] < |ctx|
    requires s == [] || U16(ctx[x].cur) >= ctx[s[|s| - 1]].cur
    ensures Sink(ctx, s, x) == s + [x]
  {
  }

  lemma SinksStart(ctx: seq<Alloc>, list: seq<nat>, start: nat, end: nat)
    requires start <= end < |list| && forall k :: start <= k <= end ==> list[k] < |ctx|
    ensures SinksTo(ctx, list, start, end, end, list[end]) && list == Gap(list, end, list[end], end)
  {
    assert list[end..end] == [];
  }

  /** dba_sort_bw: sink list[start + n - 1] below the larger grants before it. */
  method SortStep(ctx: seq<Alloc>, list: seq<nat>, n: nat, start: nat) returns (r: seq<nat>)
    requires n > 0 ==> start + n <= |list|
    requires forall i :: start <= i < start + n && i < |list| ==> list[i] < |ctx|
    ensures n == 0 ==> r == list
    ensures n > 0 ==>
      r == list[..start] + Sink(ctx, list[start..start + n - 1], list[start + n - 1]) + list[start + n..]
  {
    hide Sink, Gap, SinksTo, U16;
    r := list;
    if n == 0 {
      return;
    }
    ghost var end := start + n - 1;
    SinksStart(ctx, list, start, end);
    if n == 1 {
      SinksDone(ctx, list, start, end, end, list[end]);
      return;
    }
    var last := list[start + n - 1];
    var key := U16(ctx[last].cur);
    var i := start + n - 2;
    while i >= start
      invariant start - 1 <= i < end
      invariant r == Gap(list, i + 1, last, end) && SinksTo(ctx, list, start, end, i + 1, last)
    {
      GapMoves(list, i + 1, last, end);
      if key >= ctx[r[i]].cur {
        break;
      }
      SinksStep(ctx, list, start, end, i + 1, last);
      r := r[i + 1 := r[i]];
      r := r[i := last];
      i := i - 1;
    }
    SinksDone(ctx, list, start, end, i + 1, last);
  }

  // ---------------------------------------------------------------- demand

  predicate Listed(a: Alloc, share: int) {
    a.valid && a.cur > share && (((a.kind == 3 || a.kind == 5) && a.cur > a.assure) || a.kind == 4)
  }

  /** One alloc id's turn: adapt is the grant dba_alloc_adapt leaves it. */
  function Demanded(a: Alloc, adapt: int, dual: bool, share: int): Alloc {
    if !a.valid then a
    else if a.kind == 1 then a.(cur := if dual then 2 * a.fix else a.fix)
    else if a.kind == 2 then a.(cur := adapt)
    else if a.kind == 3 || a.kind == 5 then
      if adapt <= a.assure || adapt <= share then a.(cur := adapt)
      else a.(cur := adapt, group := if share >= a.assure then AboveShare else AboveAssured)
    else if a.kind == 4 then a.(cur := adapt, group := if adapt <= share then Plain else AboveShare)
    else a.(cur := 2)
  }

  function DemandedAll(ctx: seq<Alloc>, adapts: seq<int>, dual: bool, share: int): (c: seq<Alloc>)
    requires |ctx| == |adapts|
    ensures |c| == |ctx|
  {
    seq(|ctx|, i requires 0 <= i < |ctx| => Demanded(ctx[i], adapts[i], dual, share))
  }

  /** The list after the first k alloc ids. */
  function ListOf(c: seq<Alloc>, k: nat, share: int): (l: seq<nat>)
    requires k <= |c|
    ensures forall y :: y in l <==> 0 <= y < k && Listed(c[y], share)
    ensures forall i :: 0 <= i < |l| ==> l[i] < k
  {
    if k == 0 then []
    else if Listed(c[k - 1], share) then Sink(c, ListOf(c, k - 1, share), k - 1)
    else ListOf(c, k - 1, share)
  }

  function DemandOf(c: seq<Alloc>, k: nat): int
    requires k <= |c|
  {
    if k == 0 then 0 else DemandOf(c, k - 1) + if c[k - 1].valid then c[k - 1].cur else 0
  }

  function ListedDemand(c: seq<Alloc>, k: nat, share: int): int
    requires k <= |c|
  {
    if k == 0 then 0 else ListedDemand(c, k - 1, share) + if Listed(c[k - 1], share) then c[k - 1].cur else 0
  }

  function ItemOf(a: Alloc): Item {
    Item(a.cur, a.assure, a.group == AboveAssured)
  }

  function ItemsOf(c: seq<Alloc>, l: seq<nat>): (r: seq<Item>)
    requires forall i :: 0 <= i < |l| ==> l[i] < |c|
    ensures |r| == |l|
  {
    seq(|l|, i requires 0 <= i < |l| => ItemOf(c[l[i]]))
  }

  lemma {:induction false} SinkAgrees(c: seq<Alloc>, c': seq<Alloc>, s: seq<nat>, x: nat)
    requires |c| == |c'| && x < |c| && c[x] == c'[x]
    requires forall i :: 0 <= i < |s| ==> s[i] < |c| && c[s[i]] == c'[s[i]]
    ensures Sink(c, s, x) == Sink(c', s, x)
  {
    if s != [] { SinkAgrees(c, c', s[..|s| - 1], x); }
  }

  predicate SortedBy(c: seq<Alloc>, s: seq<nat>) {
    && (forall i :: 0 <= i < |s| ==> s[i] < |c|)
    && forall i, j :: 0 <= i < j < |s| ==> c[s[i]].cur <= c[s[j]].cur
  }

  lemma SortedSnoc(c: seq<Alloc>, t: seq<nat>, e: nat)
    requires SortedBy(c, t) && e < |c|
    requires forall y :: y in t ==> y < |c| && c[y].cur <= c[e].cur
    ensures SortedBy(c, t + [e])
  {
    assert forall i :: 0 <= i < |t| ==> t[i] in t;
  }

  lemma SortedInit(c: seq<Alloc>, s: seq<nat>)
    requires SortedBy(c, s) && s != []
    ensures SortedBy(c, s[..|s| - 1])
    ensures forall y :: y in s ==> y < |c| && c[y].cur <= c[s[|s| - 1]].cur
  {
  }

  lemma SinkEnd(c: seq<Alloc>, s: seq<nat>, x: nat)
    requires x < |c| && s != [] && (forall i :: 0 <= i < |s| ==> s[i] < |c|) && 0 <= c[x].cur < 0x1_0000
    ensures var b, e := s[..|s| - 1], s[|s| - 1];
            Sink(c, s, x) == if c[x].cur >= c[e].cur then s + [x] else Sink(c, b, x) + [e]
  {
  }

  lemma {:induction false} SinkSorted(c: seq<Alloc>, s: seq<nat>, x: nat)
    requires x < |c| && SortedBy(c, s) && 0 <= c[x].cur < 0x1_0000
    ensures SortedBy(c, Sink(c, s, x))
  {
    if s != [] {
      hide SortedBy, Sink;
      var b, e := s[..|s| - 1], s[|s| - 1];
      SortedInit(c, s);
      if c[x].cur < c[e].cur { SinkSorted(c, b, x); }
      SinkSortedEnd(c, s, x);
    }
  }

  lemma SinkSortedEnd(c: seq<Alloc>, s: seq<nat>, x: nat)
    requires x < |c| && SortedBy(c, s) && s != [] && 0 <= c[x].cur < 0x1_0000
    ensures c[x].cur >= c[s[|s| - 1]].cur ==> SortedBy(c, Sink(c, s, x))
    ensures c[x].cur < c[s[|s| - 1]].cur && SortedBy(c, Sink(c, s[..|s| - 1], x)) ==> SortedBy(c, Sink(c, s, x))
  {
    hide Sink;
    var b, e := s[..|s| - 1], s[|s| - 1];
    SortedInit(c, s);
    SinkEnd(c, s, x);
    if c[x].cur >= c[e].cur {
      SortedSnoc(c, s, x);
    } else if SortedBy(c, Sink(c, b, x)) {
      SortedSnoc(c, Sink(c, b, x), e);
    }
  }

  lemma {:induction false} SinkDistinct(c: seq<Alloc>, s: seq<nat>, x: nat)
    requires x < |c| && (forall i :: 0 <= i < |s| ==> s[i] < |c|) && Distinct(s) && x !in s
    ensures Distinct(Sink(c, s, x))
  {
    hide U16;
    if s != [] {
      var b, e := s[..|s| - 1], s[|s| - 1];
      SinkDistinct(c, b, x);
      var t := Sink(c, b, x);
      assert forall i :: 0 <= i < |t| ==> t[i] in t && t[i] != e;
    }
  }

  lemma {:induction false} SinkSum(c: seq<Alloc>, s: seq<nat>, x: nat)
    requires x < |c| && forall i :: 0 <= i < |s| ==> s[i] < |c|
    ensures Sum(Requests(ItemsOf(c, Sink(c, s, x)))) == Sum(Requests(ItemsOf(c, s))) + c[x].cur
  {
    hide ItemsOf, Requests, Sum;
    if s == [] || U16(c[x].cur) >= c[s[|s| - 1]].cur {
      assert s + [x] == Sink(c, s, x);
      RequestsSnoc(c, s, x);
    } else {
      var b, e := s[..|s| - 1], s[|s| - 1];
      assert s == b + [e];
      RequestsSnoc(c, b, e);
      SinkSum(c, b, x);
      RequestsSnoc(c, Sink(c, b, x), e);
    }
  }

  lemma RequestsSnoc(c: seq<Alloc>, s: seq<nat>, x: nat)
    requires x < |c| && forall i :: 0 <= i < |s| ==> s[i] < |c|
    ensures forall i :: 0 <= i < |s + [x]| ==> (s + [x])[i] < |c|
    ensures Sum(Requests(ItemsOf(c, s + [x]))) == Sum(Requests(ItemsOf(c, s))) + c[x].cur
  {
    assert Requests(ItemsOf(c, s + [x])) == Requests(ItemsOf(c, s)) + [c[x].cur];
    SumConcat(Requests(ItemsOf(c, s)), [c[x].cur]);
  }

  predicate Measured(c: seq<Alloc>) {
    forall i :: 0 <= i < |c| ==>
      0 <= c[i].assure && (c[i].valid ==> 0 <= c[i].cur && (c[i].kind != 1 ==> c[i].cur < 0x1_0000))
  }

  /** The request list: sorted, each listed id once, its sum the listed demand. */
  lemma {:induction false} ListSorted(c: seq<Alloc>, k: nat, share: int)
    requires k <= |c| && Measured(c)
    ensures var l := ListOf(c, k, share);
            SortedBy(c, l) && Distinct(l) && Sum(Requests(ItemsOf(c, l))) == ListedDemand(c, k, share)
  {
    hide Sink, ItemsOf, Requests, Sum, Distinct, SortedBy;
    if k > 0 {
      ListSorted(c, k - 1, share);
      if Listed(c[k - 1], share) {
        var l := ListOf(c, k - 1, share);
        assert k - 1 !in l;
        SinkSorted(c, l, k - 1);
        SinkDistinct(c, l, k - 1);
        SinkSum(c, l, k - 1);
      }
    } else {
      NoRequests(c);
    }
  }

  lemma NoRequests(c: seq<Alloc>)
    ensures Sum(Requests(ItemsOf(c, []))) == 0 && Distinct<nat>([]) && SortedBy(c, [])
  {
  }

  // ---------------------------------------------------------------- the pass

  /** A grant as the pass leaves it: the group bit may have been dropped. */
  predicate Regranted(was: Alloc, a: Alloc, bw: int) {
    a == was.(cur := bw, group := a.group)
  }

  /** The contexts after the pass: the listed grants are g, all others stand. */
  predicate Granted(was: seq<Alloc>, c: seq<Alloc>, l: seq<nat>, g: seq<int>) {
    && |c| == |was| && |g| == |l| && (forall i :: 0 <= i < |l| ==> l[i] < |c|)
    && (forall j :: 0 <= j < |l| ==> Regranted(was[l[j]], c[l[j]], g[j]))
    && (forall i :: 0 <= i < |c| && i !in l ==> c[i] == was[i])
  }

  class Dba {
    /** The 128 contexts, and the budget of the map being built. */
    var ctx: seq<Alloc>
    var total: int
    var share: int
    var demand: int
    var overShare: int
    var overAssure: int
    var left: int

    constructor (c: seq<Alloc>)
      ensures ctx == c && demand == overShare == overAssure == 0
    {
      ctx := c;
      total, share, demand, overShare, overAssure, left := 0, 0, 0, 0, 0, 0;
    }

    /** One alloc id of the first loop: its demand, and whether it is listed. */
    method RequestOne(i: nat, adapt: int, dual: bool) returns (listed: bool, assured: bool)
      requires i < |ctx| && ctx[i].valid
      modifies this`ctx, this`demand, this`overShare, this`overAssure
      ensures ctx == old(ctx)[i := Demanded(old(ctx)[i], adapt, dual, share)]
      ensures listed == Listed(ctx[i], share) && assured == (listed && AssuredFirst(ctx[i], share))
      ensures demand == old(demand) + ctx[i].cur
      ensures overShare == old(overShare) + if listed then ctx[i].cur else 0
      ensures overAssure == old(overAssure) + if assured then ctx[i].cur - ctx[i].assure else 0
    {
      var a := ctx[i];
      listed, assured := false, false;
      if a.kind == 1 {
        a := a.(cur := if dual then 2 * a.fix else a.fix);
      } else if a.kind == 2 {
        a := a.(cur := adapt);
      } else if a.kind == 3 || a.kind == 5 {
        a := a.(cur := adapt);
        if a.cur > a.assure && a.cur > share {
          listed := true;
          a := a.(group := AboveShare);
          if share < a.assure {
            overAssure := overAssure + (a.cur - a.assure);
            assured := true;
            a := a.(group := AboveAssured);
          }
        }
      } else if a.kind == 4 {
        a := a.(cur := adapt);
        if a.cur <= share {
          a := a.(group := Plain);
        } else {
          a := a.(group := AboveShare);
          listed := true;
        }
      } else {
        a := a.(cur := 2);
      }
      ctx := ctx[i := a];
      if listed {
        overShare := overShare + a.cur;
      }
      demand := demand + a.cur;
    }

    /** dba_bw_request up to the comparison with the budget: every demand, and
        the sorted list of the grants above their share. */
    method Collect(adapts: seq<int>, dual: bool) returns (list: seq<nat>, n: nat, over: int)
      requires |adapts| == |ctx| && demand == overShare == overAssure == 0
      modifies this`ctx, this`demand, this`overShare, this`overAssure
      ensures ctx == DemandedAll(old(ctx), adapts, dual, share)
      ensures list == ListOf(ctx, |ctx|, share) && n == |list|
      ensures demand == DemandOf(ctx, |ctx|) && overShare == ListedDemand(ctx, |ctx|, share)
      ensures over == AssuredOf(ctx, |ctx|, share) && overAssure == AssuredDemand(ctx, |ctx|, share)
    {
      hide Sink, Listed, AssuredFirst, Demanded, DemandedAll, DemandOf, ListedDemand, AssuredOf, AssuredDemand,
           ListOf, Upto;
      ghost var c := DemandedAll(ctx, adapts, dual, share);
      list, n, over := [], 0, 0;
      TotalsNone(c, share);
      UptoNone(ctx, c);
      for i := 0 to |ctx|
        invariant |ctx| == |c| && |adapts| == |c|
        invariant Upto(old(ctx), c, ctx, i)
        invariant list == ListOf(c, i, share) && n == |list|
        invariant demand == DemandOf(c, i) && overShare == ListedDemand(c, i, share)
        invariant over == AssuredOf(c, i, share) && overAssure == AssuredDemand(c, i, share)
      {
        UptoNext(old(ctx), adapts, dual, share, c, ctx, i);
        TotalsNext(c, i, share);
        DemandedValid(ctx[i], adapts[i], dual, share);
        if ctx[i].valid {
          var listed, assured := RequestOne(i, adapts[i], dual);
          if listed {
            list := list + [i];
            n := n + 1;
            ListPrefix(old(ctx), ctx, c, list, n, i, share);
            list := SortStep(ctx, list, n, 0);
          }
          if assured {
            over := over + 1;
          }
        }
      }
      UptoAll(old(ctx), c, ctx);
    }

    /** At the first overflow: grants assured below the share drop back. */
    method DemoteFrom(list: seq<nat>, k: nat, sh: int, over0: int,
                      ghost was: seq<Alloc>, ghost done: seq<int>, ghost its: seq<Item>) returns (over: int)
      requires At(was, ctx, list, k, done, its) && Distinct(list)
      requires over0 == Assureds(its) && overAssure == Overs(its)
      modifies this`ctx, this`overAssure
      ensures At(was, ctx, list, k, done, Demote(its, sh))
      ensures over == Assureds(Demote(its, sh)) && overAssure == Overs(Demote(its, sh))
    {
      hide At, Demote, DemoteTo, Distinct, Assureds, Overs, ItemOf, U16;
      over := over0;
      DemoteEnds(its, sh);
      AtBounds(was, ctx, list, k, done, its);
      for j := k to |list|
        invariant At(was, ctx, list, k, done, DemoteTo(its, sh, j - k))
        invariant over == Assureds(DemoteTo(its, sh, j - k)) && overAssure == Overs(DemoteTo(its, sh, j - k))
      {
        ghost var now := DemoteTo(its, sh, j - k);
        AtEntry(was, ctx, list, k, done, now, j);
        DemoteNext(its, sh, j - k);
        var q := ctx[list[j]];
        if q.group == AboveAssured && q.assure < sh {
          AtDemoted(was, ctx, list, k, done, now, j);
          over := over - 1;
          overAssure := overAssure - U16(q.cur - q.assure);
          ctx := ctx[list[j] := q.(group := AboveShare)];
        }
      }
    }

    /** The pass over the sorted list, rem being what the listed grants share. */
    method Fit(list: seq<nat>, over0: int, rem0: int)
      requires Distinct(list) && forall j :: 0 <= j < |list| ==> list[j] < |ctx|
      requires over0 == Assureds(ItemsOf(ctx, list)) && overAssure == Overs(ItemsOf(ctx, list))
      modifies this`ctx, this`overAssure, this`left
      ensures Granted(old(ctx), ctx, list, Fill(ItemsOf(old(ctx), list), rem0))
    {
      hide At, Demote, Distinct, Share, Granted, Fill, Pour, Assureds, Overs, ItemsOf, ItemOf, Over;
      ghost var was, items := ctx, ItemsOf(ctx, list);
      ghost var done, its, rest := [], items, Fill(items, rem0);
      var n, over, rem, first, k := |list|, over0, rem0, false, 0;
      AtStart(ctx, list);
      while k < |list|
        invariant k <= |list| && At(was, ctx, list, k, done, its)
        invariant !first ==> n == |its| && over == Assureds(its) && overAssure == Overs(its)
        invariant Fill(items, rem0) == done + rest
        invariant rest == if first then Pour(its, n, rem) else Fill(its, rem)
        decreases |list| - k, if first then 0 else 1
      {
        AtBounds(was, ctx, list, k, done, its);
        PassStep(its, n, rem);
        ghost var before, c := rem, ctx;
        if rem < 0 {
          rem := 0;
        }
        var sh := U16(if n > 0 then rem / n else rem);
        ShareOf(before, n);
        var p := ctx[list[k]];
        AtEntry(was, ctx, list, k, done, its, k);
        if sh < p.cur && !first {
          over := DemoteFrom(list, k, sh, over, was, done, its);
          its := Demote(its, sh);
          n := n - if over > 0 then over else 0;
          rem := rem + overAssure;
          first := true;
        } else {
          var bw := p.cur;
          if first {
            if p.group == AboveAssured {
              bw := p.assure;
            } else {
              n := n - 1;
              bw := sh;
            }
            ctx := ctx[list[k] := p.(cur := bw)];
          } else {
            if p.group == AboveAssured {
              overAssure := overAssure - U16(p.cur - p.assure);
              over := over - 1;
            }
            n := n - 1;
          }
          AtNext(was, c, list, k, done, its, bw);
          rem := rem - bw;
          OneGranted(done, rest, bw);
          rest := rest[1..];
          done := done + [bw];
          its := its[1..];
          k := k + 1;
        }
      }
      AtBounds(was, ctx, list, k, done, its);
      assert its == [];
      PassEnds(n, rem);
      assert done + [] == done;
      AtDone(was, ctx, list, done);
      left := rem;
    }

    /** dba_bw_request: every demand, and when they pass the budget, the cut. */
    method Request(adapts: seq<int>, dual: bool)
      requires |adapts| == |ctx| && demand == overShare == overAssure == 0 && 0 <= share
      requires Measured(DemandedAll(ctx, adapts, dual, share))
      modifies this`ctx, this`demand, this`overShare, this`overAssure, this`left
      ensures Settled(DemandedAll(old(ctx), adapts, dual, share), ctx, total, share)
    {
      hide Listed, Demanded, DemandedAll, DemandOf, ListedDemand, AssuredOf, AssuredDemand, ListOf,
           Measured, ItemsOf, Granted, Fill, Assureds, Overs, Distinct, SortedBy, Requests, Sum, Grouped;
      ghost var c := DemandedAll(ctx, adapts, dual, share);
      DemandedGroups(ctx, adapts, dual, share);
      var list, n, over := Collect(adapts, dual);
      if demand <= total {
        return;
      }
      var rem := total - demand + overShare;
      left := rem;
      ListSorted(c, |c|, share);
      ListAssured(c, |c|, share);
      if rem <= 0 {
        GrantedNone(c, list);
        for k := 0 to n
          invariant Granted(c, ctx, list[..k], Zeros(k))
        {
          GrantedNext(c, ctx, list, k, 0);
          ctx := ctx[list[k] := ctx[list[k]].(cur := 0)];
        }
        assert list[..n] == list;
        return;
      }
      Fit(list, over, rem);
    }
  }

  // ---------------------------------------------------------------- pass steps

  /** The pass at entry k: done are the grants so far, its the entries to come. */
  predicate At(was: seq<Alloc>, c: seq<Alloc>, l: seq<nat>, k: nat, done: seq<int>, its: seq<Item>) {
    && |c| == |was| && k == |done| <= |l| && |its| == |l| - k && (forall j :: 0 <= j < |l| ==> l[j] < |c|)
    && (forall j :: 0 <= j < k ==> Regranted(was[l[j]], c[l[j]], done[j]))
    && (forall j :: k <= j < |l| ==> Regranted(was[l[j]], c[l[j]], was[l[j]].cur) && ItemOf(c[l[j]]) == its[j - k])
    && (forall i :: 0 <= i < |c| && i !in l ==> c[i] == was[i])
  }

  /** Entry k gets its grant. */
  lemma AtNext(was: seq<Alloc>, c: seq<Alloc>, l: seq<nat>, k: nat, done: seq<int>, its: seq<Item>, bw: int)
    requires At(was, c, l, k, done, its) && k < |l| && Distinct(l)
    ensures At(was, c[l[k] := c[l[k]].(cur := bw)], l, k + 1, done + [bw], its[1..])
    ensures bw == its[0].cur ==> c[l[k] := c[l[k]].(cur := bw)] == c
  {
    assert l[k] in l;
    var c' := c[l[k] := c[l[k]].(cur := bw)];
    assert forall j :: 0 <= j < |l| && j != k ==> l[j] != l[k] && c'[l[j]] == c[l[j]];
  }

  /** Entry j >= k is demoted, or stands. */
  lemma AtDemoted(was: seq<Alloc>, c: seq<Alloc>, l: seq<nat>, k: nat, done: seq<int>, its: seq<Item>, j: nat)
    requires At(was, c, l, k, done, its) && k <= j < |l| && Distinct(l) && c[l[j]].group == AboveAssured
    ensures At(was, c[l[j] := c[l[j]].(group := AboveShare)], l, k, done, its[j - k := its[j - k].(assured := false)])
  {
    assert l[j] in l;
    var c' := c[l[j] := c[l[j]].(group := AboveShare)];
    assert forall i :: 0 <= i < |l| && i != j ==> l[i] != l[j] && c'[l[i]] == c[l[i]];
  }

  lemma AtBounds(was: seq<Alloc>, c: seq<Alloc>, l: seq<nat>, k: nat, done: seq<int>, its: seq<Item>)
    requires At(was, c, l, k, done, its)
    ensures k == |done| <= |l| && |its| == |l| - k
    ensures forall j :: k <= j < |l| ==> l[j] < |c| && ItemOf(c[l[j]]) == its[j - k]
  {
  }

  lemma AtEntry(was: seq<Alloc>, c: seq<Alloc>, l: seq<nat>, k: nat, done: seq<int>, its: seq<Item>, j: nat)
    requires At(was, c, l, k, done, its) && k <= j < |l|
    ensures l[j] < |c| && j - k < |its|
    ensures var q, i := c[l[j]], its[j - k];
            (q.group == AboveAssured <==> i.assured) && q.cur == i.cur && q.assure == i.assure
  {
  }

  /** One unfolding of the pass, as the loop takes it. */
  lemma PassStep(its: seq<Item>, n: int, rem: int)
    requires its != []
    ensures Pour(its, n, rem) == if its[0].assured
      then [its[0].assure] + Pour(its[1..], n, Floor0(rem) - its[0].assure)
      else [Share(rem, n)] + Pour(its[1..], n - 1, Floor0(rem) - Share(rem, n))
    ensures Fill(its, rem) == if Share(rem, |its|) >= its[0].cur
      then [its[0].cur] + Fill(its[1..], Floor0(rem) - its[0].cur)
      else var d := Demote(its, Share(rem, |its|)); Pour(d, |d| - Assureds(d), Floor0(rem) + Overs(d))
    ensures Assureds(its) == (if its[0].assured then 1 else 0) + Assureds(its[1..])
    ensures Overs(its) == (if its[0].assured then U16(its[0].cur - its[0].assure) else 0) + Overs(its[1..])
  {
  }

  lemma OneGranted(done: seq<int>, rest: seq<int>, bw: int)
    requires rest != [] && rest[0] == bw
    ensures done + rest == done + [bw] + rest[1..]
  {
  }

  lemma PassEnds(n: int, rem: int)
    ensures Pour([], n, rem) == [] && Fill([], rem) == []
  {
  }

  lemma ShareOf(rem: int, n: int)
    ensures Share(rem, n) == U16(if n > 0 then Floor0(rem) / n else Floor0(rem))
  {
  }

  lemma AtDone(was: seq<Alloc>, c: seq<Alloc>, l: seq<nat>, done: seq<int>)
    requires At(was, c, l, |l|, done, [])
    ensures Granted(was, c, l, done)
  {
  }

  lemma AtStart(c: seq<Alloc>, l: seq<nat>)
    requires forall j :: 0 <= j < |l| ==> l[j] < |c|
    ensures At(c, c, l, 0, [], ItemsOf(c, l))
  {
  }

  lemma {:induction false} AssuredDrops(its: seq<Item>, i: nat)
    requires i < |its| && its[i].assured
    ensures var t := its[i := its[i].(assured := false)];
            Assureds(t) == Assureds(its) - 1 && Overs(t) == Overs(its) - U16(its[i].cur - its[i].assure)
  {
    if i > 0 {
      AssuredDrops(its[1..], i - 1);
      assert its[i := its[i].(assured := false)][1..] == its[1..][i - 1 := its[i].(assured := false)];
    } else {
      assert its[i := its[i].(assured := false)][1..] == its[1..];
    }
  }

  /** Demoting the first j entries. */
  function DemoteTo(items: seq<Item>, share: int, j: nat): (r: seq<Item>)
    requires j <= |items|
    ensures |r| == |items|
  {
    Demote(items[..j], share) + items[j..]
  }

  /** What demoting one more entry changes. */
  lemma DemoteNext(items: seq<Item>, share: int, j: nat)
    requires j < |items|
    ensures var now, next, it := DemoteTo(items, share, j), DemoteTo(items, share, j + 1), items[j];
            && now[j] == it
            && if it.assured && it.assure < share then
                 && next == now[j := now[j].(assured := false)]
                 && Assureds(next) == Assureds(now) - 1 && Overs(next) == Overs(now) - U16(it.cur - it.assure)
               else next == now
  {
    hide Assureds, Overs;
    var now, it := DemoteTo(items, share, j), items[j];
    assert now[j] == it;
    var next := now[j := it.(assured := it.assured && it.assure >= share)];
    assert DemoteTo(items, share, j + 1) == next;
    if it.assured && it.assure < share {
      AssuredDrops(now, j);
    } else {
      assert next == now;
    }
  }

  lemma DemoteEnds(items: seq<Item>, share: int)
    ensures DemoteTo(items, share, 0) == items && DemoteTo(items, share, |items|) == Demote(items, share)
  {
  }

  /** The loop at context i: those before it are demanded, the others stand. */
  predicate Upto(was: seq<Alloc>, c: seq<Alloc>, ctx: seq<Alloc>, i: nat) {
    && |was| == |c| == |ctx| && i <= |c|
    && (forall j :: 0 <= j < i ==> ctx[j] == c[j]) && (forall j :: i <= j < |c| ==> ctx[j] == was[j])
  }

  lemma UptoNone(was: seq<Alloc>, c: seq<Alloc>)
    requires |was| == |c|
    ensures Upto(was, c, was, 0)
  {
  }

  lemma UptoAll(was: seq<Alloc>, c: seq<Alloc>, ctx: seq<Alloc>)
    requires Upto(was, c, ctx, |c|)
    ensures ctx == c
  {
  }

  lemma UptoNext(was: seq<Alloc>, adapts: seq<int>, dual: bool, share: int, c: seq<Alloc>, ctx: seq<Alloc>, i: nat)
    requires |was| == |adapts| && c == DemandedAll(was, adapts, dual, share)
    requires Upto(was, c, ctx, i) && i < |c|
    ensures ctx[i] == was[i] && c[i] == Demanded(ctx[i], adapts[i], dual, share)
    ensures Upto(was, c, ctx[i := c[i]], i + 1)
    ensures c[i] == ctx[i] ==> ctx[i := c[i]] == ctx
  {
    hide Demanded;
  }

  lemma TotalsNone(c: seq<Alloc>, share: int)
    ensures ListOf(c, 0, share) == []
    ensures DemandOf(c, 0) == ListedDemand(c, 0, share) == AssuredOf(c, 0, share) == AssuredDemand(c, 0, share) == 0
  {
  }

  lemma TotalsNext(c: seq<Alloc>, i: nat, share: int)
    requires i < |c|
    ensures DemandOf(c, i + 1) == DemandOf(c, i) + if c[i].valid then c[i].cur else 0
    ensures !Listed(c[i], share) ==>
      ListOf(c, i + 1, share) == ListOf(c, i, share)
      && ListedDemand(c, i + 1, share) == ListedDemand(c, i, share)
    ensures Listed(c[i], share) ==> ListedDemand(c, i + 1, share) == ListedDemand(c, i, share) + c[i].cur
    ensures AssuredOf(c, i + 1, share) ==
      AssuredOf(c, i, share) + if Listed(c[i], share) && AssuredFirst(c[i], share) then 1 else 0
    ensures AssuredDemand(c, i + 1, share) == AssuredDemand(c, i, share)
      + if Listed(c[i], share) && AssuredFirst(c[i], share) then c[i].cur - c[i].assure else 0
  {
  }

  lemma DemandedValid(a: Alloc, adapt: int, dual: bool, share: int)
    ensures Demanded(a, adapt, dual, share).valid == a.valid
    ensures !a.valid ==> Demanded(a, adapt, dual, share) == a && !Listed(a, share)
  {
  }

  /** Listed grants in the ASSURE group, and what they ask over it. */
  function AssuredOf(c: seq<Alloc>, k: nat, share: int): int
    requires k <= |c|
  {
    if k == 0 then 0
    else AssuredOf(c, k - 1, share) + if Listed(c[k - 1], share) && AssuredFirst(c[k - 1], share) then 1 else 0
  }

  function AssuredDemand(c: seq<Alloc>, k: nat, share: int): int
    requires k <= |c|
  {
    if k == 0 then 0
    else AssuredDemand(c, k - 1, share)
         + if Listed(c[k - 1], share) && AssuredFirst(c[k - 1], share) then c[k - 1].cur - c[k - 1].assure else 0
  }

  predicate AssuredFirst(a: Alloc, share: int) {
    a.kind != 4 && share < a.assure
  }

  /** The new entry sinks alike in the contexts so far and in the final ones. */
  lemma ListPrefix(was: seq<Alloc>, ctx: seq<Alloc>, c: seq<Alloc>, list: seq<nat>, n: nat, i: nat, share: int)
    requires Upto(was, c, ctx, i + 1) && i < |c| && Listed(c[i], share)
    requires list == ListOf(c, i, share) + [i] && n == |list|
    ensures forall k :: 0 <= k < |list| ==> list[k] < |ctx|
    ensures |ListOf(c, i + 1, share)| == |list| == n > 0
    ensures list[..0] + Sink(ctx, list[0..0 + n - 1], list[0 + n - 1]) + list[0 + n..] == ListOf(c, i + 1, share)
  {
    hide Sink, Listed;
    var l := ListOf(c, i, share);
    assert list[0..0 + n - 1] == l && list[..0] == [] && list[0 + n..] == [];
    SinkAgrees(ctx, c, l, i);
  }

  // ---------------------------------------------------------------- the whole request

  function Zeros(n: nat): (r: seq<int>)
    ensures |r| == n
  {
    seq(n, i => 0)
  }

  /** What the request leaves: the demands c if they fit, else the cut ones. */
  predicate Settled(c: seq<Alloc>, after: seq<Alloc>, total: int, share: int) {
    var l, rem := ListOf(c, |c|, share), total - DemandOf(c, |c|) + ListedDemand(c, |c|, share);
    if DemandOf(c, |c|) <= total then after == c
    else Granted(c, after, l, if rem <= 0 then Zeros(|l|) else Fill(ItemsOf(c, l), rem))
  }

  /** The group bits of listed grants say which are assured above the share. */
  predicate Grouped(c: seq<Alloc>, share: int) {
    forall i :: 0 <= i < |c| && Listed(c[i], share) ==> (c[i].group == AboveAssured <==> AssuredFirst(c[i], share))
  }

  lemma DemandedGroups(ctx: seq<Alloc>, adapts: seq<int>, dual: bool, share: int)
    requires |ctx| == |adapts|
    ensures Grouped(DemandedAll(ctx, adapts, dual, share), share)
  {
  }

  lemma GrantedNone(c: seq<Alloc>, l: seq<nat>)
    ensures Granted(c, c, l[..0], Zeros(0))
  {
  }

  lemma GrantedNext(was: seq<Alloc>, c: seq<Alloc>, l: seq<nat>, k: nat, bw: int)
    requires k < |l| && Granted(was, c, l[..k], Zeros(k)) && Distinct(l) && bw == 0
    requires forall i :: 0 <= i < |l| ==> l[i] < |was|
    ensures |c| == |was|
    ensures Granted(was, c[l[k] := c[l[k]].(cur := 0)], l[..k + 1], Zeros(k + 1))
  {
    var c' := c[l[k] := c[l[k]].(cur := 0)];
    assert l[..k + 1] == l[..k] + [l[k]];
    assert l[k] !in l[..k];
    assert forall j :: 0 <= j < k ==> l[..k][j] == l[j] == l[..k + 1][j];
  }

  lemma {:induction false} CountsSnoc(a: seq<Item>, x: Item)
    ensures Assureds(a + [x]) == Assureds(a) + if x.assured then 1 else 0
    ensures Overs(a + [x]) == Overs(a) + Over(x)
  {
    if a != [] {
      CountsSnoc(a[1..], x);
      assert (a + [x])[1..] == a[1..] + [x];
    } else {
      assert a + [x] == [x];
    }
  }

  lemma ItemsSnoc(c: seq<Alloc>, s: seq<nat>, x: nat)
    requires x < |c| && forall i :: 0 <= i < |s| ==> s[i] < |c|
    ensures forall i :: 0 <= i < |s + [x]| ==> (s + [x])[i] < |c|
    ensures ItemsOf(c, s + [x]) == ItemsOf(c, s) + [ItemOf(c[x])]
  {
  }

  /** Sinking moves entries, it does not change their counts. */
  lemma {:induction false} SinkCounts(c: seq<Alloc>, s: seq<nat>, x: nat)
    requires x < |c| && forall i :: 0 <= i < |s| ==> s[i] < |c|
    ensures var t := ItemsOf(c, Sink(c, s, x));
            && Assureds(t) == Assureds(ItemsOf(c, s)) + (if ItemOf(c[x]).assured then 1 else 0)
            && Overs(t) == Overs(ItemsOf(c, s)) + Over(ItemOf(c[x]))
  {
    hide ItemsOf, ItemOf, Assureds, Overs;
    if s == [] || U16(c[x].cur) >= c[s[|s| - 1]].cur {
      assert s + [x] == Sink(c, s, x);
      ItemsSnoc(c, s, x);
      CountsSnoc(ItemsOf(c, s), ItemOf(c[x]));
    } else {
      var b, e := s[..|s| - 1], s[|s| - 1];
      assert s == b + [e];
      ItemsSnoc(c, b, e);
      CountsSnoc(ItemsOf(c, b), ItemOf(c[e]));
      SinkCounts(c, b, x);
      ItemsSnoc(c, Sink(c, b, x), e);
      CountsSnoc(ItemsOf(c, Sink(c, b, x)), ItemOf(c[e]));
    }
  }

  /** The running assured counts are those of the sorted list. */
  lemma {:induction false} ListAssured(c: seq<Alloc>, k: nat, share: int)
    requires k <= |c| && Measured(c) && Grouped(c, share) && 0 <= share
    ensures var t := ItemsOf(c, ListOf(c, k, share));
            Assureds(t) == AssuredOf(c, k, share) && Overs(t) == AssuredDemand(c, k, share)
  {
    hide Sink, ItemsOf;
    if k > 0 {
      ListAssured(c, k - 1, share);
      if Listed(c[k - 1], share) {
        SinkCounts(c, ListOf(c, k - 1, share), k - 1);
      }
    } else {
      NoItems(c);
    }
  }

  lemma NoItems(c: seq<Alloc>)
    ensures ItemsOf(c, []) == []
  {
  }
}
