/** dba_budget_calc, and what the budget means for the map of dba_bwmap_switch:
    where grants end, which are written, and which entry closes the map. */
module DbaBudget {
  import opened Basics
  import opened WaterFill
  import opened DbaRequest
  import opened DbaExact
  import opened DbaFec
  import opened DbaMap

  // ---------------------------------------------------------------- the budget

  datatype OnuTally = OnuTally(act: bool, cnt: nat, sum: int)

  /** ONUs under FEC, ONUs with a valid T-CONT, T-CONTs that share what is left,
      and the bandwidth under contract. */
  datatype Tally = Tally(full: nat, act: nat, cnt: nat, sum: int)

  function Contract(a: Alloc): int {
    if a.kind == 1 then a.fix else if a.kind == 2 || a.kind == 3 || a.kind == 5 then a.assure else 0
  }

  predicate Sharing(a: Alloc) {
    a.kind == 3 || a.kind == 4 || a.kind == 5
  }

  function OnuTallyOf(c: seq<Alloc>, n: nat, onu: nat, t: nat): OnuTally
    requires forall j :: 0 <= j < t ==> IdxOf(n, onu, j) < |c|
  {
    if t == 0 then OnuTally(false, 0, 0)
    else
      var r, a := OnuTallyOf(c, n, onu, t - 1), c[IdxOf(n, onu, t - 1)];
      if a.valid then OnuTally(true, r.cnt + if Sharing(a) then 1 else 0, r.sum + Contract(a)) else r
  }

  function TallyOf(c: seq<Alloc>, n: nat, tc: nat, k: nat): Tally
    requires Reaches(c, n, tc) && k <= n <= |c|
  {
    if k == 0 then Tally(0, 0, 0, 0)
    else
      var r, o, a := TallyOf(c, n, tc, k - 1), OnuTallyOf(c, n, k - 1, tc), c[k - 1];
      Tally(r.full + if a.valid && a.fec then 1 else 0, r.act + if o.act then 1 else 0, r.cnt + o.cnt, r.sum + o.sum)
  }

  /** Upstream units one frame can grant in plain operation. */
  function TotalOf(t: Tally, ovh: int): (r: int)
    ensures 0 <= r < 0x1_0000
  {
    U16(0x4B8C - t.full * 36 - U16(ovh * t.act))
  }

  /** The total of the map; the new DBA grants two frames at once, to the ONUs
      that were active. */
  function TotalFor(t: Tally, ovh: int, dual: bool, actOnus: nat): (r: int)
    ensures 0 <= r < 0x1_0000
  {
    if dual then U16(0x97E0 - ovh * actOnus) else TotalOf(t, ovh)
  }

  /** dba_budget_calc: an OLT keeps its burst overhead. */
  method Calc(c: seq<Alloc>, n: nat, tc: nat, olt: bool, ovh0: int, dual: bool, actOnus: nat)
    returns (ovh: int, total: int, remain: int, share: int)
    requires Reaches(c, n, tc) && n <= |c|
    ensures var t := TallyOf(c, n, tc, n);
            && ovh == (if olt then ovh0 else if t.full > 0 then 64 else 46)
            && total == TotalFor(t, ovh, dual, actOnus) && remain == total - t.sum
            && (t.sum >= 0 && remain >= 0 ==> t.sum + t.cnt * share <= total)
            && (remain <= 0 || t.cnt == 0 ==> share == 0)
            && (t.sum >= 0 && remain > 0 && t.cnt > 0 ==> remain < t.cnt * (share + 1))
  {
    hide IdxOf, U16;
    var full, act, cnt, sum := 0, 0, 0, 0;
    for onu := 0 to n
      invariant Tally(full, act, cnt, sum) == TallyOf(c, n, tc, onu)
    {
      if c[onu].valid && c[onu].fec {
        full := full + 1;
      }
      var first := true;
      ghost var act0, cnt0, sum0 := act, cnt, sum;
      for t := 0 to tc
        invariant cnt >= cnt0 && OnuTally(!first, cnt - cnt0, sum - sum0) == OnuTallyOf(c, n, onu, t)
        invariant act == act0 + if first then 0 else 1
      {
        var a := c[IdxOf(n, onu, t)];
        if a.valid {
          if first {
            act := act + 1;
          }
          first := false;
          if a.kind == 1 {
            sum := sum + a.fix;
          } else if a.kind == 2 {
            sum := sum + a.assure;
          } else if a.kind == 3 || a.kind == 5 {
            cnt := cnt + 1;
            sum := sum + a.assure;
          } else if a.kind == 4 {
            cnt := cnt + 1;
          }
        }
      }
    }
    ovh := if olt then ovh0 else if full > 0 then 64 else 46;
    total := if dual then U16(0x97E0 - ovh * actOnus) else U16(0x4B8C - full * 36 - U16(ovh * act));
    remain := total - sum;
    share := 0;
    if remain > 0 && cnt > 0 {
      share := U16(remain / cnt);
      if sum >= 0 {
        ShareIs(remain, cnt);
        FloorFits(remain, cnt);
      }
    }
  }

  lemma FloorFits(remain: int, cnt: int)
    requires 0 < remain < 0x1_0000 && cnt > 0
    ensures U16(remain / cnt) == remain / cnt
    ensures cnt * (remain / cnt) <= remain < cnt * (remain / cnt + 1)
  {
    DivBounds(remain, cnt);
    U16Small(remain / cnt);
    assert remain == cnt * (remain / cnt) + remain % cnt;
  }

  // ---------------------------------------------------------------- where grants end

  /** The position after the visits, without the 16-bit wrap. */
  function EndAt(c: seq<Alloc>, ovh: int, vs: seq<Visit>): int
    requires Within(c, vs)
  {
    if vs == [] then 0
    else
      var v, e := vs[|vs| - 1], EndAt(c, ovh, vs[..|vs| - 1]);
      e + (if v.slot % 4 == 0 && e != 0 then ovh else 0) + c[v.idx].cur
  }

  /** Where visit i ends. */
  function Ends(c: seq<Alloc>, ovh: int, vs: seq<Visit>, i: nat): int
    requires Within(c, vs) && i < |vs|
  {
    EndAt(c, ovh, vs[..i + 1])
  }

  predicate Lively(c: seq<Alloc>, vs: seq<Visit>) {
    forall i :: 0 <= i < |vs| ==> vs[i].idx < |c| && c[vs[i].idx].cur >= 1
  }

  /** Entries follow one another inside the frame; the left-th one closes it. */
  predicate Laid(m: Map, left: nat) {
    && (forall i, j :: 0 <= i < j < |m.out| ==> m.out[i].stop < m.out[j].start)
    && (forall i :: 0 <= i < |m.out| ==> 0 <= m.out[i].start < m.out[i].stop <= STOP_MAX && m.out[i].stop < m.pos)
    && (forall i :: 0 <= i < |m.out| ==> (m.out[i].last <==> i + 1 == left))
    && m.left == left - |m.out|
  }

  /** The entry of a grant that ends before end. */
  predicate EntryOf(e: Entry, a: Alloc, v: Visit, end: int) {
    && e.start == end - a.cur && e.stop == end - 1 && e.id == a.id % 0x1000
    && e.dbru == (a.kind != 1) && e.ploamu == (v.idx == v.onu) && e.fec == v.fec
  }

  /** The writer, when nothing wraps. */
  lemma PlaceOne(m: Map, a: Alloc, ovh: int, v: Visit, e: int, left: nat)
    requires Laid(m, left) && |m.out| < left <= 255
    requires 0 <= m.pos && a.cur >= 1 && ovh >= 0
    requires e == m.pos + (if v.slot % 4 == 0 && m.pos != 0 then ovh else 0) + a.cur && e <= 0xFFFF
    ensures var r := Place(m, a, ovh, v);
            && Laid(r, left) && r.pos == e && m.out <= r.out
            && (if a.cur >= 2 && e - 1 <= STOP_MAX
                then |r.out| == |m.out| + 1 && EntryOf(r.out[|m.out|], a, v, e)
                else r.out == m.out)
  {
    hide U16, Laid;
    if v.slot % 4 == 0 && m.pos != 0 { U16Small(m.pos + ovh); }
    U16Small(e);
    U16Small(e - 1);
    var r := Place(m, a, ovh, v);
    if a.cur >= 2 && e - 1 <= STOP_MAX {
      LaidMore(m, r, left, r.out[|m.out|]);
    } else {
      LaidOn(m, r, left);
    }
  }

  lemma LaidOn(m: Map, r: Map, left: nat)
    requires Laid(m, left) && m.pos <= r.pos && r.out == m.out && r.left == m.left
    ensures Laid(r, left)
  {
  }

  lemma LaidMore(m: Map, r: Map, left: nat, x: Entry)
    requires Laid(m, left) && |m.out| < left <= 255 && r.out == m.out + [x]
    requires m.pos <= x.start < x.stop <= STOP_MAX && x.stop < r.pos && 0 <= m.pos
    requires r.left == (m.left - 1) % 256 && (x.last <==> r.left == 0)
    ensures Laid(r, left)
  {
  }

  function Start(left: nat): Map {
    Map(0, left, [])
  }

  predicate Written(m: Map, c: seq<Alloc>, ovh: int, vs: seq<Visit>, i: nat)
    requires Within(c, vs) && i < |vs|
  {
    exists j :: 0 <= j < |m.out| && EntryOf(m.out[j], c[vs[i].idx], vs[i], Ends(c, ovh, vs, i))
  }

  predicate Writable(c: seq<Alloc>, ovh: int, vs: seq<Visit>, i: nat)
    requires Within(c, vs) && i < |vs|
  {
    c[vs[i].idx].cur >= 2 && Ends(c, ovh, vs, i) <= STOP_MAX + 1
  }

  predicate AllWritable(c: seq<Alloc>, ovh: int, vs: seq<Visit>)
    requires Within(c, vs)
  {
    forall i :: 0 <= i < |vs| ==> Writable(c, ovh, vs, i)
  }

  lemma {:induction false} EndGrows(c: seq<Alloc>, ovh: int, vs: seq<Visit>)
    requires Lively(c, vs) && ovh >= 0
    ensures EndAt(c, ovh, vs) >= |vs|
    ensures forall i :: 0 <= i < |vs| ==> Ends(c, ovh, vs, i) <= EndAt(c, ovh, vs)
  {
    if vs != [] {
      var us := vs[..|vs| - 1];
      EndGrows(c, ovh, us);
      forall i | 0 <= i < |vs| ensures Ends(c, ovh, vs, i) <= EndAt(c, ovh, vs) {
        InitEnds(c, ovh, vs);
        if i < |us| { assert Ends(c, ovh, us, i) <= EndAt(c, ovh, us); }
      }
    }
  }

  /** The map of any visits that do not wrap the position: entries in order and
      disjoint, a visit written if and only if its grant is at least 2 and ends
      inside the frame. */
  lemma {:induction false} MapLaid(c: seq<Alloc>, ovh: int, vs: seq<Visit>, left: nat)
    requires Lively(c, vs) && ovh >= 0 && EndAt(c, ovh, vs) <= 0xFFFF && |vs| <= left <= 255
    ensures var m := PlaceAll(Start(left), c, ovh, vs);
            && Laid(m, left) && m.pos == EndAt(c, ovh, vs) && |m.out| <= |vs|
            && (forall i :: 0 <= i < |vs| && Writable(c, ovh, vs, i) ==> Written(m, c, ovh, vs, i))
            && (|m.out| == |vs| <==> AllWritable(c, ovh, vs))
  {
    hide Laid, Place, EntryOf, Written, AllWritable, Ends;
    if vs == [] {
      StartLaid(left);
      NoneWritable(c, ovh);
    } else {
      var n := |vs| - 1;
      var us, v := vs[..n], vs[n];
      EndGrows(c, ovh, vs);
      MapLaid(c, ovh, us, left);
      var m, e := PlaceAll(Start(left), c, ovh, us), EndAt(c, ovh, vs);
      EndGrows(c, ovh, us);
      PlaceOne(m, c[v.idx], ovh, v, e, left);
      MapGrows(c, ovh, vs, m, Place(m, c[v.idx], ovh, v));
      AllSnoc(c, ovh, vs);
      InitEnds(c, ovh, vs);
    }
  }

  lemma StartLaid(left: nat)
    ensures Laid(Start(left), left)
  {
  }

  lemma NoneWritable(c: seq<Alloc>, ovh: int)
    ensures AllWritable(c, ovh, [])
  {
  }

  lemma InitEnds(c: seq<Alloc>, ovh: int, vs: seq<Visit>)
    requires vs != [] && Within(c, vs)
    ensures var us := vs[..|vs| - 1];
            && (forall i :: 0 <= i < |us| ==> us[i] == vs[i] && Ends(c, ovh, us, i) == Ends(c, ovh, vs, i))
            && Ends(c, ovh, vs, |us|) == EndAt(c, ovh, vs)
  {
    hide EndAt;
    var us := vs[..|vs| - 1];
    forall i | 0 <= i < |us| ensures us[i] == vs[i] && Ends(c, ovh, us, i) == Ends(c, ovh, vs, i) {
      assert us[..i + 1] == vs[..i + 1];
    }
    assert vs[..|us| + 1] == vs;
  }

  lemma AllSnoc(c: seq<Alloc>, ovh: int, vs: seq<Visit>)
    requires vs != [] && Within(c, vs)
    ensures var us := vs[..|vs| - 1];
            AllWritable(c, ovh, vs) <==> AllWritable(c, ovh, us) && Writable(c, ovh, vs, |us|)
  {
    hide EndAt, Ends;
    var us := vs[..|vs| - 1];
    InitEnds(c, ovh, vs);
    assert forall i :: 0 <= i < |us| ==> Writable(c, ovh, us, i) == Writable(c, ovh, vs, i);
  }

  lemma MapGrows(c: seq<Alloc>, ovh: int, vs: seq<Visit>, m: Map, r: Map)
    requires vs != [] && Within(c, vs) && m.out <= r.out
    requires var us, a := vs[..|vs| - 1], c[vs[|vs| - 1].idx];
             && (forall i :: 0 <= i < |us| && Writable(c, ovh, us, i) ==> Written(m, c, ovh, us, i))
             && (a.cur >= 2 && EndAt(c, ovh, vs) - 1 <= STOP_MAX ==>
                   |r.out| == |m.out| + 1 && EntryOf(r.out[|m.out|], a, vs[|us|], EndAt(c, ovh, vs)))
    ensures forall i :: 0 <= i < |vs| && Writable(c, ovh, vs, i) ==> Written(r, c, ovh, vs, i)
  {
    hide EntryOf, EndAt, Ends;
    var us := vs[..|vs| - 1];
    InitEnds(c, ovh, vs);
    forall i | 0 <= i < |vs| && Writable(c, ovh, vs, i) ensures Written(r, c, ovh, vs, i) {
      if i < |us| {
        assert Writable(c, ovh, us, i);
        var j :| 0 <= j < |m.out| && EntryOf(m.out[j], c[vs[i].idx], vs[i], Ends(c, ovh, us, i));
        assert r.out[j] == m.out[j];
      } else {
        assert EntryOf(r.out[|m.out|], c[vs[i].idx], vs[i], Ends(c, ovh, vs, i));
      }
    }
  }

  // ---------------------------------------------------------------- the plain map

  /** No ONU of the layout runs FEC. */
  predicate NoFec(c: seq<Alloc>, n: nat) {
    forall onu :: 0 <= onu < n && onu < |c| && c[onu].valid ==> !c[onu].fec
  }

  /** Every visit of the ONUs below k in plain order. */
  function AllVisits(c: seq<Alloc>, n: nat, tc: nat, k: nat): (vs: seq<Visit>)
    requires Reaches(c, n, tc) && k <= n <= |c|
    ensures Within(c, vs)
  {
    if k == 0 then []
    else
      var vs := AllVisits(c, n, tc, k - 1);
      if c[k - 1].valid then vs + PlainVisits(c, n, k - 1, tc) else vs
  }

  lemma {:induction false} PlainHas(c: seq<Alloc>, n: nat, onu: nat, k: nat, v: Visit)
    requires forall j :: 0 <= j < k ==> IdxOf(n, onu, j) < |c|
    ensures v in PlainVisits(c, n, onu, k) <==>
            v.slot < k && v == Visit(IdxOf(n, onu, v.slot), v.slot, onu, false) && Granting(c[v.idx])
  {
    hide IdxOf, Granting;
    if k > 0 {
      PlainHas(c, n, onu, k - 1, v);
      var vs, x := PlainVisits(c, n, onu, k - 1), IdxOf(n, onu, k - 1);
      assert v in vs + [Visit(x, k - 1, onu, false)] <==> v in vs || v == Visit(x, k - 1, onu, false);
    }
  }

  /** The visits are exactly the granting T-CONTs of ONUs whose T-CONT 0 is valid. */
  lemma {:induction false} VisitedIff(c: seq<Alloc>, n: nat, tc: nat, k: nat, v: Visit)
    requires Reaches(c, n, tc) && k <= n <= |c|
    ensures v in AllVisits(c, n, tc, k) <==>
            && v.onu < k && v.slot < tc && v == Visit(IdxOf(n, v.onu, v.slot), v.slot, v.onu, false)
            && c[v.onu].valid && Granting(c[v.idx])
  {
    hide IdxOf, Granting, PlainVisits;
    if k > 0 {
      VisitedIff(c, n, tc, k - 1, v);
      var vs, us := AllVisits(c, n, tc, k - 1), PlainVisits(c, n, k - 1, tc);
      PlainHas(c, n, k - 1, tc, v);
      assert v in vs + us <==> v in vs || v in us;
    }
  }

  lemma {:induction false} PlaceConcat(m: Map, c: seq<Alloc>, ovh: int, vs: seq<Visit>, us: seq<Visit>)
    requires Within(c, vs) && Within(c, us)
    ensures Within(c, vs + us)
    ensures PlaceAll(m, c, ovh, vs + us) == PlaceAll(PlaceAll(m, c, ovh, vs), c, ovh, us)
    decreases |us|
  {
    hide Place;
    if us == [] {
      assert vs + us == vs;
    } else {
      var n := |us| - 1;
      PlaceConcat(m, c, ovh, vs, us[..n]);
      assert (vs + us)[..|vs + us| - 1] == vs + us[..n];
    }
  }

  /** Without FEC the frame's passes write the visits of all ONUs in order. */
  lemma {:induction false} PlainPasses(w: World, ovh: int, olt: bool, n: nat, tc: nat, k: nat)
    requires Reaches(w.ctx, n, tc) && k <= n <= |w.ctx| && NoFec(w.ctx, n)
    ensures Passes(w, ovh, olt, n, tc, k) == World(w.ctx, PlaceAll(w.m, w.ctx, ovh, AllVisits(w.ctx, n, tc, k)))
  {
    hide IdxOf, Place, PlainVisits;
    if k > 0 {
      PlainPasses(w, ovh, olt, n, tc, k - 1);
      PlaceConcat(w.m, w.ctx, ovh, AllVisits(w.ctx, n, tc, k - 1), PlainVisits(w.ctx, n, k - 1, tc));
    }
  }

  // ---------------------------------------------------------------- what the visits add up to

  function Granted0(c: seq<Alloc>, vs: seq<Visit>): int
    requires Within(c, vs)
  {
    if vs == [] then 0 else Granted0(c, vs[..|vs| - 1]) + c[vs[|vs| - 1].idx].cur
  }

  /** Visits that may pay the burst overhead. */
  function Heads(vs: seq<Visit>): (h: nat)
    ensures h <= |vs|
  {
    if vs == [] then 0 else Heads(vs[..|vs| - 1]) + if vs[|vs| - 1].slot % 4 == 0 then 1 else 0
  }

  lemma {:induction false} EndBound(c: seq<Alloc>, ovh: int, vs: seq<Visit>)
    requires Within(c, vs) && ovh >= 0
    ensures EndAt(c, ovh, vs) <= Granted0(c, vs) + ovh * Heads(vs)
  {
    if vs != [] {
      var us := vs[..|vs| - 1];
      EndBound(c, ovh, us);
      assert ovh * (Heads(us) + 1) == ovh * Heads(us) + ovh;
    }
  }

  /** The visits of ONUs below k: each a granting T-CONT, no index twice. */
  predicate Placed(c: seq<Alloc>, n: nat, tc: nat, vs: seq<Visit>, k: nat) {
    && (forall i :: 0 <= i < |vs| ==>
          && vs[i].onu < k && vs[i].slot < tc && vs[i].idx == IdxOf(n, vs[i].onu, vs[i].slot)
          && vs[i].idx < |c| && Granting(c[vs[i].idx]))
    && (forall i, j :: 0 <= i < j < |vs| ==> vs[i].idx != vs[j].idx)
  }

  lemma IdxInjective(n: nat, onu: nat, t: nat, onu': nat, t': nat)
    requires onu < n && onu' < n && IdxOf(n, onu, t) == IdxOf(n, onu', t')
    ensures onu == onu' && t == t'
  {
    assert n * t - n * t' == n * (t - t') && n * (t' - t) == n * t' - n * t;
    if t > t' { MulAtLeast(n, t - t'); }
    if t' > t { MulAtLeast(n, t' - t); }
  }

  lemma {:induction false} PlainPlaced(c: seq<Alloc>, n: nat, tc: nat, onu: nat, t: nat)
    requires onu < n && t <= tc && forall j :: 0 <= j < tc ==> IdxOf(n, onu, j) < |c|
    ensures var vs := PlainVisits(c, n, onu, t);
            && Placed(c, n, tc, vs, onu + 1)
            && forall i :: 0 <= i < |vs| ==> vs[i].onu == onu && vs[i].slot < t
  {
    hide IdxOf;
    if t > 0 {
      PlainPlaced(c, n, tc, onu, t - 1);
      var vs, x := PlainVisits(c, n, onu, t - 1), IdxOf(n, onu, t - 1);
      forall i | 0 <= i < |vs| ensures vs[i].idx != x {
        if vs[i].idx == x { IdxInjective(n, vs[i].onu, vs[i].slot, onu, t - 1); }
      }
    }
  }

  lemma {:induction false} PlainHeads(c: seq<Alloc>, n: nat, onu: nat, t: nat)
    requires t <= 4 && forall j :: 0 <= j < t ==> IdxOf(n, onu, j) < |c|
    ensures Heads(PlainVisits(c, n, onu, t)) <= if t == 0 then 0 else 1
  {
    hide IdxOf;
    if t > 0 {
      PlainHeads(c, n, onu, t - 1);
      var vs, x := PlainVisits(c, n, onu, t - 1), IdxOf(n, onu, t - 1);
      assert (vs + [Visit(x, t - 1, onu, false)])[..|vs|] == vs;
    }
  }

  lemma PlacedConcat(c: seq<Alloc>, n: nat, tc: nat, vs: seq<Visit>, us: seq<Visit>, k: nat)
    requires k < n && Placed(c, n, tc, vs, k) && Placed(c, n, tc, us, k + 1)
    requires forall i :: 0 <= i < |us| ==> us[i].onu == k
    ensures Placed(c, n, tc, vs + us, k + 1)
  {
    hide IdxOf;
    forall i, j | 0 <= i < |vs| && 0 <= j < |us| ensures vs[i].idx != us[j].idx {
      if vs[i].idx == us[j].idx { IdxInjective(n, vs[i].onu, vs[i].slot, k, us[j].slot); }
    }
  }

  lemma {:induction false} HeadsConcat(vs: seq<Visit>, us: seq<Visit>)
    ensures Heads(vs + us) == Heads(vs) + Heads(us)
    decreases |us|
  {
    if us == [] {
      assert vs + us == vs;
    } else {
      HeadsConcat(vs, us[..|us| - 1]);
      assert (vs + us)[..|vs + us| - 1] == vs + us[..|us| - 1];
    }
  }

  /** With four T-CONTs or fewer each active ONU heads one burst. */
  lemma {:induction false} AllPlaced(c: seq<Alloc>, n: nat, tc: nat, k: nat)
    requires Reaches(c, n, tc) && k <= n <= |c| && 1 <= tc <= 4
    ensures Placed(c, n, tc, AllVisits(c, n, tc, k), k)
    ensures Heads(AllVisits(c, n, tc, k)) <= TallyOf(c, n, tc, k).act
  {
    hide IdxOf, Placed, PlainVisits, OnuTallyOf, Heads;
    if k == 0 {
      NonePlaced(c, n, tc);
    } else {
      AllPlaced(c, n, tc, k - 1);
      var vs := AllVisits(c, n, tc, k - 1);
      if c[k - 1].valid {
        PlainPlaced(c, n, tc, k - 1, tc);
        PlainHeads(c, n, k - 1, tc);
        PlacedConcat(c, n, tc, vs, PlainVisits(c, n, k - 1, tc), k - 1);
        HeadsConcat(vs, PlainVisits(c, n, k - 1, tc));
        ActiveOnu(c, n, k - 1, tc);
      } else {
        PlacedMore(c, n, tc, vs, k - 1);
      }
    }
  }

  lemma NonePlaced(c: seq<Alloc>, n: nat, tc: nat)
    ensures Placed(c, n, tc, [], 0) && Heads([]) == 0
  {
  }

  lemma PlacedMore(c: seq<Alloc>, n: nat, tc: nat, vs: seq<Visit>, k: nat)
    requires Placed(c, n, tc, vs, k)
    ensures Placed(c, n, tc, vs, k + 1)
  {
    hide IdxOf;
  }

  lemma {:induction false} ActiveOnu(c: seq<Alloc>, n: nat, onu: nat, t: nat)
    requires onu < |c| && c[onu].valid && t >= 1 && forall j :: 0 <= j < t ==> IdxOf(n, onu, j) < |c|
    ensures OnuTallyOf(c, n, onu, t).act
  {
    if t > 1 {
      ActiveOnu(c, n, onu, t - 1);
    } else {
      assert IdxOf(n, onu, 0) == onu;
      assert OnuTallyOf(c, n, onu, 0) == OnuTally(false, 0, 0);
    }
  }

  // ---------------------------------------------------------------- distinct indices

  /** Grants at distinct indices sum to no more than the demand. */
  lemma {:induction false} VisitsDemand(c: seq<Alloc>, d: seq<Alloc>, n: nat, tc: nat, vs: seq<Visit>, k: nat)
    requires Placed(c, n, tc, vs, k) && Within(c, vs) && |d| == |c|
    requires forall i :: 0 <= i < |d| && d[i].valid ==> 0 <= d[i].cur
    requires forall i :: 0 <= i < |vs| ==> d[vs[i].idx] == c[vs[i].idx]
    ensures Granted0(c, vs) <= DemandOf(d, |d|)
    decreases |vs|
  {
    hide IdxOf;
    if vs == [] {
      DemandPositive(d, |d|);
    } else {
      var us, x := vs[..|vs| - 1], vs[|vs| - 1].idx;
      var e := d[x := d[x].(cur := 0)];
      DemandUpdate(d, e, x, |d|);
      VisitsDemand(c, e, n, tc, us, k);
    }
  }

  lemma {:induction false} DemandPositive(c: seq<Alloc>, k: nat)
    requires k <= |c| && forall i :: 0 <= i < |c| && c[i].valid ==> 0 <= c[i].cur
    ensures 0 <= DemandOf(c, k)
  {
    if k > 0 { DemandPositive(c, k - 1); }
  }

  function ValidCount(c: seq<Alloc>, k: nat): (r: nat)
    requires k <= |c|
    ensures r <= k
  {
    if k == 0 then 0 else ValidCount(c, k - 1) + if c[k - 1].valid then 1 else 0
  }

  lemma {:induction false} ValidUpdate(c: seq<Alloc>, x: nat, k: nat)
    requires x < |c| && c[x].valid && k <= |c|
    ensures ValidCount(c[x := c[x].(valid := false)], k) == ValidCount(c, k) - if x < k then 1 else 0
  {
    if k > 0 { ValidUpdate(c, x, k - 1); }
  }

  lemma {:induction false} VisitsValid(c: seq<Alloc>, d: seq<Alloc>, n: nat, tc: nat, vs: seq<Visit>, k: nat)
    requires Placed(c, n, tc, vs, k) && |d| == |c|
    requires forall i :: 0 <= i < |vs| ==> d[vs[i].idx] == c[vs[i].idx]
    ensures |vs| <= ValidCount(d, |d|)
    decreases |vs|
  {
    hide IdxOf;
    if vs != [] {
      var us, x := vs[..|vs| - 1], vs[|vs| - 1].idx;
      ValidUpdate(d, x, |d|);
      VisitsValid(c, d[x := d[x].(valid := false)], n, tc, us, k);
    }
  }

  // ---------------------------------------------------------------- main result

  /** Map modes 0 and 3 without FEC: grants whose sum is within the budget end
      inside the frame. Entries are disjoint and in order, every grant of 2 or
      more on an ONU whose T-CONT 0 is valid is written, and an entry closes the
      map if and only if it is the last of all valid alloc ids. */
  lemma BudgetedMap(c: seq<Alloc>, mode: nat, ovh: int, olt: bool)
    requires |c| == 128 && mode != 1 && mode != 2 && NoFec(c, Onus(mode)) && 0 <= ovh <= 75
    requires forall i :: 0 <= i < |c| && c[i].valid ==> 0 <= c[i].cur
    requires Reaches(c, Onus(mode), Tcs(mode)) && Onus(mode) <= |c|
    requires DemandOf(c, |c|) <= TotalOf(TallyOf(c, Onus(mode), Tcs(mode), Onus(mode)), ovh)
    ensures var n, tc, left := Onus(mode), Tcs(mode), ValidCount(c, |c|);
            var vs, r := AllVisits(c, n, tc, n), Passes(World(c, Start(left)), ovh, olt, n, tc, n);
            && r.ctx == c && Laid(r.m, left) && r.m.pos <= STOP_MAX + 1
            && (forall i :: 0 <= i < |vs| && c[vs[i].idx].cur >= 2 ==> Written(r.m, c, ovh, vs, i))
            && |r.m.out| <= |vs| <= left
  {
    hide IdxOf, Placed, Passes, AllVisits, Laid, Written, DemandOf, TallyOf, PlaceAll, Ends, AllWritable;
    var n, tc, left := Onus(mode), Tcs(mode), ValidCount(c, |c|);
    var vs := AllVisits(c, n, tc, n);
    AllPlaced(c, n, tc, n);
    VisitsDemand(c, c, n, tc, vs, n);
    VisitsValid(c, c, n, tc, vs, n);
    EndBound(c, ovh, vs);
    PlacedLively(c, n, tc, vs, n);
    BudgetCovers(c, n, tc, ovh, Heads(vs), Granted0(c, vs));
    MapLaid(c, ovh, vs, left);
    EndGrows(c, ovh, vs);
    PlainPasses(World(c, Start(left)), ovh, olt, n, tc, n);
  }

  lemma PlacedLively(c: seq<Alloc>, n: nat, tc: nat, vs: seq<Visit>, k: nat)
    requires Placed(c, n, tc, vs, k) && forall i :: 0 <= i < |c| && c[i].valid ==> 0 <= c[i].cur
    ensures Lively(c, vs)
  {
    hide IdxOf;
  }

  lemma {:induction false} TallyBounds(c: seq<Alloc>, n: nat, tc: nat, k: nat)
    requires Reaches(c, n, tc) && k <= n <= |c|
    ensures TallyOf(c, n, tc, k).act <= k
    ensures NoFec(c, n) ==> TallyOf(c, n, tc, k).full == 0
  {
    if k > 0 { TallyBounds(c, n, tc, k - 1); }
  }

  lemma BudgetCovers(c: seq<Alloc>, n: nat, tc: nat, ovh: int, heads: nat, sum: int)
    requires Reaches(c, n, tc) && n <= |c| && n <= 64 && NoFec(c, n) && 0 <= ovh <= 75
    requires heads <= TallyOf(c, n, tc, n).act && sum <= TotalOf(TallyOf(c, n, tc, n), ovh)
    ensures sum + ovh * heads <= 0x4B8C
  {
    hide IdxOf, TallyOf, Reaches;
    TallyBounds(c, n, tc, n);
    var act := TallyOf(c, n, tc, n).act;
    MulBounds(ovh, heads, act);
    U16Small(ovh * act);
    U16Small(0x4B8C - ovh * act);
  }

  lemma MulBounds(ovh: int, heads: nat, act: nat)
    requires 0 <= ovh <= 75 && heads <= act <= 64
    ensures 0 <= ovh * heads <= ovh * act <= 4800
  {
    assert ovh * act - ovh * heads == ovh * (act - heads);
    assert 4800 - ovh * act == (75 - ovh) * act + 75 * (64 - act);
  }

  // ---------------------------------------------------------------- request to map

  /** The contracts of c, whatever the grants. */
  predicate SameContracts(c: seq<Alloc>, d: seq<Alloc>) {
    |d| == |c| && forall i :: 0 <= i < |c| ==> d[i] == c[i].(cur := d[i].cur, group := d[i].group)
  }

  lemma {:induction false} SameOnu(c: seq<Alloc>, d: seq<Alloc>, n: nat, onu: nat, t: nat)
    requires SameContracts(c, d) && forall j :: 0 <= j < t ==> IdxOf(n, onu, j) < |c|
    ensures OnuTallyOf(d, n, onu, t) == OnuTallyOf(c, n, onu, t)
  {
    hide IdxOf;
    if t > 0 { SameOnu(c, d, n, onu, t - 1); }
  }

  lemma {:induction false} SameTally(c: seq<Alloc>, d: seq<Alloc>, n: nat, tc: nat, k: nat)
    requires SameContracts(c, d) && Reaches(c, n, tc) && Reaches(d, n, tc) && k <= n <= |c|
    ensures TallyOf(d, n, tc, k) == TallyOf(c, n, tc, k)
  {
    hide IdxOf, OnuTallyOf;
    if k > 0 {
      SameTally(c, d, n, tc, k - 1);
      SameOnu(c, d, n, k - 1, tc);
    }
  }

  predicate NoneNegative(g: seq<int>) {
    forall i :: 0 <= i < |g| ==> 0 <= g[i]
  }

  lemma {:induction false} PourNotNegative(items: seq<Item>, n: int, rem: int)
    requires Reasonable(items)
    ensures NoneNegative(Pour(items, n, rem))
    decreases |items|
  {
    hide Share;
    if items != [] {
      var rest := items[1..];
      ShareRange(rem, n);
      PourNotNegative(rest, n, Floor0(rem) - items[0].assure);
      PourNotNegative(rest, n - 1, Floor0(rem) - Share(rem, n));
    }
  }

  lemma ShareRange(rem: int, n: int)
    ensures 0 <= Share(rem, n)
  {
  }

  lemma {:induction false} FillNotNegative(items: seq<Item>, rem: int)
    requires Reasonable(items)
    ensures NoneNegative(Fill(items, rem))
    decreases |items|
  {
    hide Share, Pour, Demote, Assureds, Overs;
    if items != [] {
      FillNotNegative(items[1..], Floor0(rem) - items[0].cur);
      var d := Demote(items, Share(rem, |items|));
      DemotedReasonable(items, Share(rem, |items|));
      PourNotNegative(d, |d| - Assureds(d), Floor0(rem) + Overs(d));
    }
  }

  lemma DemotedReasonable(items: seq<Item>, share: int)
    requires Reasonable(items)
    ensures Reasonable(Demote(items, share))
  {
  }

  lemma GrantedKeeps(c: seq<Alloc>, after: seq<Alloc>, l: seq<nat>, g: seq<int>)
    requires Granted(c, after, l, g) && NoneNegative(g)
    ensures SameContracts(c, after)
    ensures forall i :: 0 <= i < |c| && 0 <= c[i].cur ==> 0 <= after[i].cur
  {
    forall i | 0 <= i < |c|
      ensures after[i] == c[i].(cur := after[i].cur, group := after[i].group) && (0 <= c[i].cur ==> 0 <= after[i].cur)
    {
      if i in l {
        var j :| 0 <= j < |l| && l[j] == i;
        assert Regranted(c[l[j]], after[l[j]], g[j]);
      }
    }
  }

  /** Whatever the request does to the grants, contracts stand and none goes negative. */
  lemma SettledKeeps(c: seq<Alloc>, after: seq<Alloc>, total: int, share: int)
    requires Measured(c) && Grouped(c, share) && 0 <= share && Settled(c, after, total, share)
    ensures SameContracts(c, after) && forall i :: 0 <= i < |after| && after[i].valid ==> 0 <= after[i].cur
  {
    hide Granted, Fill, Listed, ItemsOf, Reasonable, Sorted, Plausible, DemandOf, ListedDemand, Distinct, NoneNegative;
    var l, rem := ListFor(c, share), RemFor(c, total, share);
    if DemandOf(c, |c|) > total {
      ListReady(c, total, share);
      if rem <= 0 {
        ZerosNotNegative(|l|);
        GrantedKeeps(c, after, l, Zeros(|l|));
      } else {
        FillNotNegative(ItemsOf(c, l), rem);
        GrantedKeeps(c, after, l, Fill(ItemsOf(c, l), rem));
      }
    }
  }

  lemma ZerosNotNegative(n: nat)
    ensures NoneNegative(Zeros(n))
  {
  }

  lemma StaysFit(c: seq<Alloc>, total: int, share: int)
    requires DemandOf(c, |c|) <= total || AssuredStay(c, total, share)
    ensures NoShareWraps(c, total, share)
  {
    hide DemandOf, CutItems, RemFor, LeftFor;
  }

  /** From the demands to the map: in modes 0 and 3 without FEC, demands that fit
      the budget, or were cut without assured grants overdrawing it, make a map
      inside the frame in which every grant of 2 or more on an ONU whose T-CONT 0
      is valid is written. */
  lemma RequestToMap(c: seq<Alloc>, after: seq<Alloc>, mode: nat, ovh: int, olt: bool, total: int, share: int)
    requires |c| == |after| == 128 && mode != 1 && mode != 2 && NoFec(c, Onus(mode)) && 0 <= ovh <= 75
    requires Measured(c) && Grouped(c, share) && 0 <= share && Settled(c, after, total, share)
    requires Reaches(c, Onus(mode), Tcs(mode)) && Reaches(after, Onus(mode), Tcs(mode)) && Onus(mode) <= |c|
    requires total == TotalOf(TallyOf(c, Onus(mode), Tcs(mode), Onus(mode)), ovh)
    requires DemandOf(c, |c|) <= total || (RemFor(c, total, share) > 0 && AssuredStay(c, total, share))
    ensures var n, tc, left := Onus(mode), Tcs(mode), ValidCount(after, |after|);
            var vs, r := AllVisits(after, n, tc, n), Passes(World(after, Start(left)), ovh, olt, n, tc, n);
            && DemandOf(after, |after|) <= total
            && r.ctx == after && Laid(r.m, left) && r.m.pos <= STOP_MAX + 1
            && (forall i :: 0 <= i < |vs| && after[vs[i].idx].cur >= 2 ==> Written(r.m, after, ovh, vs, i))
  {
    hide IdxOf, Passes, AllVisits, Laid, Written, DemandOf, TallyOf, Reaches, Settled, AssuredStay, LeftFor, CutItems,
         RemFor, Measured, Grouped, ValidCount, TotalOf;
    var n, tc := Onus(mode), Tcs(mode);
    StaysFit(c, total, share);
    BudgetMetIff(c, after, total, share);
    SettledKeeps(c, after, total, share);
    SameTally(c, after, n, tc, n);
    BudgetedMap(after, mode, ovh, olt);
  }

  // ---------------------------------------------------------------- what is promised

  /** What a T-CONT may ask for under its contract and a share of the rest. */
  function Promised(a: Alloc, share: int): int {
    if !a.valid then 0
    else match a.kind
      case 1 => a.fix
      case 2 => a.assure
      case 3 => a.assure + share
      case 4 => share
      case 5 => a.assure + share
      case _ => 0
  }

  function PromisedOf(c: seq<Alloc>, k: nat, share: int): int
    requires k <= |c|
  {
    if k == 0 then 0 else PromisedOf(c, k - 1, share) + Promised(c[k - 1], share)
  }

  /** T-CONT t of the ONUs below k. */
  function RowOf(c: seq<Alloc>, n: nat, t: nat, k: nat, share: int): int
    requires forall onu :: 0 <= onu < k ==> IdxOf(n, onu, t) < |c|
  {
    if k == 0 then 0 else RowOf(c, n, t, k - 1, share) + Promised(c[IdxOf(n, k - 1, t)], share)
  }

  lemma OnuPromised(c: seq<Alloc>, n: nat, onu: nat, t: nat, share: int)
    requires forall j :: 0 <= j <= t ==> IdxOf(n, onu, j) < |c|
    ensures var r, o := OnuTallyOf(c, n, onu, t), OnuTallyOf(c, n, onu, t + 1);
            o.sum + o.cnt * share == r.sum + r.cnt * share + Promised(c[IdxOf(n, onu, t)], share)
  {
    hide IdxOf;
    var r := OnuTallyOf(c, n, onu, t);
    assert (r.cnt + 1) * share == r.cnt * share + share;
  }

  /** One more T-CONT to each ONU adds a row. */
  lemma {:induction false} RowAdds(c: seq<Alloc>, n: nat, t: nat, k: nat, share: int)
    requires Reaches(c, n, t) && Reaches(c, n, t + 1) && k <= n <= |c|
    ensures var r, o := TallyOf(c, n, t, k), TallyOf(c, n, t + 1, k);
            o.sum + o.cnt * share == r.sum + r.cnt * share + RowOf(c, n, t, k, share)
  {
    hide IdxOf, OnuTallyOf;
    if k > 0 {
      RowAdds(c, n, t, k - 1, share);
      OnuPromised(c, n, k - 1, t, share);
      var r, o := TallyOf(c, n, t, k - 1), TallyOf(c, n, t + 1, k - 1);
      var x, y := OnuTallyOf(c, n, k - 1, t), OnuTallyOf(c, n, k - 1, t + 1);
      assert (r.cnt + x.cnt) * share == r.cnt * share + x.cnt * share;
      assert (o.cnt + y.cnt) * share == o.cnt * share + y.cnt * share;
    }
  }

  lemma {:induction false} RowIsRun(c: seq<Alloc>, n: nat, t: nat, k: nat, share: int)
    requires n * t + k <= |c| && forall onu :: 0 <= onu < k ==> IdxOf(n, onu, t) < |c|
    ensures PromisedOf(c, n * t + k, share) == PromisedOf(c, n * t, share) + RowOf(c, n, t, k, share)
  {
    if k > 0 {
      RowIsRun(c, n, t, k - 1, share);
      assert IdxOf(n, k - 1, t) == n * t + (k - 1);
    }
  }

  lemma {:induction false} RowsPromised(c: seq<Alloc>, n: nat, t: nat, share: int)
    requires n * t <= |c| && n <= |c| && Reaches(c, n, t)
    ensures var r := TallyOf(c, n, t, n); r.sum + r.cnt * share == PromisedOf(c, n * t, share)
  {
    if t == 0 {
      NoTally(c, n, n);
    } else {
      assert n * t == n * (t - 1) + n;
      RowsPromised(c, n, t - 1, share);
      RowAdds(c, n, t - 1, n, share);
      RowIsRun(c, n, t - 1, n, share);
    }
  }

  lemma {:induction false} NoTally(c: seq<Alloc>, n: nat, k: nat)
    requires Reaches(c, n, 0) && k <= n <= |c|
    ensures var r := TallyOf(c, n, 0, k); r.sum == 0 && r.cnt == 0
  {
    if k > 0 { NoTally(c, n, k - 1); }
  }

  lemma ModeCovers(mode: nat)
    ensures Onus(mode) * Tcs(mode) == 128
  {
  }

  /** What the budget adds up is what the contracts and a share for each that shares
      promise, whatever the layout of the map mode. */
  lemma TallyPromised(c: seq<Alloc>, mode: nat, share: int)
    requires |c| == 128
    ensures Reaches(c, Onus(mode), Tcs(mode))
    ensures var t := TallyOf(c, Onus(mode), Tcs(mode), Onus(mode)); t.sum + t.cnt * share == PromisedOf(c, 128, share)
  {
    hide Reaches, TallyOf, PromisedOf;
    ModeReaches(c, mode);
    ModeCovers(mode);
    RowsPromised(c, Onus(mode), Tcs(mode), share);
  }

  lemma {:induction false} DemandPromised(c: seq<Alloc>, k: nat, share: int)
    requires k <= |c| && forall i :: 0 <= i < |c| && c[i].valid ==> c[i].cur <= Promised(c[i], share)
    ensures DemandOf(c, k) <= PromisedOf(c, k, share)
  {
    if k > 0 { DemandPromised(c, k - 1, share); }
  }

  /** With a share the budget leaves, T-CONTs that ask for no more than their
      contract and the share promise them are all granted what they ask for. */
  lemma PromiseKept(c: seq<Alloc>, after: seq<Alloc>, mode: nat, total: int, share: int)
    requires |c| == 128 && Reaches(c, Onus(mode), Tcs(mode)) && Settled(c, after, total, share)
    requires var t := TallyOf(c, Onus(mode), Tcs(mode), Onus(mode)); t.sum + t.cnt * share <= total
    requires forall i :: 0 <= i < |c| && c[i].valid ==> c[i].cur <= Promised(c[i], share)
    ensures after == c
  {
    hide Reaches, TallyOf, PromisedOf, DemandOf, Promised;
    TallyPromised(c, mode, share);
    DemandPromised(c, 128, share);
  }

  /** An entry of the T-CONT, of units units. */
  predicate Carries(m: Map, a: Alloc, units: int) {
    exists j :: 0 <= j < |m.out| && m.out[j].id == a.id % 0x1000 && m.out[j].stop - m.out[j].start + 1 == units
  }

  /** From the contracts to the map: whatever is cut, a fixed T-CONT of two units or
      more, on an ONU whose T-CONT 0 is valid, has an entry of exactly its bandwidth. */
  lemma FixedInMap(ctx: seq<Alloc>, adapts: seq<int>, after: seq<Alloc>, mode: nat, ovh: int, olt: bool, total: int,
                   share: int, onu: nat, t: nat)
    requires |ctx| == |adapts| == |after| == 128 && mode != 1 && mode != 2 && 0 <= ovh <= 75 && 0 <= share
    requires var c := DemandedAll(ctx, adapts, false, share);
             && NoFec(c, Onus(mode)) && Measured(c) && Settled(c, after, total, share)
             && Reaches(c, Onus(mode), Tcs(mode)) && Reaches(after, Onus(mode), Tcs(mode)) && Onus(mode) <= |c|
             && total == TotalOf(TallyOf(c, Onus(mode), Tcs(mode), Onus(mode)), ovh)
             && (DemandOf(c, |c|) <= total || (RemFor(c, total, share) > 0 && AssuredStay(c, total, share)))
    requires onu < Onus(mode) && t < Tcs(mode) && ctx[onu].valid
    requires IdxOf(Onus(mode), onu, t) < 128
    requires var a := ctx[IdxOf(Onus(mode), onu, t)]; a.valid && a.kind == 1 && a.fix >= 2
    ensures var n, tc, a := Onus(mode), Tcs(mode), ctx[IdxOf(Onus(mode), onu, t)];
            Carries(Passes(World(after, Start(ValidCount(after, |after|))), ovh, olt, n, tc, n).m, a, a.fix)
  {
    hide IdxOf, Passes, AllVisits, Laid, DemandOf, TallyOf, Reaches, Settled, AssuredStay, LeftFor, CutItems,
         RemFor, Measured, Grouped, ValidCount, TotalOf, DemandedAll, NoFec, Ends;
    var n, tc, c := Onus(mode), Tcs(mode), DemandedAll(ctx, adapts, false, share);
    var x := IdxOf(n, onu, t);
    DemandedGroups(ctx, adapts, false, share);
    RequestToMap(c, after, mode, ovh, olt, total, share);
    RequestLeaves(ctx, adapts, false, after, total, share, x);
    RequestLeaves(ctx, adapts, false, after, total, share, onu);
    var vs := AllVisits(after, n, tc, n);
    var v := Visit(x, t, onu, false);
    VisitedIff(after, n, tc, n, v);
    var i :| 0 <= i < |vs| && vs[i] == v;
    var m := Passes(World(after, Start(ValidCount(after, |after|))), ovh, olt, n, tc, n).m;
    assert Written(m, after, ovh, vs, i);
    var j :| 0 <= j < |m.out| && EntryOf(m.out[j], after[x], v, Ends(after, ovh, vs, i));
  }

  // ---------------------------------------------------------------- an assured grant too many

  /** Two ONUs of map mode 0, one under a contract of 17248, both asking 19000. */
  function Overdrawn(): (c: seq<Alloc>)
    ensures |c| == 128
  {
    seq(128, i =>
      if i == 0 then Alloc(true, false, 0, 3, 0, 17248, 19000, AboveAssured)
      else Alloc(i == 1, false, i, 4, 0, 0, 19000, AboveShare))
  }

  lemma {:induction false} OverdrawnList(k: nat)
    requires 2 <= k <= 128
    ensures ListOf(Overdrawn(), k, 1000) == [0, 1]
    ensures DemandOf(Overdrawn(), k) == ListedDemand(Overdrawn(), k, 1000) == 38000
  {
    var c := Overdrawn();
    if k > 2 {
      hide Sink;
      OverdrawnList(k - 1);
    } else {
      assert ListOf(c, 0, 1000) == [] && DemandOf(c, 0) == 0 && ListedDemand(c, 0, 1000) == 0;
      U16Small(19000);
      assert Sink(c, [], 0) == [0] && Sink(c, [0], 1) == [0] + [1];
      assert ListOf(c, 1, 1000) == [0] && DemandOf(c, 1) == 19000 && ListedDemand(c, 1, 1000) == 19000;
    }
  }

  lemma {:induction false} OverdrawnOnu(onu: nat, t: nat)
    requires onu < 32 && t <= 4 && Reaches(Overdrawn(), 32, 4)
    ensures OnuTallyOf(Overdrawn(), 32, onu, t) ==
            if onu > 1 || t == 0 then OnuTally(false, 0, 0) else OnuTally(true, 1, if onu == 0 then 17248 else 0)
  {
    if t > 0 {
      OverdrawnOnu(onu, t - 1);
      assert IdxOf(32, onu, t - 1) == onu + (t - 1) * 32;
    }
  }

  lemma {:induction false} OverdrawnTally(k: nat)
    requires 1 <= k <= 32 && Reaches(Overdrawn(), 32, 4)
    ensures TallyOf(Overdrawn(), 32, 4, k) == Tally(0, if k > 1 then 2 else 1, if k > 1 then 2 else 1, 17248)
  {
    hide OnuTallyOf;
    if k > 1 { OverdrawnTally(k - 1); } else { assert TallyOf(Overdrawn(), 32, 4, 0) == Tally(0, 0, 0, 0); }
    OverdrawnOnu(k - 1, 4);
  }

  /** What the budget makes of them. */
  lemma OverdrawnBudget(mode: nat)
    requires mode == 0
    ensures var n, tc := Onus(mode), Tcs(mode);
            Reaches(Overdrawn(), n, tc) && TallyOf(Overdrawn(), n, tc, n) == Tally(0, 2, 2, 17248)
    ensures TotalOf(Tally(0, 2, 2, 17248), 46) == 19248 && (19248 - 17248) / 2 == 1000
  {
    hide TallyOf, Overdrawn;
    ModeReaches(Overdrawn(), 0);
    OverdrawnTally(32);
    U16Small(92);
    U16Small(19248);
  }

  lemma OverdrawnItems()
    ensures var items := [Item(19000, 17248, true), Item(19000, 0, false)];
            ItemsOf(Overdrawn(), [0, 1]) == items && Sum(Requests(items)) == 38000 && Sum([17248, 3752]) == 21000
  {
    var items := [Item(19000, 17248, true), Item(19000, 0, false)];
    assert Requests(items) == [19000] + [19000];
    SumFirst(19000, [19000]);
    SumFirst(17248, [3752]);
    SumFirst(19000, []);
    SumFirst(3752, []);
    assert [19000] + [] == [19000] && [3752] + [] == [3752] && [17248] + [3752] == [17248, 3752];
  }

  /** The assured grant beside the shared one in a request: the budget gives these
      contexts a total of 19248 and a share of 1000, and the cut grants overrun that
      total. */
  lemma RequestOverdraws(after: seq<Alloc>, mode: nat)
    requires mode == 0 && Settled(Overdrawn(), after, 19248, 1000)
    ensures var n, tc := Onus(mode), Tcs(mode);
            Reaches(Overdrawn(), n, tc) && TallyOf(Overdrawn(), n, tc, n) == Tally(0, 2, 2, 17248)
    ensures TotalOf(Tally(0, 2, 2, 17248), 46) == 19248 && (19248 - 17248) / 2 == 1000
    ensures |after| == 128 && after[0].cur == 17248 && after[1].cur == 3752 && DemandOf(after, 128) == 21000
  {
    hide Granted, DemandOf, ListedDemand, Fill, Sum, Requests, Overdrawn, ListOf, ItemsOf, TallyOf, TotalOf, Reaches;
    var c := Overdrawn();
    OverdrawnBudget(mode);
    OverdrawnList(128);
    OverdrawnItems();
    AssuredOverdraws();
    OverdrawnValid();
    var l: seq<nat>, g: seq<int> := [0, 1], [17248, 3752];
    assert Granted(c, after, l, g);
    GrantedSum(c, after, l, g);
    GrantedAt(c, after, l, g);
    assert l[0] == 0 && l[1] == 1;
  }

  lemma OverdrawnValid()
    ensures Overdrawn()[0].valid && Overdrawn()[1].valid
    ensures Measured(Overdrawn()) && Grouped(Overdrawn(), 1000)
  {
  }

  lemma GrantedAt(c: seq<Alloc>, after: seq<Alloc>, l: seq<nat>, g: seq<int>)
    requires Granted(c, after, l, g)
    ensures |l| == |g| && forall j :: 0 <= j < |l| ==> l[j] < |after| && after[l[j]].cur == g[j]
  {
  }

  // ---------------------------------------------------------------- modes 1 and 2

  /** ONUs of map mode 1 or 2 with all their T-CONTs granting the same: three with
      eight grants of 800, or one with sixteen of 1205. */
  function Active(mode: nat): nat {
    if mode == 1 then 3 else 1
  }

  function Even(mode: nat): int {
    if mode == 1 then 800 else 1205
  }

  predicate Shared(mode: nat) {
    mode == 1 || mode == 2
  }

  function Crowded(mode: nat): (c: seq<Alloc>)
    requires Shared(mode)
    ensures |c| == 128
  {
    seq(128, i => Alloc(i % Onus(mode) < Active(mode), false, i, 4, 0, 0, Even(mode), AboveShare))
  }

  lemma CrowdedAt(mode: nat, onu: nat, t: nat)
    requires Shared(mode) && onu < Onus(mode) && t < Tcs(mode)
    ensures var i := IdxOf(Onus(mode), onu, t);
            i < 128 && Crowded(mode)[i] == Alloc(onu < Active(mode), false, i, 4, 0, 0, Even(mode), AboveShare)
  {
    var n, i := Onus(mode), IdxOf(Onus(mode), onu, t);
    assert i == onu + t * n;
    ModeReaches(Crowded(mode), mode);
    DivUnique(i, n, t, onu);
  }

  /** Every fourth visit heads a burst, and all grant the same. */
  predicate InFours(c: seq<Alloc>, vs: seq<Visit>, cur: int) {
    forall i :: 0 <= i < |vs| ==> vs[i].slot % 4 == i % 4 && vs[i].idx < |c| && c[vs[i].idx].cur == cur
  }

  lemma {:induction false} FoursEnd(c: seq<Alloc>, ovh: int, vs: seq<Visit>, cur: int)
    requires InFours(c, vs, cur) && cur >= 1 && ovh >= 0 && vs != []
    ensures EndAt(c, ovh, vs) == |vs| * cur + (|vs| - 1) / 4 * ovh
  {
    var n := |vs| - 1;
    var us, v := vs[..n], vs[n];
    FoursInit(c, vs, cur);
    EndSnoc(c, ovh, us, v);
    NoneEnds(c, ovh);
    hide EndAt, InFours;
    if n > 0 {
      FoursEnd(c, ovh, us, cur);
      EndGrows(c, ovh, us);
      FoursSum(n, cur, ovh);
    }
  }

  lemma FoursInit(c: seq<Alloc>, vs: seq<Visit>, cur: int)
    requires InFours(c, vs, cur) && vs != [] && cur >= 1
    ensures var n := |vs| - 1;
            && vs == vs[..n] + [vs[n]] && InFours(c, vs[..n], cur) && Lively(c, vs[..n])
            && vs[n].slot % 4 == n % 4 && vs[n].idx < |c| && c[vs[n].idx].cur == cur
  {
  }

  lemma FoursSum(n: nat, cur: int, ovh: int)
    requires n > 0
    ensures n * cur + (n - 1) / 4 * ovh + (if n % 4 == 0 then ovh else 0) + cur == (n + 1) * cur + n / 4 * ovh
  {
    Quarters(n + 1);
    MulOneMore((n - 1) / 4, ovh);
    MulOneMore(n, cur);
  }

  lemma MulOneMore(n: int, x: int)
    ensures (n + 1) * x == n * x + x
  {
  }

  lemma EndSnoc(c: seq<Alloc>, ovh: int, vs: seq<Visit>, v: Visit)
    requires Within(c, vs) && v.idx < |c|
    ensures Within(c, vs + [v])
    ensures var e := EndAt(c, ovh, vs);
            EndAt(c, ovh, vs + [v]) == e + (if v.slot % 4 == 0 && e != 0 then ovh else 0) + c[v.idx].cur
  {
    assert (vs + [v])[..|vs|] == vs;
  }

  lemma Quarters(t: nat)
    requires t > 0
    ensures t > 1 ==> (t - 1) / 4 == (t - 2) / 4 + if (t - 1) % 4 == 0 then 1 else 0
  {
  }

  lemma {:induction false} CrowdedOnu(mode: nat, onu: nat, t: nat)
    requires Shared(mode) && onu < Onus(mode) && t <= Tcs(mode)
    requires Reaches(Crowded(mode), Onus(mode), Tcs(mode))
    ensures var c, n, live := Crowded(mode), Onus(mode), onu < Active(mode);
            && OnuTallyOf(c, n, onu, t) == (if live then OnuTally(t > 0, t, 0) else OnuTally(false, 0, 0))
            && (live ==> |PlainVisits(c, n, onu, t)| == t && InFours(c, PlainVisits(c, n, onu, t), Even(mode)))
  {
    hide IdxOf, Crowded, Reaches, Onus, Active;
    if t > 0 {
      CrowdedOnu(mode, onu, t - 1);
      CrowdedAt(mode, onu, t - 1);
    }
  }

  lemma FoursConcat(c: seq<Alloc>, vs: seq<Visit>, us: seq<Visit>, cur: int)
    requires InFours(c, vs, cur) && InFours(c, us, cur) && |vs| % 4 == 0
    ensures InFours(c, vs + us, cur)
  {
  }

  lemma {:induction false} CrowdedOnus(mode: nat, k: nat)
    requires Shared(mode) && k <= Onus(mode) && Reaches(Crowded(mode), Onus(mode), Tcs(mode))
    ensures var c, n, tc := Crowded(mode), Onus(mode), Tcs(mode);
            var a := if k < Active(mode) then k else Active(mode);
            && |AllVisits(c, n, tc, k)| == a * tc && InFours(c, AllVisits(c, n, tc, k), Even(mode))
            && TallyOf(c, n, tc, k) == Tally(0, a, a * tc, 0)
  {
    hide IdxOf, PlainVisits, OnuTallyOf, Crowded, Even;
    var c, n, tc := Crowded(mode), Onus(mode), Tcs(mode);
    if k > 0 {
      CrowdedOnus(mode, k - 1);
      CrowdedOnu(mode, k - 1, tc);
      CrowdedFirst(mode, k - 1);
      if k <= Active(mode) {
        FoursConcat(c, AllVisits(c, n, tc, k - 1), PlainVisits(c, n, k - 1, tc), Even(mode));
      }
    }
  }

  lemma CrowdedFirst(mode: nat, onu: nat)
    requires Shared(mode) && onu < Onus(mode)
    ensures Crowded(mode)[onu].valid == (onu < Active(mode)) && !Crowded(mode)[onu].fec
  {
  }

  lemma {:induction false} CrowdedDemand(mode: nat, k: nat)
    requires Shared(mode) && k <= 128
    ensures ValidCount(Crowded(mode), k) == LiveBelow(mode, k)
    ensures DemandOf(Crowded(mode), k) == LiveBelow(mode, k) * Even(mode)
  {
    hide Even;
    if k > 0 {
      hide Onus, Active, LiveBelow;
      CrowdedDemand(mode, k - 1);
      OneMoreLive(mode, k - 1);
      MulOneMore(LiveBelow(mode, k - 1), Even(mode));
    }
  }

  /** Valid ids below k. */
  function LiveBelow(mode: nat, k: nat): int
    requires Shared(mode)
  {
    var n, act := Onus(mode), Active(mode);
    k / n * act + if k % n < act then k % n else act
  }

  lemma OneMoreLive(mode: nat, k: nat)
    requires Shared(mode) && k < 128
    ensures LiveBelow(mode, k + 1) == LiveBelow(mode, k) + if Crowded(mode)[k].valid then 1 else 0
    ensures Crowded(mode)[k].cur == Even(mode)
  {
    var n, act := Onus(mode), Active(mode);
    var q, r := k / n, k % n;
    if r < n - 1 {
      DivUnique(k + 1, n, q, r + 1);
    } else {
      MulOneMore(q, n);
      DivUnique(k + 1, n, q + 1, 0);
      MulOneMore(q, act);
    }
  }

  lemma CrowdedShape(mode: nat)
    requires Shared(mode)
    ensures Reaches(Crowded(mode), Onus(mode), Tcs(mode)) && NoFec(Crowded(mode), Onus(mode))
    ensures forall vs :: Within(Crowded(mode), vs) ==> Lively(Crowded(mode), vs)
  {
    ModeReaches(Crowded(mode), mode);
  }

  /** Map modes 1 and 2 pay the burst overhead at every fourth T-CONT of an ONU,
      but the budget sets it aside once an ONU: grants within the budget overrun
      the frame, and not all are written. */
  lemma CrowdedOverruns(mode: nat)
    requires Shared(mode)
    ensures var c, n, tc := Crowded(mode), Onus(mode), Tcs(mode);
            && Reaches(c, n, tc) && NoFec(c, n) && DemandOf(c, 128) <= TotalOf(TallyOf(c, n, tc, n), 46)
            && var vs := AllVisits(c, n, tc, n);
               EndAt(c, 46, vs) > STOP_MAX + 1
               && |PlaceAll(Start(ValidCount(c, 128)), c, 46, vs).out| < |vs| == ValidCount(c, 128)
  {
    hide IdxOf, PlainVisits, TallyOf, AllVisits, PlaceAll, EndAt, Crowded, Reaches, NoFec, Lively, U16, DemandOf,
         InFours;
    var c, n, tc := Crowded(mode), Onus(mode), Tcs(mode);
    CrowdedShape(mode);
    CrowdedOnus(mode, n);
    CrowdedDemand(mode, 128);
    assert LiveBelow(mode, 128) == if mode == 1 then 24 else 16;
    var vs := AllVisits(c, n, tc, n);
    FoursEnd(c, 46, vs, Even(mode));
    U16Small(46 * Active(mode));
    U16Small(0x4B8C - 46 * Active(mode));
    MapLaid(c, 46, vs, ValidCount(c, 128));
    AllWrittenIff(c, 46, vs, ValidCount(c, 128));
  }

  /** For any visits at all: every one is written if and only if no grant is
      below 2 and the last ends inside the frame. */
  lemma AllWrittenIff(c: seq<Alloc>, ovh: int, vs: seq<Visit>, left: nat)
    requires Lively(c, vs) && ovh >= 0 && EndAt(c, ovh, vs) <= 0xFFFF && |vs| <= left <= 255
    ensures |PlaceAll(Start(left), c, ovh, vs).out| == |vs| <==>
            EndAt(c, ovh, vs) <= STOP_MAX + 1 && forall i :: 0 <= i < |vs| ==> c[vs[i].idx].cur >= 2
  {
    hide PlaceAll, EndAt, Laid, Ends, Written;
    MapLaid(c, ovh, vs, left);
    EndGrows(c, ovh, vs);
    NoneEnds(c, ovh);
    if vs != [] {
      InitEnds(c, ovh, vs);
      if AllWritable(c, ovh, vs) {
        assert Writable(c, ovh, vs, |vs| - 1);
        forall i | 0 <= i < |vs| ensures c[vs[i].idx].cur >= 2 {
          assert Writable(c, ovh, vs, i);
        }
      } else {
        var i :| 0 <= i < |vs| && !Writable(c, ovh, vs, i);
        assert Ends(c, ovh, vs, i) <= EndAt(c, ovh, vs);
      }
    }
  }

  lemma NoneEnds(c: seq<Alloc>, ovh: int)
    ensures EndAt(c, ovh, []) == 0
  {
  }

  // ---------------------------------------------------------------- a FEC ONU in the frame

  /** The pass over a FEC ONU, on its contexts: other contexts stand, boundaries
      keep off the parity by the position the pass keeps, which is the true one
      while the burst fits 16 bits, and the ONU's bandwidth changes only by what
      its last T-CONT is lifted or gives up. */
  lemma FecOnuKept(c: seq<Alloc>, olt: bool, n: nat, onu: nat, tc: nat)
    requires n > 0 && tc <= 16 && forall j :: 0 <= j < tc ==> IdxOf(n, onu, j) < |c|
    requires var l := FecList(c, n, onu, tc); l != [] && forall i :: 0 <= i < |l| ==> c[l[i]].cur >= 1
    ensures var l := FecList(c, n, onu, tc);
            var g := Curs(c, l);
            var r := Spread(olt, g, 0);
            var up := Lifted(true, LeftForLast(g, r));
            && Recut(c, Reset(c, l, r), l, r) && Curs(Reset(c, l, r), l) == r
            && KeptOff(olt, r, 0) && (Unit(olt) * Sum(r[..|r| - 1]) < 0x1_0000 ==> OffParity(olt, r, 0))
            && (forall k :: 0 <= k < |r| - 1 ==> r[k] >= 2)
            && 0 <= r[|r| - 1] && up - 18 <= r[|r| - 1] <= up
  {
    hide IdxOf, FecList, Spread, Reset, OffParity, KeptOff, Lifted, Sum, Unit;
    var l := FecList(c, n, onu, tc);
    var g := Curs(c, l);
    var r := Spread(olt, g, 0);
    FecListDistinct(c, n, onu, tc);
    SpreadOk(olt, g, 0, 0);
    if Unit(olt) * Sum(r[..|r| - 1]) < 0x1_0000 { TruePositions(olt, r, 0); }
    ResetRecuts(c, l, r);
    RecutCurs(c, Reset(c, l, r), l, r);
  }

  lemma RecutCurs(was: seq<Alloc>, c: seq<Alloc>, l: seq<nat>, g: seq<int>)
    requires Recut(was, c, l, g)
    ensures Curs(c, l) == g
  {
  }

  // ---------------------------------------------------------------- the FEC mark

  predicate Marked(m: Map, r: Map, fec: bool) {
    m.out <= r.out && forall j :: |m.out| <= j < |r.out| ==> r.out[j].fec == fec
  }

  lemma {:induction false} PlaceMarks(m: Map, c: seq<Alloc>, ovh: int, vs: seq<Visit>, fec: bool)
    requires Within(c, vs) && forall i :: 0 <= i < |vs| ==> vs[i].fec == fec
    ensures Marked(m, PlaceAll(m, c, ovh, vs), fec)
  {
    hide U16;
    if vs != [] { PlaceMarks(m, c, ovh, vs[..|vs| - 1], fec); }
  }

  lemma PlainMarks(c: seq<Alloc>, n: nat, onu: nat, t: nat, vs: seq<Visit>)
    requires (forall j :: 0 <= j < t ==> IdxOf(n, onu, j) < |c|) && vs == PlainVisits(c, n, onu, t)
    ensures forall i :: 0 <= i < |vs| ==> vs[i].fec == false
  {
    hide PlainVisits;
    forall i | 0 <= i < |vs| ensures vs[i].fec == false {
      PlainHas(c, n, onu, t, vs[i]);
    }
  }

  /** The visits of a FEC ONU are the T-CONTs of its list that still grant, each at
      its place in the list, and marked. */
  lemma {:induction false} FecVisitedIff(c: seq<Alloc>, l: seq<nat>, onu: nat, k: nat, v: Visit)
    requires k <= |l| && forall i :: 0 <= i < |l| ==> l[i] < |c|
    ensures v in FecVisits(c, l, onu, k) <==>
            v.slot < k && v == Visit(l[v.slot], v.slot, onu, true) && Granting(c[l[v.slot]])
  {
    hide Granting;
    if k > 0 {
      FecVisitedIff(c, l, onu, k - 1, v);
      var vs, x := FecVisits(c, l, onu, k - 1), Visit(l[k - 1], k - 1, onu, true);
      assert v in vs + [x] <==> v in vs || v == x;
    }
  }

  /** Every entry an ONU adds to the map carries the FEC mark exactly when its
      T-CONT 0 says the ONU runs FEC; the entries before it stand. */
  lemma OnuMarks(w: World, ovh: int, olt: bool, n: nat, onu: nat, tc: nat)
    requires Reaches(w.ctx, n, tc) && onu < n <= |w.ctx|
    ensures Marked(w.m, OnuPass(w, ovh, olt, n, onu, tc).m, w.ctx[onu].fec)
  {
    hide PlaceAll, Spread, FecList, IdxOf, Reset;
    if w.ctx[onu].valid {
      if w.ctx[onu].fec {
        var l := FecList(w.ctx, n, onu, tc);
        var c := Reset(w.ctx, l, Spread(olt, Curs(w.ctx, l), 0));
        var vs := FecVisits(c, l, onu, |l|);
        forall i | 0 <= i < |vs| ensures vs[i].fec {
          FecVisitedIff(c, l, onu, |l|, vs[i]);
        }
        PlaceMarks(w.m, c, ovh, vs, true);
      } else {
        var vs := PlainVisits(w.ctx, n, onu, tc);
        PlainMarks(w.ctx, n, onu, tc, vs);
        PlaceMarks(w.m, w.ctx, ovh, vs, false);
      }
    }
  }
}
