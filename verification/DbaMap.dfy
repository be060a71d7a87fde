/** dba_bwmap_switch and its entry writer: the upstream map of one frame, for
    ONUs in plain order and for FEC ONUs. */
module DbaMap {
  import opened Basics
  import opened WaterFill
  import opened DbaRequest
  import opened DbaFec

  /** The last unit of the frame. */
  const STOP_MAX := 0x4BC1

  /** ONUs and T-CONTs per ONU of the four map modes; a mode above 3 counts as 3. */
  function Onus(mode: nat): nat {
    if mode == 0 then 32 else if mode == 1 then 16 else if mode == 2 then 8 else 64
  }

  function Tcs(mode: nat): nat {
    if mode == 0 then 4 else if mode == 1 then 8 else if mode == 2 then 16 else 2
  }

  /** One word pair of the map. */
  datatype Entry = Entry(start: int, stop: int, id: int, dbru: bool, ploamu: bool, fec: bool, last: bool)

  /** The next free unit, the entries still to come, and those written. */
  datatype Map = Map(pos: int, left: int, out: seq<Entry>)

  /** One call of the entry writer: context, place in the burst, ONU. */
  datatype Visit = Visit(idx: nat, slot: nat, onu: nat, fec: bool)

  datatype World = World(ctx: seq<Alloc>, m: Map)

  // ---------------------------------------------------------------- what is written

  /** The entry writer: every fourth slot pays the burst overhead; a grant that
      is too short or passes the frame moves the position but is not written. */
  function Place(m: Map, a: Alloc, ovh: int, v: Visit): Map {
    var start := if v.slot % 4 == 0 && m.pos != 0 then U16(m.pos + ovh) else m.pos;
    var end := U16(a.cur + start);
    var stop := U16(end - 1);
    if stop > STOP_MAX || start >= stop then m.(pos := end)
    else
      var left := (m.left - 1) % 256;
      Map(end, left,
          m.out + [Entry(start, stop, a.id % 0x1000, a.kind != 1, v.idx == v.onu, v.fec, left == 0)])
  }

  predicate Within(c: seq<Alloc>, vs: seq<Visit>) {
    forall i :: 0 <= i < |vs| ==> vs[i].idx < |c|
  }

  function PlaceAll(m: Map, c: seq<Alloc>, ovh: int, vs: seq<Visit>): Map
    requires Within(c, vs)
  {
    if vs == [] then m
    else
      var v := vs[|vs| - 1];
      Place(PlaceAll(m, c, ovh, vs[..|vs| - 1]), c[v.idx], ovh, v)
  }

  /** Every index an ONU count n and T-CONT count tc reach lies in the contexts. */
  predicate Reaches(c: seq<Alloc>, n: nat, tc: nat) {
    forall onu, t :: 0 <= onu < n && 0 <= t < tc ==> IdxOf(n, onu, t) < |c|
  }

  lemma ModeReaches(c: seq<Alloc>, mode: nat)
    requires |c| == 128
    ensures Reaches(c, Onus(mode), Tcs(mode)) && Onus(mode) <= |c|
  {
    forall onu, t | 0 <= onu < Onus(mode) && 0 <= t < Tcs(mode) ensures IdxOf(Onus(mode), onu, t) < |c| {
      if mode == 0 {
        assert IdxOf(32, onu, t) == onu + t * 32;
      } else if mode == 1 {
        assert IdxOf(16, onu, t) == onu + t * 16;
      } else if mode == 2 {
        assert IdxOf(8, onu, t) == onu + t * 8;
      } else {
        assert IdxOf(64, onu, t) == onu + t * 64;
      }
    }
  }

  /** An ONU in plain order: its granting T-CONTs below t. */
  function PlainVisits(c: seq<Alloc>, n: nat, onu: nat, t: nat): (vs: seq<Visit>)
    requires forall j :: 0 <= j < t ==> IdxOf(n, onu, j) < |c|
    ensures Within(c, vs)
  {
    if t == 0 then []
    else
      var x := IdxOf(n, onu, t - 1);
      var vs := PlainVisits(c, n, onu, t - 1);
      if Granting(c[x]) then vs + [Visit(x, t - 1, onu, false)] else vs
  }

  /** A FEC ONU: its list, without what the pass cut to nothing. */
  function FecVisits(c: seq<Alloc>, l: seq<nat>, onu: nat, k: nat): (vs: seq<Visit>)
    requires k <= |l| && forall i :: 0 <= i < |l| ==> l[i] < |c|
    ensures Within(c, vs)
  {
    if k == 0 then []
    else
      var vs := FecVisits(c, l, onu, k - 1);
      if Granting(c[l[k - 1]]) then vs + [Visit(l[k - 1], k - 1, onu, true)] else vs
  }

  function Curs(c: seq<Alloc>, l: seq<nat>): (g: seq<int>)
    requires forall i :: 0 <= i < |l| ==> l[i] < |c|
    ensures |g| == |l|
  {
    seq(|l|, i requires 0 <= i < |l| => c[l[i]].cur)
  }

  /** The contexts with the listed grants set to g. */
  function Reset(c: seq<Alloc>, l: seq<nat>, g: seq<int>): (r: seq<Alloc>)
    requires |g| == |l| && forall i :: 0 <= i < |l| ==> l[i] < |c|
    ensures |r| == |c|
    decreases |l|
  {
    if l == [] then c else Reset(c[l[0] := c[l[0]].(cur := g[0])], l[1..], g[1..])
  }

  /** One ONU of the frame. */
  function OnuPass(w: World, ovh: int, olt: bool, n: nat, onu: nat, tc: nat): (r: World)
    requires Reaches(w.ctx, n, tc) && onu < n <= |w.ctx|
    ensures |r.ctx| == |w.ctx|
  {
    if !w.ctx[onu].valid then w
    else if !w.ctx[onu].fec then
      w.(m := PlaceAll(w.m, w.ctx, ovh, PlainVisits(w.ctx, n, onu, tc)))
    else
      var l := FecList(w.ctx, n, onu, tc);
      var c := Reset(w.ctx, l, Spread(olt, Curs(w.ctx, l), 0));
      World(c, PlaceAll(w.m, c, ovh, FecVisits(c, l, onu, |l|)))
  }

  function Passes(w: World, ovh: int, olt: bool, n: nat, tc: nat, k: nat): (r: World)
    requires Reaches(w.ctx, n, tc) && k <= n <= |w.ctx|
    ensures |r.ctx| == |w.ctx|
  {
    if k == 0 then w else OnuPass(Passes(w, ovh, olt, n, tc, k - 1), ovh, olt, n, k - 1, tc)
  }

  // ---------------------------------------------------------------- the loops

  /** The listed grants are g, everything else stands. */
  predicate Recut(was: seq<Alloc>, c: seq<Alloc>, l: seq<nat>, g: seq<int>) {
    && |c| == |was| && |g| == |l| && (forall i :: 0 <= i < |l| ==> l[i] < |c|)
    && (forall j :: 0 <= j < |l| ==> c[l[j]] == was[l[j]].(cur := g[j]))
    && (forall i :: 0 <= i < |c| && i !in l ==> c[i] == was[i])
  }

  lemma RecutSet(was: seq<Alloc>, c: seq<Alloc>, l: seq<nat>, g: seq<int>, k: nat, x: int)
    requires Recut(was, c, l, g) && Distinct(l) && k < |l|
    ensures Recut(was, c[l[k] := c[l[k]].(cur := x)], l, g[k := x])
  {
    assert l[k] in l;
    assert forall j :: 0 <= j < |l| && j != k ==> l[j] != l[k];
  }

  lemma RecutUnique(was: seq<Alloc>, c: seq<Alloc>, d: seq<Alloc>, l: seq<nat>, g: seq<int>)
    requires Recut(was, c, l, g) && Recut(was, d, l, g)
    ensures c == d
  {
    forall i | 0 <= i < |c| ensures c[i] == d[i] {
      if i in l {
        var j :| 0 <= j < |l| && l[j] == i;
        assert c[l[j]] == d[l[j]];
      }
    }
  }

  lemma {:induction false} ResetRecuts(c: seq<Alloc>, l: seq<nat>, g: seq<int>)
    requires |g| == |l| && Distinct(l) && forall i :: 0 <= i < |l| ==> l[i] < |c|
    ensures Recut(c, Reset(c, l, g), l, g)
    decreases |l|
  {
    if l != [] {
      var d := c[l[0] := c[l[0]].(cur := g[0])];
      ResetRecuts(d, l[1..], g[1..]);
      var r := Reset(c, l, g);
      assert r == Reset(d, l[1..], g[1..]);
      assert l[0] !in l[1..];
      forall j | 0 <= j < |l| ensures r[l[j]] == c[l[j]].(cur := g[j]) {
        if j > 0 { assert l[j] == l[1..][j - 1] && g[j] == g[1..][j - 1] && l[j] != l[0]; }
      }
    }
  }

  lemma CursRecut(c: seq<Alloc>, l: seq<nat>)
    requires forall i :: 0 <= i < |l| ==> l[i] < |c|
    ensures Recut(c, c, l, Curs(c, l))
  {
  }

  lemma RecutCur(was: seq<Alloc>, c: seq<Alloc>, l: seq<nat>, g: seq<int>, k: nat)
    requires Recut(was, c, l, g) && k < |l|
    ensures |g| == |l| && l[k] < |c| && c[l[k]].cur == g[k]
  {
  }

  /** One turn of the pass, as the loop takes it. */
  lemma SpreadStep(olt: bool, g: seq<int>, k: nat, acc: int)
    requires k < |g|
    ensures var s := Turn(olt, k == |g| - 1, acc, g[k]);
            var h := if k < |g| - 1 then g[k := s.cur][k + 1 := g[k + 1] - s.delta] else g[k := s.cur];
            Spread(olt, g[k..], acc) == [s.cur] + Spread(olt, h[k + 1..], U16(acc + s.len))
  {
    hide Turn;
    var s := Turn(olt, k == |g| - 1, acc, g[k]);
    var rest := g[k..];
    assert rest[0] == g[k];
    if k < |g| - 1 {
      assert Paid(rest[1..], s.delta) == g[k := s.cur][k + 1 := g[k + 1] - s.delta][k + 1..];
    } else {
      assert g[k := s.cur][k + 1..] == [];
    }
  }

  lemma SpreadGrows(g: seq<int>, h: seq<int>, k: nat, x: int, rest: seq<int>)
    requires k < |g| == |h| && h[..k] == g[..k] && h[k] == x
    ensures g[..k] + ([x] + rest) == h[..k + 1] + rest
  {
    assert h[..k + 1] == h[..k] + [x];
  }

  class Frame {
    var ctx: seq<Alloc>
    var ovh: int
    var olt: bool
    var pos: int
    var left: int
    var out: seq<Entry>

    constructor (c: seq<Alloc>, o: int, isOlt: bool, n: int)
      ensures ctx == c && ovh == o && olt == isOlt && State() == Map(0, n, [])
    {
      ctx, ovh, olt, pos, left, out := c, o, isOlt, 0, n, [];
    }

    function State(): Map
      reads this
    {
      Map(pos, left, out)
    }

    /** dba_config_bwmap_handler. */
    method Stage(idx: nat, fec: bool, slot: nat, onu: nat)
      requires idx < |ctx|
      modifies this`pos, this`left, this`out
      ensures State() == Place(old(State()), ctx[idx], ovh, Visit(idx, slot, onu, fec))
    {
      var start := pos;
      if slot % 4 == 0 && start != 0 {
        start := U16(start + ovh);
      }
      var a := ctx[idx];
      var end := U16(a.cur + start);
      var stop := U16(end - 1);
      pos := end;
      if stop > STOP_MAX {
        return;
      }
      if start >= stop {
        return;
      }
      left := (left - 1) % 256;
      out := out + [Entry(start, stop, a.id % 0x1000, a.kind != 1, idx == onu, fec, left == 0)];
    }

    /** The sorted list of one FEC ONU. */
    method FecSort(n: nat, onu: nat, tc: nat) returns (list: seq<nat>)
      requires forall j :: 0 <= j < tc ==> IdxOf(n, onu, j) < |ctx|
      ensures list == FecList(ctx, n, onu, tc)
    {
      hide Sink;
      list := [];
      for j := 0 to tc
        invariant list == FecList(ctx, n, onu, j)
      {
        var idx := IdxOf(n, onu, j);
        if ctx[idx].valid && ctx[idx].cur != 0 {
          ghost var l := list;
          list := list + [idx];
          if |list| > 1 {
            assert list[1..1 + (|list| - 1) - 1] == l[1..] && list[..1] == [l[0]];
            list := SortStep(ctx, list, |list| - 1, 1);
          }
        }
      }
    }

    /** One turn of the FEC pass: the grant, its length, and what it grew. */
    method Grow(last: bool, acc: int, cur0: int) returns (cur: int, len: int, delta: int)
      ensures Step(cur, len, delta) == Turn(olt, last, acc, cur0)
    {
      hide OltTurn, OnuTurn;
      cur, delta := cur0, 0;
      if cur <= 1 {
        delta := U16(2 - cur);
        cur := 2;
      }
      if last && cur < 18 {
        cur := 18;
      }
      if olt {
        cur, len, delta := GrowOlt(last, acc, cur, delta);
      } else {
        cur, len, delta := GrowOnu(last, acc, cur, delta);
      }
    }

    method GrowOlt(last: bool, acc: int, up: int, d: int) returns (cur: int, len: int, delta: int)
      ensures Step(cur, len, delta) == OltTurn(last, acc, up, d)
    {
      hide U16;
      cur, delta, len := up, d, up * 2;
      var rem := (acc + len + 2) % 255;
      if rem > 238 {
        if !last {
          len := len - rem + 255;
          if len % 2 == 1 {
            delta := U16(delta + (256 - rem) / 2);
            len := len + 1;
          } else {
            delta := U16(delta + (255 - rem) / 2);
          }
          cur := len / 2;
        }
      } else if !last {
        if (acc + len + 3) % 255 > 236 {
          len := len + 20;
          delta := U16(delta + 10);
          cur := len / 2;
        }
      } else if rem < 18 {
        len := len - rem;
        len := len + len % 2 - 2;
        cur := len / 2;
      }
    }

    method GrowOnu(last: bool, acc: int, up: int, d: int) returns (cur: int, len: int, delta: int)
      ensures Step(cur, len, delta) == OnuTurn(last, acc, up, d)
    {
      hide U16;
      cur, delta, len := up, d, up;
      var rem := (acc + len + 2) % 255;
      if rem > 238 {
        if !last {
          len := len + 255 - rem;
          delta := U16(delta + 255 - rem);
          cur := len;
        }
      } else if !last {
        if (acc + len + 3) % 255 > 236 {
          len := len + 19;
          delta := U16(delta + 19);
          cur := len;
        }
      } else if rem < 18 {
        len := len - (rem + 1);
        cur := len;
      }
    }

    /** The FEC pass over the list, each grant docked what the last one grew. */
    method FecGrow(list: seq<nat>)
      requires Distinct(list) && forall i :: 0 <= i < |list| ==> list[i] < |ctx|
      modifies this`ctx
      ensures |ctx| == |old(ctx)|
      ensures ctx == Reset(old(ctx), list, Spread(olt, Curs(old(ctx), list), 0))
    {
      hide Turn, Recut, Distinct, Spread, Reset, U16, Curs;
      ghost var was := ctx;
      ghost var g := Curs(ctx, list);
      var acc := 0;
      CursRecut(ctx, list);
      assert g[..0] + Spread(olt, g[0..], 0) == Spread(olt, g, 0) by { assert g[0..] == g; }
      for k := 0 to |list|
        invariant |ctx| == |was| && |g| == |list| && Recut(was, ctx, list, g)
        invariant g[..k] + Spread(olt, g[k..], acc) == Spread(olt, Curs(was, list), 0)
      {
        var last := k == |list| - 1;
        ghost var h := g;
        RecutCur(was, ctx, list, g, k);
        SpreadStep(olt, g, k, acc);
        var cur, len, delta := Grow(last, acc, ctx[list[k]].cur);
        RecutSet(was, ctx, list, g, k, cur);
        ctx := ctx[list[k] := ctx[list[k]].(cur := cur)];
        g := g[k := cur];
        acc := U16(acc + len);
        if !last {
          RecutCur(was, ctx, list, g, k + 1);
          RecutSet(was, ctx, list, g, k + 1, g[k + 1] - delta);
          ctx := ctx[list[k + 1] := ctx[list[k + 1]].(cur := ctx[list[k + 1]].cur - delta)];
          g := g[k + 1 := g[k + 1] - delta];
        }
        SpreadGrows(h, g, k, cur, Spread(olt, g[k + 1..], acc));
      }
      assert g[..|list|] + Spread(olt, g[|list|..], acc) == g by { SpreadNone(olt, g, |list|, acc); }
      ResetRecuts(was, list, g);
      RecutUnique(was, ctx, Reset(was, list, g), list, g);
    }

    /** T-CONTs of one ONU in plain order. */
    method EmitPlain(n: nat, onu: nat, tc: nat)
      requires forall j :: 0 <= j < tc ==> IdxOf(n, onu, j) < |ctx|
      modifies this`pos, this`left, this`out
      ensures State() == PlaceAll(old(State()), ctx, ovh, PlainVisits(ctx, n, onu, tc))
    {
      hide Place, IdxOf, PlaceAll;
      PlaceNone(State(), ctx, ovh);
      for j := 0 to tc
        invariant State() == PlaceAll(old(State()), ctx, ovh, PlainVisits(ctx, n, onu, j))
      {
        var idx := IdxOf(n, onu, j);
        if ctx[idx].valid && ctx[idx].cur != 0 {
          PlaceSnoc(old(State()), ctx, ovh, PlainVisits(ctx, n, onu, j), Visit(idx, j, onu, false));
          Stage(idx, false, j, onu);
        }
      }
    }

    /** The list of one FEC ONU, after its pass. */
    method Emit(list: seq<nat>, onu: nat)
      requires forall i :: 0 <= i < |list| ==> list[i] < |ctx|
      modifies this`pos, this`left, this`out
      ensures State() == PlaceAll(old(State()), ctx, ovh, FecVisits(ctx, list, onu, |list|))
    {
      hide Place, PlaceAll;
      PlaceNone(State(), ctx, ovh);
      for k := 0 to |list|
        invariant State() == PlaceAll(old(State()), ctx, ovh, FecVisits(ctx, list, onu, k))
      {
        if ctx[list[k]].valid && ctx[list[k]].cur != 0 {
          PlaceSnoc(old(State()), ctx, ovh, FecVisits(ctx, list, onu, k), Visit(list[k], k, onu, true));
          Stage(list[k], true, k, onu);
        }
      }
    }

    /** dba_bwmap_switch up to the bank switch: every ONU of the layout. */
    method Switch(n: nat, tc: nat)
      requires Reaches(ctx, n, tc) && n <= |ctx|
      modifies this`ctx, this`pos, this`left, this`out
      ensures World(ctx, State()) == Passes(World(old(ctx), Map(0, old(left), old(out))), ovh, olt, n, tc, n)
    {
      hide PlaceAll, Spread, Reset, Distinct, SortedBy, FecList, IdxOf, Curs, PlainVisits, FecVisits;
      pos := 0;
      ghost var w := World(ctx, State());
      for onu := 0 to n
        invariant Reaches(ctx, n, tc) && n <= |ctx|
        invariant World(ctx, State()) == Passes(w, ovh, olt, n, tc, onu)
      {
        NothingListed(World(ctx, State()), ovh, olt, n, onu, tc);
        if ctx[onu].valid {
          if !ctx[onu].fec {
            EmitPlain(n, onu, tc);
          } else {
            var list := FecSort(n, onu, tc);
            if list != [] {
              FecListDistinct(ctx, n, onu, tc);
              FecGrow(list);
              Emit(list, onu);
            }
          }
        }
      }
    }
  }

  lemma SpreadNone(olt: bool, g: seq<int>, k: nat, acc: int)
    requires k == |g|
    ensures g[..k] + Spread(olt, g[k..], acc) == g
  {
  }

  /** A FEC ONU without a grant writes nothing. */
  lemma NothingListed(w: World, ovh: int, olt: bool, n: nat, onu: nat, tc: nat)
    requires Reaches(w.ctx, n, tc) && onu < n <= |w.ctx|
    ensures w.ctx[onu].valid && w.ctx[onu].fec && FecList(w.ctx, n, onu, tc) == [] ==>
      OnuPass(w, ovh, olt, n, onu, tc) == w
  {
    hide IdxOf, FecList;
  }

  lemma PlaceNone(m: Map, c: seq<Alloc>, ovh: int)
    ensures PlaceAll(m, c, ovh, []) == m
  {
  }

  lemma PlaceSnoc(m: Map, c: seq<Alloc>, ovh: int, vs: seq<Visit>, v: Visit)
    requires Within(c, vs) && v.idx < |c|
    ensures Within(c, vs + [v])
    ensures PlaceAll(m, c, ovh, vs + [v]) == Place(PlaceAll(m, c, ovh, vs), c[v.idx], ovh, v)
  {
    assert (vs + [v])[..|vs|] == vs;
  }
}
