/** The block-ack entry as the firmware keeps it: a hold list linked through the
    node memory, changed in place. Every method is proved to do what the
    function of the same name in BaWindow does to the window it stands for, to
    log the same events, to keep the entry's and the free nodes together, and to
    leave every other node alone. */
module BaEntry {
  import opened Seq12
  import opened BaWindow
  import opened NodePool
  import opened BaLinks

  /** Where released frames go: pkt_enqueue_bridge and buf_id_free, in order. */
  class Port {
    var log: seq<Event>

    constructor ()
      ensures log == []
    {
      log := [];
    }
  }

  class Entry {
    var head: nat
    var count: nat
    var chain: nat
    var win: int
    var last: int
    var refSn: int
    var amsdu: int
    var flag: int
    var state: int
    var band: int
    ghost var shape: Shape

    ghost predicate Valid(p: Nodes)
      reads this, p.Repr()
    {
      && p.Valid() && Shaped(p.node, shape)
      && head == First(shape.nodes) && count == |shape.nodes|
      && shape.home.Keys !! p.Free() && 0 <= win < 512
    }

    /** The window this entry stands for. */
    ghost function Abs(p: Nodes): Window
      reads this, p
    {
      Window(win, last, refSn, amsdu, flag, state, band, HeldAt(p.node, shape), PtrAt(shape, chain))
    }

    /** The nodes of this entry and the free ones: no step moves a node out of or
        into this set, or touches one outside it. */
    ghost function Reach(p: Nodes): set<nat>
      reads this, p.pri, p.sec
    {
      shape.home.Keys + p.Free()
    }

    twostate predicate Confined(p: Nodes)
      reads this, p.Repr()
    {
      Reach(p) == old(Reach(p)) && KeptOutside(old(p.node), p.node, old(Reach(p)))
    }

    /** Nodes only came back. */
    twostate predicate Releases(p: Nodes)
      reads this, p.Repr()
    {
      Confined(p) && p.Room() >= old(p.Room())
    }

    constructor (p: Nodes)
      requires p.Valid()
      ensures Valid(p) && shape.home == map[]
      ensures Abs(p) == Window(8, 0, 0, 0, 0, 0, 0, [], Null)
    {
      head, count, chain := 0, 0, 0;
      win, last, refSn, amsdu, flag, state, band := 8, 0, 0, 0, 0, 0, 0;
      shape := Shape([], map[], map[]);
    }

    // ------------------------------------------------------------ release

    /** Take the head MPDU off the list and release it. */
    method ReleaseHead(p: Nodes, port: Port)
      requires Valid(p) && shape.nodes != []
      modifies this, p.Repr(), port
      ensures Valid(p)
      ensures Abs(p) == Pop(old(Abs(p)), 1).w
      ensures port.log == old(port.log) + Send(old(Abs(p)).held[0], old(band))
      ensures Releases(p)
    {
      hide Shaped, Row, HeldAt, RowAt, PtrAt, Send;
      ghost var mem, s := p.node, shape;
      var m := head;
      ShapedTail(mem, s);
      HeldTail(mem, s);
      HomeTail(s);
      PtrTail(mem, s, chain);
      RowIs(mem, s, m);
      count := count - 1;
      head := p.node[m].next;
      shape := WithoutHead(s);
      ReleaseMpdu(p, port, m, band, s);
      OneLess(mem, p.node, s);
    }

    /** ba_indicate_le_seq. */
    method IndicateLe(p: Nodes, port: Port, seqno: int)
      requires Valid(p)
      modifies this, p.Repr(), port
      ensures Valid(p) && Releases(p)
      ensures var r := Pop(old(Abs(p)), LeCount(old(Abs(p)).held, seqno));
              Abs(p) == r.w && port.log == old(port.log) + r.out
    {
      hide Shaped, HeldAt, PtrAt, Send, SendAll, Low12, First, p.Valid, p.Free, p.Room;
      ghost var w, n := Abs(p), 0;
      PopNone(w);
      HeadIs(p.node, shape);
      while head != 0 && (p.node[head].f.sn == seqno || Bit11(p.node[head].f.sn - seqno))
        invariant Valid(p) && Releases(p) && n <= |w.held|
        invariant Abs(p) == Pop(w, n).w && port.log == old(port.log) + Pop(w, n).out
        invariant LeCount(w.held, seqno) == n + LeCount(w.held[n..], seqno)
        invariant HeadMatches(p.node, head, Abs(p).held)
        decreases |w.held| - n
      {
        ReleaseHead(p, port);
        PopMore(w, n);
        HeadIs(p.node, shape);
        n := n + 1;
      }
    }

    /** One more of a run, or its end. */
    static lemma ScanStep(hs: seq<Held>, n: nat, to: int)
      requires n <= |hs|
      ensures hs[0..] == hs
      ensures ScanCount(hs[n..], to) ==
              if n < |hs| && hs[n].first.sn == Low12(to + 1) then 1 + ScanCount(hs[n + 1..], hs[n].first.sn) else 0
    {
      if n < |hs| { assert hs[n..][1..] == hs[n + 1..]; }
    }

    /** ba_seq_scan: 0xFFFF when nothing followed. */
    method SeqScan(p: Nodes, port: Port, seqno: int) returns (to: int)
      requires Valid(p)
      modifies this, p.Repr(), port
      ensures Valid(p) && Releases(p)
      ensures var n := ScanCount(old(Abs(p)).held, seqno);
              && Abs(p) == Pop(old(Abs(p)), n).w && port.log == old(port.log) + Pop(old(Abs(p)), n).out
              && to == if n == 0 then 0xFFFF else old(Abs(p)).held[n - 1].first.sn
    {
      hide Shaped, HeldAt, PtrAt, Send, SendAll, Low12, First, p.Valid, p.Free, p.Room, ScanCount;
      to := 0xFFFF;
      ghost var w, n := Abs(p), 0;
      PopNone(w);
      HeadIs(p.node, shape);
      ScanStep(w.held, 0, seqno);
      if head != 0 && p.node[head].f.sn == Low12(seqno + 1) {
        to := seqno;
        while head != 0 && p.node[head].f.sn == Low12(to + 1)
          invariant Valid(p) && Releases(p) && n <= |w.held|
          invariant Abs(p) == Pop(w, n).w && port.log == old(port.log) + Pop(w, n).out
          invariant to == if n == 0 then seqno else w.held[n - 1].first.sn
          invariant ScanCount(w.held, seqno) == n + ScanCount(w.held[n..], to)
          invariant HeadMatches(p.node, head, Abs(p).held)
          invariant n == 0 ==> p.node[head].f.sn == Low12(seqno + 1) && head != 0
          decreases |w.held| - n
        {
          ScanStep(w.held, n, to);
          to := p.node[head].f.sn;
          ReleaseHead(p, port);
          PopMore(w, n);
          HeadIs(p.node, shape);
          n := n + 1;
        }
        ScanStep(w.held, n, to);
      }
    }

    /** Store the last SN and release what follows it. */
    method MoveTo(p: Nodes, port: Port, seqno: int)
      requires Valid(p)
      modifies this, p.Repr(), port
      ensures Valid(p) && Releases(p)
      ensures var r := Advance(old(Abs(p)), seqno); Abs(p) == r.w && port.log == old(port.log) + r.out
    {
      hide Shaped, HeldAt, PtrAt, SendAll, p.Valid, p.Free, p.Room;
      ghost var w := Abs(p);
      SnsFit(p.node, shape);
      last := seqno;
      var to := SeqScan(p, port, seqno);
      if to != 0xFFFF {
        last := to;
      }
    }

    method ReleaseUpTo(p: Nodes, port: Port, seqno: int)
      requires Valid(p)
      modifies this, p.Repr(), port
      ensures Valid(p) && Releases(p)
      ensures var r := ReleaseTo(old(Abs(p)), seqno); Abs(p) == r.w && port.log == old(port.log) + r.out
    {
      hide Shaped, HeldAt, PtrAt, SendAll, p.Valid, p.Free, p.Room, Pop, Advance;
      IndicateLe(p, port, seqno);
      MoveTo(p, port, seqno);
    }

    /** ba_flush_entry. */
    method FlushEntry(p: Nodes, port: Port)
      requires Valid(p)
      modifies this, p.Repr(), port
      ensures Valid(p) && Releases(p)
      ensures var r := Flush(old(Abs(p))); Abs(p) == r.w && port.log == old(port.log) + r.out
    {
      hide Shaped, HeldAt, PtrAt, Send, SendAll, First, p.Valid, p.Free, p.Room, Pop, Flushed, Flush;
      ghost var w, n := Abs(p), 0;
      FlushNone(w);
      HeadIs(p.node, shape);
      while head != 0
        invariant Valid(p) && Releases(p) && n <= |w.held| && |Abs(p).held| == |w.held| - n
        invariant Abs(p) == Flushed(w, n).w && port.log == old(port.log) + Flushed(w, n).out
        invariant HeadMatches(p.node, head, Abs(p).held)
        decreases |w.held| - n
      {
        FlushMore(w, n);
        last := p.node[head].f.sn;
        ReleaseHead(p, port);
        HeadIs(p.node, shape);
        n := n + 1;
      }
      chain := 0;
      PtrNull(shape);
      FlushAll(w);
    }

    /** ba_state_update. */
    method UpdateState(p: Nodes, port: Port, sn: int, kind: int)
      requires Valid(p)
      modifies this, p.Repr(), port
      ensures Valid(p) && Releases(p)
      ensures var r := StateUpdate(old(Abs(p)), sn, kind); Abs(p) == r.w && port.log == old(port.log) + r.out
    {
      hide Shaped, HeldAt, PtrAt, SendAll, p.Valid, p.Free, p.Room, Advance;
      PtrNull(shape);
      if amsdu != 2 && amsdu != 3 {
        return;
      }
      if refSn == sn && kind != 3 {
        return;
      }
      chain := 0;
      if flag != 0 {
        return;
      }
      MoveTo(p, port, refSn);
    }

    /** ba_timeout_entry. */
    method TimeoutEntry(p: Nodes, port: Port, now: int, limit: int)
      requires Valid(p)
      modifies this, p.Repr(), port
      ensures Valid(p) && Releases(p)
      ensures var r := Timeout(old(Abs(p)), now, limit); Abs(p) == r.w && port.log == old(port.log) + r.out
    {
      hide Shaped, HeldAt, PtrAt, SendAll, p.Valid, p.Free, p.Room, First, ReleaseTo;
      ghost var w, out := Abs(p), [];
      HeadIs(p.node, shape);
      while head != 0 && (now - p.node[head].tick) % 0x1_0000_0000 > limit
        invariant Valid(p) && Releases(p)
        invariant Timeout(w, now, limit).w == Timeout(Abs(p), now, limit).w
        invariant Timeout(w, now, limit).out == out + Timeout(Abs(p), now, limit).out
        invariant port.log == old(port.log) + out
        invariant HeadMatches(p.node, head, Abs(p).held)
        decreases |Abs(p).held|
      {
        ghost var a := ReleaseTo(Abs(p), p.node[head].f.sn);
        assert Expired(Abs(p).held[0], now, limit);
        ReleaseUpTo(p, port, p.node[head].f.sn);
        HeadIs(p.node, shape);
        out := out + a.out;
      }
      assert out + [] == out;
    }

    // ------------------------------------------------------------ classifier

    /** Fill a node taken from the pools. */
    method FillNode(p: Nodes, a: nat, idx: nat, pool: nat, f: Frame, tick: int)
      requires p.Valid() && Shaped(p.node, shape) && 0 < a < |p.node| && a !in shape.home
      requires IsIndex(idx, pool) && Address(idx, pool) == a && 0 <= f.sn < 4096
      modifies p
      ensures p.Valid() && KeptOutside(old(p.node), p.node, {a}) && Filled(p.node, shape, a)
      ensures p.node[a].next == 0 && p.node[a].f == f && p.node[a].tick == tick
      ensures p.node[a].idx == idx && p.node[a].pool == pool
      ensures Shaped(p.node, shape) && HeldAt(p.node, shape) == HeldAt(old(p.node), shape)
    {
      hide Shaped, HeldAt;
      p.node := p.node[a := Node(0, 0, 0, 0, f, idx, pool, tick)];
      SameShape(old(p.node), p.node, shape, {a});
    }

    /** The next MSDU of the A-MSDU being held. */
    method AppendNode(p: Nodes, a: nat)
      requires Valid(p) && Abs(p).chain.At? && Filled(p.node, shape, a) && p.node[a].next == 0 && a !in p.Free()
      modifies this, p
      ensures Valid(p) && p.Free() == old(p.Free()) && shape.home.Keys == old(shape.home.Keys) + {a}
      ensures KeptOutside(old(p.node), p.node, old(shape.home.Keys))
      ensures var w := old(Abs(p)); Abs(p) == w.(held := Append(w.held, w.chain.i, old(p.node[a].f)))
    {
      hide Shaped, HeldAt, p.Free;
      ghost var mem, s, m := p.node, shape, chain;
      ghost var i := PtrOf(s, chain);
      HeadHoused(mem, s, i);
      TailIs(mem, s, m);
      var tail := p.node[chain].tail;
      p.node := p.node[chain := p.node[chain].(cnt := p.node[chain].cnt + 1)];
      if tail != 0 {
        p.node := p.node[tail := p.node[tail].(next := a)];
      } else {
        p.node := p.node[chain := p.node[chain].(head := a)];
      }
      p.node := p.node[chain := p.node[chain].(tail := a)];
      shape := Appended(s, m, a);
      HomeInside(mem, s);
      AppendShaped(mem, p.node, s, m, a);
      AppendHeld(mem, p.node, s, i, a);
    }

    /** Where a new MPDU belongs: the place the 12-bit search stops at. */
    method FindPlace(p: Nodes, sn: int) returns (prev: nat, cur: nat, ghost i: nat)
      requires Valid(p)
      ensures i == InsertAt(Abs(p).held, sn) && i <= |shape.nodes|
      ensures cur == At0(shape.nodes, i) && prev == if i == 0 then 0 else shape.nodes[i - 1]
      ensures cur != 0 <==> i < |shape.nodes|
      ensures cur != 0 ==> cur < |p.node| && p.node[cur].f == Abs(p).held[i].first
    {
      hide Shaped, HeldAt, p.Valid, p.Free, Bit11, InsertAt, PtrAt;
      ghost var hs := Abs(p).held;
      prev, cur, i := 0, head, 0;
      ListAt(p.node, shape, 0);
      assert hs[0..] == hs;
      while cur != 0 && Bit11(p.node[cur].f.sn - sn)
        invariant i <= |shape.nodes| && cur == At0(shape.nodes, i)
        invariant prev == if i == 0 then 0 else shape.nodes[i - 1]
        invariant ListMatches(p.node, shape, i)
        invariant InsertAt(hs, sn) == i + InsertAt(hs[i..], sn)
        decreases |shape.nodes| - i
      {
        SearchStep(hs, i, sn);
        prev := cur;
        cur := p.node[cur].next;
        i := i + 1;
        ListAt(p.node, shape, i);
      }
      SearchStep(hs, i, sn);
    }

    /** One more of the MPDUs passed over, or the end of the search. */
    static lemma SearchStep(hs: seq<Held>, i: nat, sn: int)
      requires i <= |hs|
      ensures InsertAt(hs[i..], sn) ==
              if i < |hs| && Bit11(hs[i].first.sn - sn) then 1 + InsertAt(hs[i + 1..], sn) else 0
    {
      if i < |hs| { assert hs[i..][1..] == hs[i + 1..]; }
    }

    /** Link a filled node between prev and cur. */
    method LinkNode(p: Nodes, a: nat, prev: nat, cur: nat, ghost i: nat)
      requires Valid(p) && chain == 0 && Filled(p.node, shape, a) && a !in p.Free() && i <= |shape.nodes|
      requires cur == At0(shape.nodes, i) && prev == if i == 0 then 0 else shape.nodes[i - 1]
      modifies this, p
      ensures Valid(p) && p.Free() == old(p.Free())
      ensures shape.home.Keys == old(shape.home.Keys) + {a}
      ensures KeptOutside(old(p.node), p.node, old(shape.home.Keys) + {a})
      ensures var w, n := old(Abs(p)), old(p.node[a]);
              Abs(p) == w.(held := w.held[..i] + [Held(n.f, [], n.tick)] + w.held[i..], chain := At(i))
    {
      hide Shaped, HeldAt, p.Free, PtrAt, Inserted, First, At0, KeptOutside, Filled, Owned;
      ghost var mem, s := p.node, shape;
      PrevHoused(mem, s, i);
      FilledInside(mem, s, a);
      p.node := p.node[a := p.node[a].(next := cur)];
      if prev != 0 {
        p.node := p.node[prev := p.node[prev].(next := a)];
      } else {
        head := a;
      }
      count := count + 1;
      chain := a;
      shape := Inserted(s, i, a);
      LinkIs(mem, p.node, s, i, a, prev);
    }

    /** The hold path. The head pointer must not be stale: between restarts it
        never is (BaRuns.RxOk). */
    method HoldFrame(p: Nodes, port: Port, f: Frame, tick: int)
      requires Valid(p) && 0 <= f.sn < 4096 && Abs(p).chain != Stale
      modifies this, p.Repr(), port
      ensures Valid(p) && Confined(p)
      ensures var o := Hold(old(Abs(p)), f, old(p.Room()) > 2, tick);
              Abs(p) == o.w && port.log == old(port.log) + o.out
    {
      hide Shaped, HeldAt, PtrAt, p.Free, Append;
      var a, idx, pool := p.Alloc();
      PtrShows(shape, chain);
      if a != 0 {
        HoldTaken(p, port, a, idx, pool, f, tick);
        NoteFrame(p, f, 3);
      }
    }

    /** The hold path once a node is there. */
    method HoldTaken(p: Nodes, port: Port, a: nat, idx: nat, pool: nat, f: Frame, tick: int)
      requires Valid(p) && 0 <= f.sn < 4096 && (chain != 0 ==> Abs(p).chain.At?)
      requires IsIndex(idx, pool) && Address(idx, pool) == a && 0 < a < |p.node|
      requires a !in shape.home && a !in p.Free()
      modifies this, p.Repr(), port
      ensures Valid(p) && Reach(p) == old(Reach(p)) + {a}
      ensures KeptOutside(old(p.node), p.node, old(Reach(p)) + {a})
      ensures var w := old(Abs(p));
              var i := if w.chain.At? then w.chain.i else InsertAt(w.held, f.sn);
              if w.chain.At? then Abs(p) == w.(held := Append(w.held, i, f)) && port.log == old(port.log)
              else if i < |w.held| && w.held[i].first.sn == f.sn
              then Abs(p) == w && port.log == old(port.log) + [Freed(f)]
              else && Abs(p) == w.(held := w.held[..i] + [Held(f, [], tick)] + w.held[i..], chain := At(i))
                   && port.log == old(port.log)
    {
      hide Shaped, HeldAt, PtrAt, p.Free, Append;
      PtrShows(shape, chain);
      FillNode(p, a, idx, pool, f, tick);
      if chain != 0 {
        AppendNode(p, a);
      } else {
        HoldNew(p, port, a, f, tick);
      }
    }

    /** A filled node into the list in SN order, or back to its pool when the SN
        is held already. */
    method HoldNew(p: Nodes, port: Port, a: nat, f: Frame, tick: int)
      requires Valid(p) && chain == 0 && Filled(p.node, shape, a) && a !in p.Free()
      requires p.node[a].f == f && p.node[a].tick == tick
      modifies this, p.Repr(), port
      ensures Valid(p) && Reach(p) == old(Reach(p)) + {a}
      ensures KeptOutside(old(p.node), p.node, old(Reach(p)) + {a})
      ensures var w := old(Abs(p));
              var i := InsertAt(w.held, f.sn);
              if i < |w.held| && w.held[i].first.sn == f.sn
              then Abs(p) == w && port.log == old(port.log) + [Freed(f)]
              else && Abs(p) == w.(held := w.held[..i] + [Held(f, [], tick)] + w.held[i..], chain := At(i))
                   && port.log == old(port.log)
    {
      hide Shaped, HeldAt, PtrAt, p.Free;
      var prev, cur, i := FindPlace(p, f.sn);
      if cur != 0 && p.node[cur].f.sn == f.sn {
        p.Release(p.node[a].idx, p.node[a].pool);
        port.log := port.log + [Freed(f)];
      } else {
        LinkNode(p, a, prev, cur, i);
      }
    }

    /** What every branch but an allocation failure stores about the frame. */
    method NoteFrame(p: Nodes, f: Frame, what: int)
      requires Valid(p)
      modifies this
      ensures Valid(p) && Abs(p) == Noted(old(Abs(p)), f, what) && shape == old(shape)
    {
      hide Shaped, HeldAt;
      amsdu, refSn, flag := f.amsdu, f.sn, what;
      if f.Final() {
        chain := 0;
      }
    }

    /** The next frame in order. */
    method TakeFrame(p: Nodes, port: Port, f: Frame)
      requires Valid(p)
      modifies this, p.Repr(), port
      ensures Valid(p) && Releases(p)
      ensures var o := TakeInOrder(old(Abs(p)), f); Abs(p) == o.w && port.log == old(port.log) + o.out
    {
      hide Shaped, HeldAt, p.Valid, p.Free, Advance;
      port.log := port.log + [Sent(f, band, f.bss)];
      if f.Final() {
        MoveTo(p, port, f.sn);
        chain := 0;
      }
      amsdu, refSn, flag := f.amsdu, f.sn, 0;
    }

    /** Slide the window so that sn is its last slot. */
    method SlideFrame(p: Nodes, port: Port, sn: int)
      requires Valid(p)
      modifies this, p.Repr(), port
      ensures Valid(p) && Releases(p)
      ensures var r := Slide(old(Abs(p)), sn); Abs(p) == r.w && port.log == old(port.log) + r.out
    {
      hide Shaped, HeldAt, PtrAt, p.Valid, p.Free, ReleaseTo;
      var fs := sn - win + 1;
      if fs < 0 {
        fs := sn - win + 0x1001;
      }
      ReleaseUpTo(p, port, Low12(fs - 1));
      flag := 4;
    }

    /** The tests at the head of the window loop. */
    method Locate(p: Nodes, sn: int) returns (place: Place)
      requires Valid(p)
      ensures place == PlaceOf(Abs(p), sn)
    {
      hide Shaped, HeldAt, PtrAt, Bit11, Low12;
      if Low12(last + 1) == sn {
        return InOrder;
      }
      if last == sn {
        return Duplicate;
      }
      if Bit11(sn - last) {
        return Behind;
      }
      return if Bit11(sn - Low12(last + win + 1)) then Inside else Past;
    }

    /** A duplicate, or a frame behind the window. */
    method DropFrame(p: Nodes, port: Port, f: Frame, fast: bool)
      requires Valid(p) && (PlaceOf(Abs(p), f.sn) == Duplicate || PlaceOf(Abs(p), f.sn) == Behind)
      modifies this, port
      ensures Valid(p) && shape == old(shape)
      ensures var o := Settle(old(Abs(p)), f, fast, true, 0); Abs(p) == o.w && port.log == old(port.log) + o.out
    {
      hide Shaped, HeldAt, PtrAt, Bit11, Low12, Noted;
      if last == f.sn {
        port.log := port.log + [if fast then Sent(f, band, f.bss) else Freed(f)];
        NoteFrame(p, f, 1);
        return;
      }
      var restarted :=
        || win < last - f.sn
        || Bit11((win / 2 + f.sn + 1) % 4095 - last)
        || (win < f.sn - last && f.sn + win < 4096);
      port.log := port.log + [if restarted || fast then Sent(f, band, f.bss) else Freed(f)];
      NoteFrame(p, f, 2);
      if restarted {
        last := f.sn;
      }
    }

    /** The window loop of kite_classify_pn and the branch it ends in. node tells
        whether the pools had a node when the frame came to be held. */
    method SettleFrame(p: Nodes, port: Port, f: Frame, fast: bool, tick: int) returns (ghost node: bool)
      requires Valid(p) && 0 <= f.sn < 4096
      requires Settle(Abs(p), f, fast, true, tick).fate != Stray
      modifies this, p.Repr(), port
      ensures Valid(p) && Confined(p) && (old(p.Room()) > 2 ==> node)
      ensures var o := Settle(old(Abs(p)), f, fast, node, tick);
              Abs(p) == o.w && port.log == old(port.log) + o.out
    {
      hide Shaped, HeldAt, PtrAt, p.Valid, p.Free, Settle, Slide, PlaceOf;
      ghost var w, out := Abs(p), [];
      NotSlid(w, f, fast, tick);
      var place := Locate(p, f.sn);
      while place == Past
        invariant Valid(p) && Releases(p) && place == PlaceOf(Abs(p), f.sn)
        invariant port.log == old(port.log) + out
        invariant SlidTo(w, Abs(p), f, fast, tick, out)
        invariant Settle(Abs(p), f, fast, true, tick).fate != Stray
        decreases |Abs(p).held|, if place == Past then 1 else 0
      {
        ghost var before := Abs(p);
        SlideMakesProgress(before, f.sn);
        SlideFrame(p, port, f.sn);
        SlidMore(w, before, f, fast, tick, out);
        out := out + Slide(before, f.sn).out;
        place := Locate(p, f.sn);
      }
      ghost var at, log := Abs(p), port.log;
      node := EndFrame(p, port, f, fast, tick, place);
      Joined(old(port.log), out, Settle(at, f, fast, node, tick).out);
    }

    /** The branch the loop ends in. */
    method EndFrame(p: Nodes, port: Port, f: Frame, fast: bool, tick: int, place: Place) returns (ghost node: bool)
      requires Valid(p) && 0 <= f.sn < 4096 && place == PlaceOf(Abs(p), f.sn) && place != Past
      requires Settle(Abs(p), f, fast, true, tick).fate != Stray
      modifies this, p.Repr(), port
      ensures Valid(p) && Confined(p) && (old(p.Room()) > 2 ==> node)
      ensures var o := Settle(old(Abs(p)), f, fast, node, tick);
              Abs(p) == o.w && port.log == old(port.log) + o.out
    {
      hide Shaped, HeldAt, PtrAt, p.Valid, p.Free, Hold, TakeInOrder, PlaceOf, PeerRestarted, Noted;
      node := p.Room() > 2;
      HoldSafe(Abs(p), f, tick);
      match place {
        case InOrder => TakeFrame(p, port, f);
        case Inside => HoldFrame(p, port, f, tick);
        case Duplicate => DropFrame(p, port, f, fast);
        case Behind => DropFrame(p, port, f, fast);
        case Past => assert false;
      }
    }

    /** kite_classify_pn for the entry it finds: true when the caller keeps the
        buffer. node as in SettleFrame. */
    method ClassifyFrame(p: Nodes, port: Port, f: Frame, b: int, fast: bool, tick: int)
      returns (returned: bool, ghost node: bool)
      requires Valid(p) && 0 <= f.sn < 4096
      requires Classify(Abs(p), f, b, fast, true, tick).fate != Stray
      modifies this, p.Repr(), port
      ensures Valid(p) && Confined(p) && (old(p.Room()) > 2 ==> node)
      ensures var o := Classify(old(Abs(p)), f, b, fast, node, tick);
              && Abs(p) == o.w && port.log == old(port.log) + o.out
              && returned == (o.fate == Returned)
    {
      hide Shaped, HeldAt, PtrAt, p.Valid, p.Free, p.Room, Receive, Flush, Start;
      node := true;
      if state == 0 {
        FlushEntry(p, port);
        return true, node;
      }
      if state == OPEN {
        StartFrame(p, port, f);
      }
      band := b;
      node := ReceiveFrame(p, port, f, fast, tick);
      returned := false;
    }

    /** The first frame after ADDBA. */
    method StartFrame(p: Nodes, port: Port, f: Frame)
      requires Valid(p)
      modifies this, p.Repr(), port
      ensures Valid(p) && Releases(p)
      ensures var r := Start(old(Abs(p)), f); Abs(p) == r.w && port.log == old(port.log) + r.out
    {
      hide Shaped, HeldAt, PtrAt, p.Valid, p.Free, Flush, Low12;
      FlushEntry(p, port);
      last, refSn, state, amsdu := Low12(f.sn - 1), f.sn, RUNNING, f.amsdu;
    }

    /** A frame of a running window. */
    method ReceiveFrame(p: Nodes, port: Port, f: Frame, fast: bool, tick: int) returns (ghost node: bool)
      requires Valid(p) && 0 <= f.sn < 4096
      requires Receive(Abs(p), f, fast, true, tick).fate != Stray
      modifies this, p.Repr(), port
      ensures Valid(p) && Confined(p) && (old(p.Room()) > 2 ==> node)
      ensures var o := Receive(old(Abs(p)), f, fast, node, tick);
              Abs(p) == o.w && port.log == old(port.log) + o.out && o.fate != Returned
    {
      hide Shaped, HeldAt, PtrAt, p.Valid, p.Free, StateUpdate, Settle;
      ghost var w := Abs(p);
      UpdateState(p, port, f.sn, f.amsdu);
      node := SettleFrame(p, port, f, fast, tick);
    }

    // ------------------------------------------------------------ setters

    /** npu_set_bar_info, for the entry it finds. */
    method SetBar(p: Nodes, port: Port, ssn: int)
      requires Valid(p) && 0 <= ssn < 0x2000
      modifies this, p.Repr(), port
      ensures Valid(p) && Releases(p)
      ensures var r := Bar(old(Abs(p)), ssn); Abs(p) == r.w && port.log == old(port.log) + r.out
    {
      hide Shaped, HeldAt, PtrAt, SendAll, p.Valid, p.Free, p.Room, ReleaseTo, StateUpdate;
      UpdateState(p, port, ssn, 3);
      if Bit11(last - ssn) {
        var to := if ssn != 0 then ssn - 1 else 4095;
        ReleaseUpTo(p, port, to);
      }
    }

    /** npu_set_ba_entry, for the entry it finds; size is a 9-bit field. */
    method SetBa(p: Nodes, port: Port, size: int, ssn: int, b: int)
      requires Valid(p) && 0 <= size < 512
      modifies this, p.Repr(), port
      ensures Valid(p) && Releases(p)
      ensures var r := AddBa(old(Abs(p)), size, ssn, b); Abs(p) == r.w && port.log == old(port.log) + r.out
    {
      hide Shaped, HeldAt, PtrAt, SendAll, p.Valid, p.Free, p.Room, Flush;
      FlushEntry(p, port);
      SetFields(p, size, ssn, b);
    }

    /** The fields ADDBA or its teardown stores. */
    method SetFields(p: Nodes, size: int, ssn: int, b: int)
      requires Valid(p) && 0 <= size < 512
      modifies this
      ensures Valid(p) && shape == old(shape)
      ensures var w := old(Abs(p));
              Abs(p) == if size == 0 && ssn == 0
                        then w.(win := 8, last := 0, refSn := 0, amsdu := 0, flag := 0, state := 0, band := b)
                        else w.(win := size, last := ssn, state := OPEN, band := b)
    {
      hide Shaped, HeldAt, PtrAt;
      if size == 0 && ssn == 0 {
        win, last, refSn, amsdu, flag, state, band := 8, 0, 0, 0, 0, 0, b;
      } else {
        win, last, state, band := size, ssn, OPEN, b;
      }
    }
  }

  lemma Joined(a: seq<Event>, b: seq<Event>, c: seq<Event>)
    ensures (a + b) + c == a + (b + c)
  {
  }

  /** Sliding from w to w' let out go: what remains to settle is the same. */
  predicate SlidTo(w: Window, w': Window, f: Frame, fast: bool, tick: int, out: seq<Event>) {
    && 0 <= w.win < 512 && 0 <= w'.win < 512
    && forall node :: Settle(w, f, fast, node, tick) == After(out, Settle(w', f, fast, node, tick))
  }

  function After(out: seq<Event>, o: Outcome): Outcome {
    o.(out := out + o.out)
  }

  lemma NotSlid(w: Window, f: Frame, fast: bool, tick: int)
    requires 0 <= w.win < 512
    ensures SlidTo(w, w, f, fast, tick, [])
  {
  }

  lemma SlidMore(w: Window, w': Window, f: Frame, fast: bool, tick: int, out: seq<Event>)
    requires SlidTo(w, w', f, fast, tick, out) && PlaceOf(w', f.sn) == Past
    ensures Slide(w', f.sn).w.win == w'.win
    ensures SlidTo(w, Slide(w', f.sn).w, f, fast, tick, out + Slide(w', f.sn).out)
    ensures Settle(w', f, fast, true, tick).fate == Settle(Slide(w', f.sn).w, f, fast, true, tick).fate
  {
    hide Slide, Settle;
    SlideKeepsWin(w', f.sn);
    SettlePast(w', f, fast, true, tick);
    SettlePast(w', f, fast, false, tick);
  }

  lemma SlideKeepsWin(w: Window, sn: int)
    ensures Slide(w, sn).w.win == w.win
  {
  }

  lemma SettlePast(w: Window, f: Frame, fast: bool, node: bool, tick: int)
    requires 0 <= w.win < 512 && PlaceOf(w, f.sn) == Past
    ensures Slide(w, f.sn).w.win == w.win
    ensures Settle(w, f, fast, node, tick) == After(Slide(w, f.sn).out, Settle(Slide(w, f.sn).w, f, fast, node, tick))
  {
    SlideKeepsWin(w, f.sn);
  }

  lemma HoldSafe(w: Window, f: Frame, tick: int)
    ensures Hold(w, f, true, tick).fate != Stray ==> w.chain != Stale
  {
  }

  function PtrOf(s: Shape, chain: nat): nat {
    IndexOf(s.nodes, chain)
  }

  lemma PtrShows(s: Shape, chain: nat)
    ensures PtrAt(s, chain) == Null <==> chain == 0
    ensures PtrAt(s, chain).At? ==> PtrAt(s, chain).i == IndexOf(s.nodes, chain) < |s.nodes|
  {
  }

  /** The i-th step of a walk down the list. */
  predicate ListMatches(mem: Memory, s: Shape, i: nat) {
    i < |s.nodes| ==>
      && 0 < s.nodes[i] < |mem| && mem[s.nodes[i]].next == At0(s.nodes, i + 1)
      && mem[s.nodes[i]].f == HeldAt(mem, s)[i].first
  }

  lemma ListAt(mem: Memory, s: Shape, i: nat)
    requires Shaped(mem, s)
    ensures ListMatches(mem, s, i)
  {
    if i < |s.nodes| { LinkAt(mem, s.nodes, i); }
  }

  lemma HeadHoused(mem: Memory, s: Shape, i: nat)
    requires Shaped(mem, s) && i < |s.nodes|
    ensures s.nodes[i] in s.subs && s.nodes[i] in s.home && 0 < s.nodes[i] < |mem|
  {
  }

  lemma PrevHoused(mem: Memory, s: Shape, i: nat)
    requires Shaped(mem, s) && i <= |s.nodes|
    ensures i > 0 ==> s.nodes[i - 1] in s.home && 0 < s.nodes[i - 1] < |mem|
  {
  }

  lemma HomeInside(mem: Memory, s: Shape)
    requires Shaped(mem, s)
    ensures forall b :: b in s.home ==> 0 < b < |mem|
  {
    assert forall b :: b in s.home ==> Owned(mem, b);
  }

  lemma InsertHeldOf(mem: Memory, mem': Memory, s: Shape, i: nat, a: nat)
    requires Shaped(mem, s) && i <= |s.nodes| && a !in s.home && 0 < a < |mem'| == |mem|
    requires forall b :: b in s.home ==> 0 < b < |mem| && mem'[b].f == mem[b].f && mem'[b].tick == mem[b].tick
    ensures HeldAt(mem', Inserted(s, i, a))
            == HeldAt(mem, s)[..i] + [Held(mem'[a].f, [], mem'[a].tick)] + HeldAt(mem, s)[i..]
    ensures PtrAt(Inserted(s, i, a), a) == At(i)
  {
    InsertHeld(mem, mem', s, i, a);
    InsertPtr(s, i, a);
  }

  lemma FilledInside(mem: Memory, s: Shape, a: nat)
    requires Filled(mem, s, a)
    ensures 0 < a < |mem| && a !in s.home
  {
  }

  /** Linking a filled node behind prev makes it the i-th MPDU. */
  lemma LinkIs(mem: Memory, mem': Memory, s: Shape, i: nat, a: nat, prev: nat)
    requires Shaped(mem, s) && i <= |s.nodes| && Filled(mem, s, a)
    requires prev == (if i == 0 then 0 else s.nodes[i - 1]) && prev < |mem|
    requires var linked := mem[a := mem[a].(next := At0(s.nodes, i))];
             mem' == if prev != 0 then linked[prev := linked[prev].(next := a)] else linked
    ensures Shaped(mem', Inserted(s, i, a)) && KeptOutside(mem, mem', s.home.Keys + {a})
    ensures var t := Inserted(s, i, a);
            && t.home.Keys == s.home.Keys + {a} && |t.nodes| == |s.nodes| + 1
            && First(t.nodes) == (if prev != 0 then First(s.nodes) else a)
            && PtrAt(t, a) == At(i)
            && HeldAt(mem', t) == HeldAt(mem, s)[..i] + [Held(mem[a].f, [], mem[a].tick)] + HeldAt(mem, s)[i..]
  {
    hide Shaped, HeldAt, PtrAt;
    PrevHoused(mem, s, i);
    HomeInside(mem, s);
    InsertShaped(mem, mem', s, i, a);
    InsertHeldOf(mem, mem', s, i, a);
    SpliceIs(s.nodes, i, a);
  }

  lemma PtrNull(s: Shape)
    ensures PtrAt(s, 0) == Null
  {
  }

  /** What the head pointer shows of the hold list. */
  predicate HeadMatches(mem: Memory, head: nat, held: seq<Held>) {
    && (head == 0 <==> held == [])
    && (head != 0 ==> head < |mem| && mem[head].f == held[0].first && mem[head].tick == held[0].tick)
  }

  lemma HeadIs(mem: Memory, s: Shape)
    requires Shaped(mem, s)
    ensures HeadMatches(mem, First(s.nodes), HeldAt(mem, s))
  {
    if s.nodes != [] { ShapedTail(mem, s); }
  }

  lemma PopNone(w: Window)
    ensures Pop(w, 0) == Result(w, []) && w.held[0..] == w.held
  {
  }

  lemma PopMore(w: Window, n: nat)
    requires n < |w.held|
    ensures Pop(Pop(w, n).w, 1).w == Pop(w, n + 1).w
    ensures Pop(w, n + 1).out == Pop(w, n).out + Send(w.held[n], w.band)
    ensures Pop(w, n).w.held[0] == w.held[n] && Pop(w, n).w.band == w.band
    ensures w.held[n..][1..] == w.held[n + 1..]
  {
    assert w.held[n..][1..] == w.held[n + 1..];
    assert w.held[..n + 1] == w.held[..n] + [w.held[n]];
    SendAllSnoc(w.held[..n], w.held[n], w.band);
  }

  /** A flush with n MPDUs gone. */
  function Flushed(w: Window, n: nat): Result
    requires n <= |w.held|
  {
    var r := Pop(w, n);
    Result(r.w.(last := if n == 0 then w.last else w.held[n - 1].first.sn), r.out)
  }

  lemma FlushNone(w: Window)
    ensures Flushed(w, 0) == Result(w, [])
  {
  }

  lemma FlushMore(w: Window, n: nat)
    requires n < |w.held|
    ensures var f, g, s := Flushed(w, n), Flushed(w, n + 1), w.held[n].first.sn;
            && |f.w.held| == |w.held| - n && |g.w.held| == |w.held| - n - 1
            && Pop(f.w.(last := s), 1).w == g.w && f.w.held[0] == w.held[n]
            && g.out == f.out + Send(w.held[n], f.w.band)
  {
    PopMore(w, n);
  }

  lemma FlushAll(w: Window)
    ensures var r := Flushed(w, |w.held|); Flush(w) == Result(r.w.(chain := Null), r.out)
  {
    assert w.held[..|w.held|] == w.held;
  }

  lemma {:induction false} SendAllSnoc(hs: seq<Held>, h: Held, band: int)
    ensures SendAll(hs + [h], band) == SendAll(hs, band) + Send(h, band)
  {
    if hs == [] {
      assert hs + [h] == [h];
      assert SendAll([h], band) == Send(h, band) + SendAll([], band);
    } else {
      assert (hs + [h])[1..] == hs[1..] + [h];
      SendAllSnoc(hs[1..], h, band);
    }
  }

  lemma OneLess(mem: Memory, mem': Memory, s: Shape)
    requires Shaped(mem, s) && s.nodes != [] && KeptOutside(mem, mem', {s.nodes[0]})
    ensures s.nodes[0] in s.subs
    ensures Shaped(mem', WithoutHead(s)) && HeldAt(mem', WithoutHead(s)) == HeldAt(mem, WithoutHead(s))
  {
    hide Shaped, HeldAt;
    ShapedTail(mem, s);
    RowIs(mem, s, s.nodes[0]);
    HomeTail(s);
    SameShape(mem, mem', WithoutHead(s), {s.nodes[0]});
  }

  /** ba_release_mpdu: send an MPDU and the MSDUs behind it, and free their nodes. */
  method ReleaseMpdu(p: Nodes, port: Port, m: nat, band: int, ghost s: Shape)
    requires p.Valid() && Shaped(p.node, s) && m in s.subs && s.home.Keys !! p.Free()
    modifies p.Repr(), port
    ensures p.Valid()
    ensures KeptOutside(old(p.node), p.node, {m})
    ensures p.Free() == old(p.Free()) + Row(s, m) && p.Room() >= old(p.Room())
    ensures port.log == old(port.log) + Send(RowAt(old(p.node), s, m), band)
  {
    hide Shaped, p.Valid, p.Free, p.Room;
    ghost var mem, free, sub := p.node, p.Free(), s.subs[m];
    RowIs(mem, s, m);
    var first := p.node[m].f;
    port.log := port.log + [Sent(first, band, first.bss)];
    ghost var k := 0;
    while p.node[m].head != 0
      invariant p.Valid() && 0 <= k <= |sub|
      invariant KeptOutside(mem, p.node, {m})
      invariant p.node[m].f == first && p.node[m].idx == mem[m].idx && p.node[m].pool == mem[m].pool
      invariant p.node[m].head == First(sub[k..])
      invariant p.Free() == free + Part(s, m, k) && p.Room() >= old(p.Room())
      invariant port.log == old(port.log) + SendFrames([first] + FramesAt(mem, sub)[..k], band, first.bss)
      decreases |sub| - k
    {
      NoMsdu(mem, s, m, k);
      MsduIs(mem, s, m, k);
      OnlyMsdu(mem, s, m, k);
      SendOneMore(mem, sub, k, first, band);
      ReleaseMsdu(p, port, m, band, first.bss);
      k := k + 1;
    }
    NoMsdu(mem, s, m, k);
    p.Release(p.node[m].idx, p.node[m].pool);
    assert FramesAt(mem, sub)[..k] == FramesAt(mem, sub);
  }

  /** The first k MSDU nodes behind m. */
  ghost function Part(s: Shape, m: nat, k: nat): set<nat> {
    set a | a in Row(s, m) && 1 <= s.home[a].1 <= k
  }

  /** Unlink the first MSDU of MPDU m, send it and free its node. */
  method ReleaseMsdu(p: Nodes, port: Port, m: nat, band: int, bss: int)
    requires p.Valid() && 0 < m < |p.node|
    requires var d := p.node[m].head; Owned(p.node, d) && d != m && d !in p.Free()
    modifies p.Repr(), port
    ensures p.Valid()
    ensures KeptOutside(old(p.node), p.node, {m})
    ensures var d := old(p.node[m].head);
            && p.node[m].head == old(p.node[d].next)
            && p.Free() == old(p.Free()) + {d} && p.Room() >= old(p.Room())
            && port.log == old(port.log) + [Sent(old(p.node[d].f), band, bss)]
    ensures var n := old(p.node[m]); p.node[m].f == n.f && p.node[m].idx == n.idx && p.node[m].pool == n.pool
  {
    var d := p.node[m].head;
    var n, rest := p.node[m], p.node[d].next;
    p.node := p.node[m := n.(cnt := if n.cnt > 0 then n.cnt - 1 else 0xFFFF,
                             head := rest, tail := if rest == 0 then 0 else n.tail)];
    port.log := port.log + [Sent(p.node[d].f, band, bss)];
    p.Release(p.node[d].idx, p.node[d].pool);
  }

  lemma SendOneMore(mem: Memory, sub: seq<nat>, k: nat, first: Frame, band: int)
    requires k < |sub|
    ensures SendFrames([first] + FramesAt(mem, sub)[..k + 1], band, first.bss)
            == SendFrames([first] + FramesAt(mem, sub)[..k], band, first.bss)
               + [Sent(FrameAt(mem, sub[k]), band, first.bss)]
  {
    var fs := FramesAt(mem, sub);
    assert [first] + fs[..k + 1] == ([first] + fs[..k]) + [fs[k]];
    SendFramesSnoc([first] + fs[..k], fs[k], band, first.bss);
  }

  lemma {:induction false} SendFramesSnoc(fs: seq<Frame>, f: Frame, band: int, bss: int)
    ensures SendFrames(fs + [f], band, bss) == SendFrames(fs, band, bss) + [Sent(f, band, bss)]
  {
    if fs == [] {
      assert fs + [f] == [f];
    } else {
      assert (fs + [f])[1..] == fs[1..] + [f];
      SendFramesSnoc(fs[1..], f, band, bss);
    }
  }

  /** Entries share the pools: a step of e leaves another entry's window as it
      was, and their nodes apart. */
  twostate lemma BesideKept(e: Entry, g: Entry, p: Nodes)
    requires old(g.Valid(p)) && old(e.shape.home.Keys) !! old(g.shape.home.Keys)
    requires e.Valid(p) && e.Confined(p) && unchanged(g)
    ensures g.Valid(p) && g.Abs(p) == old(g.Abs(p))
    ensures e.shape.home.Keys !! g.shape.home.Keys
  {
    hide Shaped, HeldAt;
    assert g.shape.home.Keys !! old(e.Reach(p));
    assert e.shape.home.Keys <= e.Reach(p) && p.Free() <= e.Reach(p);
    SameShape(old(p.node), p.node, g.shape, old(e.Reach(p)));
  }
}
