/** All block-ack entries over one node pool: ba_timeout_scan and ba_flush_all,
    and where every node is after any run of operations. */
module BaTable {
  import opened BaWindow
  import opened NodePool
  import opened BaLinks
  import opened BaEntry

  // ---------------------------------------------------------------- where the nodes are

  /** The nodes each entry holds, and the free ones. */
  datatype Homes = Homes(of: seq<set<nat>>, free: set<nat>)

  /** Every node address is free or with one entry, and with no other. */
  ghost predicate Partitioned(h: Homes) {
    && (forall i, j :: 0 <= i < j < |h.of| ==> h.of[i] !! h.of[j])
    && (forall i :: 0 <= i < |h.of| ==> h.of[i] !! h.free)
    && forall a: nat :: 1 <= a <= PRI + SEC <==> Somewhere(h, a)
  }

  predicate Somewhere(h: Homes, a: nat) {
    a in h.free || exists i :: 0 <= i < |h.of| && a in h.of[i]
  }

  /** What a confined operation on entry i does: nodes move between it and the
      pool only. */
  predicate MovesOne(h: Homes, h': Homes, i: nat) {
    && i < |h.of| == |h'.of| && h'.of[i] + h'.free == h.of[i] + h.free && h'.of[i] !! h'.free
    && forall j :: 0 <= j < |h.of| && j != i ==> h'.of[j] == h.of[j]
  }

  lemma MoveKeeps(h: Homes, h': Homes, i: nat)
    requires Partitioned(h) && MovesOne(h, h', i)
    ensures Partitioned(h')
  {
    hide Somewhere;
    var both := h.of[i] + h.free;
    assert forall j :: 0 <= j < |h.of| && j != i ==> h.of[j] !! both;
    assert h'.of[i] <= both && h'.free <= both;
    forall a: nat ensures Somewhere(h', a) <==> Somewhere(h, a) {
      StaysSomewhere(h, h', i, a);
    }
  }

  lemma StaysSomewhere(h: Homes, h': Homes, i: nat, a: nat)
    requires MovesOne(h, h', i)
    ensures Somewhere(h', a) <==> Somewhere(h, a)
  {
    assert a in h.of[i] + h.free <==> a in h'.of[i] + h'.free;
    if a !in h.of[i] + h.free {
      assert forall j :: 0 <= j < |h.of| ==> (a in h.of[j] <==> a in h'.of[j]);
    }
  }

  predicate Moves(h: Homes, h': Homes) {
    exists i :: 0 <= i < |h.of| && MovesOne(h, h', i)
  }

  predicate IsRun(run: seq<Homes>) {
    run != [] && forall k :: 0 < k < |run| ==> Moves(run[k - 1], run[k])
  }

  /** Over any run of operations on any of the entries the nodes they hold and
      the free ones partition all the addresses: none is lost, none held twice. */
  lemma {:induction false} RunPartitioned(run: seq<Homes>, k: nat)
    requires IsRun(run) && Partitioned(run[0]) && k < |run|
    ensures Partitioned(run[k])
  {
    hide Partitioned, MovesOne;
    if k > 0 {
      RunPartitioned(run, k - 1);
      assert Moves(run[k - 1], run[k]);
      var i: nat :| i < |run[k - 1].of| && MovesOne(run[k - 1], run[k], i);
      MoveKeeps(run[k - 1], run[k], i);
    }
  }

  // ---------------------------------------------------------------- the entries

  predicate Distinct(es: seq<Entry>) {
    forall i, j :: 0 <= i < j < |es| ==> es[i] != es[j]
  }

  ghost predicate Ready(es: seq<Entry>, p: Nodes)
    reads es, p.Repr()
  {
    Distinct(es) && p.Valid() && forall i :: 0 <= i < |es| ==> es[i].Valid(p)
  }

  ghost function HomesOf(es: seq<Entry>, p: Nodes): (h: Homes)
    reads es, p.pri, p.sec
    ensures |h.of| == |es| && h.free == p.Free()
    ensures forall i :: 0 <= i < |es| ==> h.of[i] == es[i].shape.home.Keys
  {
    Homes(seq(|es|, i requires 0 <= i < |es| reads es => es[i].shape.home.Keys), p.Free())
  }

  ghost function Windows(es: seq<Entry>, p: Nodes): (ws: seq<Window>)
    reads es, p
    ensures |ws| == |es| && forall i :: 0 <= i < |es| ==> ws[i] == es[i].Abs(p)
  {
    seq(|es|, i requires 0 <= i < |es| reads es, p => es[i].Abs(p))
  }

  /** A pool just set up and entries that hold nothing. */
  lemma StartPartitioned(es: seq<Entry>, p: Nodes)
    requires forall a: nat :: a in p.Free() <==> 1 <= a <= PRI + SEC
    requires forall i :: 0 <= i < |es| ==> es[i].shape.home == map[]
    ensures Partitioned(HomesOf(es, p))
  {
    var h := HomesOf(es, p);
    assert forall a: nat :: a in h.free ==> Somewhere(h, a);
  }

  /** The operations of an entry. */
  datatype Op =
    | FrameOp(f: Frame, b: int, fast: bool, tick: int)
    | TimeoutOp(now: int, limit: int)
    | FlushOp
    | BarOp(ssn: int)
    | BaOp(size: int, ssn: int, b: int)

  /** The fields of its message fit, and no stale head pointer is followed. */
  predicate OpOk(w: Window, op: Op) {
    match op
    case FrameOp(f, b, fast, tick) =>
      0 <= w.win < 512 && 0 <= f.sn < 4096 && Classify(w, f, b, fast, true, tick).fate != Stray
    case BarOp(ssn) => 0 <= ssn < 0x2000
    case BaOp(size, _, _) => 0 <= size < 512
    case _ => true
  }

  function Applied(w: Window, op: Op, node: bool): Result
    requires OpOk(w, op)
  {
    match op
    case FrameOp(f, b, fast, tick) => var o := Classify(w, f, b, fast, node, tick); Result(o.w, o.out)
    case TimeoutOp(now, limit) => Timeout(w, now, limit)
    case FlushOp => Flush(w)
    case BarOp(ssn) => Bar(w, ssn)
    case BaOp(size, ssn, b) => AddBa(w, size, ssn, b)
  }

  /** Whatever the operation, it is one move of nodes, does to its own window what
      it should, and leaves every other entry's window as it was. */
  method Apply(es: seq<Entry>, p: Nodes, port: Port, i: nat, op: Op) returns (ghost node: bool)
    requires Ready(es, p) && Partitioned(HomesOf(es, p)) && i < |es| && OpOk(es[i].Abs(p), op)
    modifies es[i], p.Repr(), port
    ensures Ready(es, p) && Partitioned(HomesOf(es, p)) && MovesOne(old(HomesOf(es, p)), HomesOf(es, p), i)
    ensures var r := Applied(old(es[i].Abs(p)), op, node);
            es[i].Abs(p) == r.w && port.log == old(port.log) + r.out
    ensures old(p.Room()) > 2 ==> node
    ensures Windows(es, p) == old(Windows(es, p))[i := es[i].Abs(p)]
  {
    hide Shaped, HeldAt, PtrAt, p.Valid, p.Free, Partitioned, Classify, Timeout, Flush, Bar, AddBa;
    ghost var h, own := HomesOf(es, p), es[i].Reach(p);
    node := ApplyOne(es[i], p, port, op);
    forall k | 0 <= k < |es| && k != i ensures es[k].Valid(p) && es[k].Abs(p) == old(es[k].Abs(p)) {
      Apart(h, i, k);
      SameShape(old(p.node), p.node, es[k].shape, own);
      StaysApart(h.of[k], own, p.Free());
    }
    MoveKeeps(h, HomesOf(es, p), i);
  }

  method ApplyOne(e: Entry, p: Nodes, port: Port, op: Op) returns (ghost node: bool)
    requires e.Valid(p) && OpOk(e.Abs(p), op)
    modifies e, p.Repr(), port
    ensures e.Valid(p) && e.Confined(p) && (old(p.Room()) > 2 ==> node)
    ensures var r := Applied(old(e.Abs(p)), op, node); e.Abs(p) == r.w && port.log == old(port.log) + r.out
  {
    hide Shaped, HeldAt, PtrAt, p.Valid, p.Free, p.Room, Classify, Timeout, Flush, Bar, AddBa;
    node := true;
    match op {
      case FrameOp(f, b, fast, tick) => var returned; returned, node := e.ClassifyFrame(p, port, f, b, fast, tick);
      case TimeoutOp(now, limit) => e.TimeoutEntry(p, port, now, limit);
      case FlushOp => e.FlushEntry(p, port);
      case BarOp(ssn) => e.SetBar(p, port, ssn);
      case BaOp(size, ssn, b) => e.SetBa(p, port, size, ssn, b);
    }
  }

  lemma StaysApart(home: set<nat>, own: set<nat>, free: set<nat>)
    requires home !! own && free <= own
    ensures home !! free
  {
  }

  lemma Apart(h: Homes, i: nat, k: nat)
    requires Partitioned(h) && i < |h.of| && k < |h.of| && i != k
    ensures h.of[i] !! h.of[k] && h.of[k] !! h.free
  {
  }

  // ---------------------------------------------------------------- the scans

  /** ba_band_entry: the band's own table, or with one table for both the
      entries marked with it. */
  predicate Owns(w: Window, band: int, dbdc: bool) {
    w.state == RUNNING && (dbdc ==> w.band == band)
  }

  /** What a scan leaves of a window, and sends. */
  function Scanned(w: Window, band: int, dbdc: bool, now: int, limit: int): Result {
    if Owns(w, band, dbdc) then Timeout(w, now, limit) else Result(w, [])
  }

  function Emptied(w: Window, band: int, dbdc: bool): Result {
    if Owns(w, band, dbdc) then Flush(w) else Result(w, [])
  }

  /** The events of rs, in order. */
  function AllOut(rs: seq<Result>): seq<Event> {
    if rs == [] then [] else AllOut(rs[..|rs| - 1]) + rs[|rs| - 1].out
  }

  /** The windows with the first i entries done. */
  function DoneTo(was: seq<Window>, rs: seq<Result>, i: nat): (ws: seq<Window>)
    requires i <= |rs| == |was|
    ensures |ws| == |was|
  {
    seq(|was|, k requires 0 <= k < |was| => if k < i then rs[k].w else was[k])
  }

  lemma DoneNext(was: seq<Window>, rs: seq<Result>, i: nat)
    requires i < |rs| == |was|
    ensures DoneTo(was, rs, i + 1) == DoneTo(was, rs, i)[i := rs[i].w] && DoneTo(was, rs, i)[i] == was[i]
    ensures AllOut(rs[..i + 1]) == AllOut(rs[..i]) + rs[i].out
  {
    assert rs[..i + 1][..i] == rs[..i];
  }

  lemma DoneNone(was: seq<Window>, rs: seq<Result>)
    requires |rs| == |was|
    ensures DoneTo(was, rs, 0) == was && AllOut(rs[..0]) == []
  {
  }

  lemma DoneAll(was: seq<Window>, rs: seq<Result>)
    requires |rs| == |was|
    ensures rs[..|rs|] == rs && forall k :: 0 <= k < |was| ==> DoneTo(was, rs, |rs|)[k] == rs[k].w
  {
  }

  function ScannedAll(was: seq<Window>, band: int, dbdc: bool, now: int, limit: int): (rs: seq<Result>)
    ensures |rs| == |was|
  {
    seq(|was|, k requires 0 <= k < |was| => Scanned(was[k], band, dbdc, now, limit))
  }

  function EmptiedAll(was: seq<Window>, band: int, dbdc: bool): (rs: seq<Result>)
    ensures |rs| == |was|
  {
    seq(|was|, k requires 0 <= k < |was| => Emptied(was[k], band, dbdc))
  }

  lemma PassedOver(w: Window, band: int, dbdc: bool, now: int, limit: int)
    ensures !Owns(w, band, dbdc) || w.held == [] ==> Scanned(w, band, dbdc, now, limit) == Result(w, [])
    ensures Owns(w, band, dbdc) ==> Scanned(w, band, dbdc, now, limit) == Timeout(w, now, limit)
  {
  }

  /** The count is the length of the hold list. */
  lemma CountIs(e: Entry, p: Nodes)
    requires e.Valid(p)
    ensures e.count == |e.Abs(p).held|
  {
  }

  /** One entry of ba_timeout_scan; one that holds nothing is passed over. */
  method ScanOne(es: seq<Entry>, p: Nodes, port: Port, i: nat, band: int, dbdc: bool, now: int, limit: int)
    requires Ready(es, p) && Partitioned(HomesOf(es, p)) && i < |es|
    modifies es[i], p.Repr(), port
    ensures Ready(es, p) && Partitioned(HomesOf(es, p))
    ensures var ws := old(Windows(es, p));
            var r := Scanned(ws[i], band, dbdc, now, limit);
            Windows(es, p) == ws[i := r.w] && port.log == old(port.log) + r.out
  {
    hide Partitioned, Timeout, Scanned, Shaped, HeldAt, PtrAt, p.Valid, p.Free;
    var e := es[i];
    CountIs(e, p);
    ghost var ws := Windows(es, p);
    PassedOver(ws[i], band, dbdc, now, limit);
    if (!dbdc || e.band == band) && e.state == RUNNING && e.count != 0 {
      ghost var node := Apply(es, p, port, i, TimeoutOp(now, limit));
    } else {
      assert ws[i := ws[i]] == ws;
    }
  }

  /** ba_timeout_scan. */
  method TimeoutScan(es: seq<Entry>, p: Nodes, port: Port, band: int, dbdc: bool, now: int, limit: int)
    requires Ready(es, p) && Partitioned(HomesOf(es, p))
    modifies es, p.Repr(), port
    ensures Ready(es, p) && Partitioned(HomesOf(es, p))
    ensures var rs := ScannedAll(old(Windows(es, p)), band, dbdc, now, limit);
            port.log == old(port.log) + AllOut(rs) && forall k :: 0 <= k < |es| ==> es[k].Abs(p) == rs[k].w
  {
    hide Partitioned, Ready, DoneTo, Scanned, AllOut;
    ghost var was := Windows(es, p);
    ghost var rs := ScannedAll(was, band, dbdc, now, limit);
    DoneNone(was, rs);
    for i := 0 to |es|
      invariant Ready(es, p) && Partitioned(HomesOf(es, p)) && Windows(es, p) == DoneTo(was, rs, i)
      invariant port.log == old(port.log) + AllOut(rs[..i])
    {
      DoneNext(was, rs, i);
      ScanOne(es, p, port, i, band, dbdc, now, limit);
    }
    DoneAll(was, rs);
  }

  /** One entry of ba_flush_all. */
  method EmptyOne(es: seq<Entry>, p: Nodes, port: Port, i: nat, band: int, dbdc: bool)
    requires Ready(es, p) && Partitioned(HomesOf(es, p)) && i < |es|
    modifies es[i], p.Repr(), port
    ensures Ready(es, p) && Partitioned(HomesOf(es, p))
    ensures var ws := old(Windows(es, p));
            var r := Emptied(ws[i], band, dbdc);
            Windows(es, p) == ws[i := r.w] && port.log == old(port.log) + r.out
  {
    hide Partitioned, Flush, Shaped, HeldAt, PtrAt, p.Valid, p.Free;
    ghost var ws := Windows(es, p);
    if (!dbdc || es[i].band == band) && es[i].state == RUNNING {
      ghost var node := Apply(es, p, port, i, FlushOp);
    } else {
      assert ws[i := ws[i]] == ws;
    }
  }

  /** ba_flush_all. */
  method FlushAll(es: seq<Entry>, p: Nodes, port: Port, band: int, dbdc: bool)
    requires Ready(es, p) && Partitioned(HomesOf(es, p))
    modifies es, p.Repr(), port
    ensures Ready(es, p) && Partitioned(HomesOf(es, p))
    ensures var rs := EmptiedAll(old(Windows(es, p)), band, dbdc);
            port.log == old(port.log) + AllOut(rs) && forall k :: 0 <= k < |es| ==> es[k].Abs(p) == rs[k].w
  {
    hide Partitioned, Ready, DoneTo, Emptied, AllOut;
    ghost var was := Windows(es, p);
    ghost var rs := EmptiedAll(was, band, dbdc);
    DoneNone(was, rs);
    for i := 0 to |es|
      invariant Ready(es, p) && Partitioned(HomesOf(es, p)) && Windows(es, p) == DoneTo(was, rs, i)
      invariant port.log == old(port.log) + AllOut(rs[..i])
    {
      DoneNext(was, rs, i);
      EmptyOne(es, p, port, i, band, dbdc);
    }
    DoneAll(was, rs);
  }

}
