/** One block-ack window of the kite receive path, on values: what each
    operation of npu_wifi_rx.c, npu_wifi_ba.c and the window setters of
    npu_wifi_init.c does to the entry and which frames leave it. BaEntry keeps
    the same window in linked nodes and is proved against these functions. */
module BaWindow {
  import opened Seq12

  /** A parsed frame. sn is the 12-bit number the code compares; usn is the
      sender's running number, which no operation reads. amsdu: 0 a whole
      MSDU, 3 the first, 2 a middle and 1 the last MSDU of an A-MSDU. */
  datatype Frame = Frame(usn: int, sn: int, buf: int, len: int, hdr: int, bss: int, amsdu: int) {
    predicate Ok() {
      sn == Low12(usn) && 0 <= amsdu <= 3
    }

    predicate Final() {
      amsdu <= 1
    }
  }

  /** A held MPDU with the further MSDUs chained behind it. */
  datatype Held = Held(first: Frame, subs: seq<Frame>, tick: int) {
    function Frames(): (fs: seq<Frame>)
      ensures |fs| == 1 + |subs| && fs[0] == first
    {
      [first] + subs
    }

    function Last(): Frame {
      if subs == [] then first else subs[|subs| - 1]
    }
  }

  /** A frame leaving the window: handed to pkt_enqueue_bridge, or its buffer
      given back. */
  datatype Event = Sent(f: Frame, band: int, bss: int) | Freed(f: Frame)

  /** entry[3], the A-MSDU head pointer: null, the i-th held MPDU, or a node that
      has left the list. */
  datatype Ptr = Null | At(i: nat) | Stale {
    /** The pointer once n MPDUs have left the head of the list. */
    function Behind(n: nat): Ptr {
      match this
      case At(i) => if i < n then Stale else At(i - n)
      case _ => this
    }
  }

  /** The 28-byte entry. */
  datatype Window = Window(
    win: int, last: int, refSn: int, amsdu: int, flag: int, state: int, band: int,
    held: seq<Held>, chain: Ptr)

  datatype Result = Result(w: Window, out: seq<Event>)

  /** What became of the frame's own buffer: handed back to the caller, taken by
      the window, kept by a failed node allocation, or linked through a head
      pointer that no longer names a held MPDU. */
  datatype Fate = Returned | Taken | Kept | Stray

  datatype Outcome = Outcome(w: Window, out: seq<Event>, fate: Fate)

  const OPEN := 3      // ADDBA seen
  const RUNNING := 4

  // ---------------------------------------------------------------- release

  /** An MPDU leaves with its MSDUs behind it, all on the MPDU's BSS. */
  function Send(h: Held, band: int): seq<Event> {
    SendFrames(h.Frames(), band, h.first.bss)
  }

  function SendFrames(fs: seq<Frame>, band: int, bss: int): seq<Event> {
    if fs == [] then [] else [Sent(fs[0], band, bss)] + SendFrames(fs[1..], band, bss)
  }

  function SendAll(hs: seq<Held>, band: int): seq<Event> {
    if hs == [] then [] else Send(hs[0], band) + SendAll(hs[1..], band)
  }

  /** How many MPDUs ba_indicate_le_seq takes off the head. */
  function LeCount(hs: seq<Held>, s: int): (n: nat)
    ensures n <= |hs|
  {
    if hs == [] || (hs[0].first.sn != s && !Bit11(hs[0].first.sn - s)) then 0
    else 1 + LeCount(hs[1..], s)
  }

  /** How many MPDUs ba_seq_scan takes off the head. */
  function ScanCount(hs: seq<Held>, s: int): (n: nat)
    ensures n <= |hs|
  {
    if hs == [] || hs[0].first.sn != Low12(s + 1) then 0
    else 1 + ScanCount(hs[1..], hs[0].first.sn)
  }

  function Pop(w: Window, n: nat): Result
    requires n <= |w.held|
  {
    Result(w.(held := w.held[n..], chain := w.chain.Behind(n)), SendAll(w.held[..n], w.band))
  }

  /** Set the last SN to s, then release what follows it without a gap. */
  function Advance(w: Window, s: int): Result {
    var n := ScanCount(w.held, s);
    var r := Pop(w, n);
    Result(r.w.(last := if n == 0 then s else w.held[n - 1].first.sn), r.out)
  }

  /** Release up to and including s, then advance from s. */
  function ReleaseTo(w: Window, s: int): (r: Result)
    ensures LeCount(w.held, s) > 0 ==> |r.w.held| < |w.held|
    ensures |r.w.held| <= |w.held|
  {
    var le := Pop(w, LeCount(w.held, s));
    var ad := Advance(le.w, s);
    Result(ad.w, le.out + ad.out)
  }

  function Flush(w: Window): Result {
    var last := if w.held == [] then w.last else w.held[|w.held| - 1].first.sn;
    Result(w.(held := [], chain := Null, last := last), SendAll(w.held, w.band))
  }

  /** Held longer than the limit on the 32-bit tick counter. */
  predicate Expired(h: Held, now: int, limit: int) {
    (now - h.tick) % 0x1_0000_0000 > limit
  }

  /** ba_timeout_entry: release from the head while it is older than limit. */
  function Timeout(w: Window, now: int, limit: int): (r: Result)
    decreases |w.held|
  {
    if w.held == [] || !Expired(w.held[0], now, limit) then Result(w, [])
    else
      var a := ReleaseTo(w, w.held[0].first.sn);
      var b := Timeout(a.w, now, limit);
      Result(b.w, a.out + b.out)
  }

  // ---------------------------------------------------------------- A-MSDU restart

  predicate InAmsdu(w: Window) {
    w.amsdu == 2 || w.amsdu == 3
  }

  /** ba_state_update has something to do. */
  predicate Restarts(w: Window, sn: int, kind: int) {
    InAmsdu(w) && (w.refSn == sn ==> kind == 3)
  }

  function StateUpdate(w: Window, sn: int, kind: int): Result {
    if !Restarts(w, sn, kind) then Result(w, [])
    else if w.flag != 0 then Result(w.(chain := Null), [])
    else Advance(w.(chain := Null), w.refSn)
  }

  // ---------------------------------------------------------------- classifier

  datatype Place = InOrder | Duplicate | Behind | Inside | Past

  function PlaceOf(w: Window, sn: int): Place {
    if Low12(w.last + 1) == sn then InOrder
    else if w.last == sn then Duplicate
    else if Bit11(sn - w.last) then Behind
    else if Bit11(sn - Low12(w.last + w.win + 1)) then Inside
    else Past
  }

  /** The tests that take a frame behind the window for a restarted peer. */
  predicate PeerRestarted(w: Window, sn: int) {
    || w.win < w.last - sn
    || Bit11((w.win / 2 + sn + 1) % 4095 - w.last)
    || (w.win < sn - w.last && sn + w.win < 4096)
  }

  /** The SN that makes sn the last slot of the window, as the code computes it. */
  function SlideTarget(w: Window, sn: int): int {
    var fs := if sn - w.win + 1 < 0 then sn - w.win + 0x1001 else sn - w.win + 1;
    Low12(fs - 1)
  }

  function Slide(w: Window, sn: int): (r: Result)
    ensures |r.w.held| <= |w.held|
  {
    var r := ReleaseTo(w, SlideTarget(w, sn));
    Result(r.w.(flag := 4), r.out)
  }

  /** Where the hold path links a new MPDU. */
  function InsertAt(hs: seq<Held>, sn: int): (i: nat)
    ensures i <= |hs|
    ensures forall j :: 0 <= j < i ==> Bit11(hs[j].first.sn - sn)
    ensures i < |hs| ==> !Bit11(hs[i].first.sn - sn)
  {
    if hs == [] || !Bit11(hs[0].first.sn - sn) then 0 else 1 + InsertAt(hs[1..], sn)
  }

  function Noted(w: Window, f: Frame, flag: int): Window {
    w.(amsdu := f.amsdu, refSn := f.sn, flag := flag, chain := if f.Final() then Null else w.chain)
  }

  function Append(hs: seq<Held>, i: nat, f: Frame): seq<Held>
    requires i < |hs|
  {
    hs[i := hs[i].(subs := hs[i].subs + [f])]
  }

  function Hold(w: Window, f: Frame, node: bool, tick: int): Outcome {
    if !node then Outcome(w, [], Kept)
    else
      match w.chain
      case Null =>
        var i := InsertAt(w.held, f.sn);
        if i < |w.held| && w.held[i].first.sn == f.sn then
          Outcome(Noted(w, f, 3), [Freed(f)], Taken)
        else
          var hs := w.held[..i] + [Held(f, [], tick)] + w.held[i..];
          Outcome(Noted(w.(held := hs, chain := At(i)), f, 3), [], Taken)
      case At(i) =>
        if i < |w.held| then Outcome(Noted(w.(held := Append(w.held, i, f)), f, 3), [], Taken)
        else Outcome(Noted(w, f, 3), [], Stray)
      case Stale => Outcome(Noted(w, f, 3), [], Stray)
  }

  function TakeInOrder(w: Window, f: Frame): Outcome {
    var s := Sent(f, w.band, f.bss);
    if f.Final() then
      var r := Advance(w, f.sn);
      Outcome(Noted(r.w, f, 0), [s] + r.out, Taken)
    else Outcome(Noted(w, f, 0), [s], Taken)
  }

  /** fast: bit 0 of the fast flag bridges what would be dropped. */
  function DropOrBridge(w: Window, f: Frame, fast: bool): seq<Event> {
    if fast then [Sent(f, w.band, f.bss)] else [Freed(f)]
  }

  /** The window loop and the branch it ends in. */
  function Settle(w: Window, f: Frame, fast: bool, node: bool, tick: int): (o: Outcome)
    requires 0 <= w.win < 512
    ensures o.w.win == w.win && o.w.state == w.state && o.fate != Returned
    decreases |w.held|, if PlaceOf(w, f.sn) == Past then 1 else 0
  {
    match PlaceOf(w, f.sn)
    case InOrder => TakeInOrder(w, f)
    case Duplicate => Outcome(Noted(w, f, 1), DropOrBridge(w, f, fast), Taken)
    case Behind =>
      if PeerRestarted(w, f.sn) then
        Outcome(Noted(w, f, 2).(last := f.sn), [Sent(f, w.band, f.bss)], Taken)
      else Outcome(Noted(w, f, 2), DropOrBridge(w, f, fast), Taken)
    case Inside => Hold(w, f, node, tick)
    case Past =>
      var r := Slide(w, f.sn);
      SlideMakesProgress(w, f.sn);
      var o := Settle(r.w, f, fast, node, tick);
      o.(out := r.out + o.out)
  }

  /** The first frame after ADDBA starts the window just before itself. */
  function Start(w: Window, f: Frame): Result {
    var r := Flush(w);
    Result(r.w.(last := Low12(f.sn - 1), refSn := f.sn, state := RUNNING, amsdu := f.amsdu), r.out)
  }

  /** A frame of a running window. */
  function Receive(w: Window, f: Frame, fast: bool, node: bool, tick: int): Outcome
    requires 0 <= w.win < 512
  {
    var u := StateUpdate(w, f.sn, f.amsdu);
    var o := Settle(u.w, f, fast, node, tick);
    o.(out := u.out + o.out)
  }

  /** kite_classify_pn for a frame of a known station. */
  function Classify(w: Window, f: Frame, band: int, fast: bool, node: bool, tick: int): Outcome
    requires 0 <= w.win < 512
  {
    if w.state == 0 then
      var r := Flush(w);
      Outcome(r.w, r.out, Returned)
    else
      var s := if w.state == OPEN then Start(w, f) else Result(w, []);
      var o := Receive(s.w.(band := band), f, fast, node, tick);
      o.(out := s.out + o.out)
  }

  // ---------------------------------------------------------------- setters

  function BarTarget(ssn: int): int {
    if ssn != 0 then ssn - 1 else 4095
  }

  /** npu_set_bar_info on the entry; ssn is the 13-bit field of the message. */
  function Bar(w: Window, ssn: int): Result {
    var u := StateUpdate(w, ssn, 3);
    if !Bit11(u.w.last - ssn) then u
    else
      var r := ReleaseTo(u.w, BarTarget(ssn));
      Result(r.w, u.out + r.out)
  }

  /** npu_set_ba_entry: both fields zero ends the session. */
  function AddBa(w: Window, win: int, ssn: int, band: int): Result {
    var r := Flush(w);
    var e := if win == 0 && ssn == 0
             then r.w.(win := 8, last := 0, refSn := 0, amsdu := 0, flag := 0, state := 0, band := band)
             else r.w.(win := win, last := ssn, state := OPEN, band := band);
    Result(e, r.out)
  }

  // ---------------------------------------------------------------- termination

  lemma {:induction false} ScanEnds(hs: seq<Held>, s: int)
    requires 0 <= s < 4096
    ensures ScanCount(hs, s) > 0 ==> hs[ScanCount(hs, s) - 1].first.sn == Low12(s + ScanCount(hs, s))
    decreases |hs|
  {
    if hs != [] && hs[0].first.sn == Low12(s + 1) {
      var t := hs[0].first.sn;
      ScanEnds(hs[1..], t);
      Low12Add(s + 1, ScanCount(hs[1..], t));
    }
  }

  lemma SlideTargetIs(w: Window, sn: int)
    ensures SlideTarget(w, sn) == Low12(sn - w.win)
  {
  }

  /** A slide puts sn at distance win, so a second one in the same call needs
      the scan to have released more than half the number space. */
  lemma SlideMakesProgress(w: Window, sn: int)
    requires 0 <= w.win < 512
    requires PlaceOf(w, sn) == Past
    ensures var r := Slide(w, sn);
            |r.w.held| < |w.held| || PlaceOf(r.w, sn) != Past
  {
    hide Bit11;
    var r := Slide(w, sn);
    if |r.w.held| == |w.held| {
      var fs := SlideTarget(w, sn);
      SlideTargetIs(w, sn);
      assert ScanCount(Pop(w, LeCount(w.held, fs)).w.held, fs) == 0;
      assert r.w.last == fs;
      AtDistanceWin(fs, w.win, sn);
    }
  }

  lemma AtDistanceWin(fs: int, win: int, sn: int)
    requires fs == Low12(sn - win)
    ensures Bit11(sn - Low12(fs + win + 1))
  {
    Bit11Half(sn - Low12(fs + win + 1));
    Low12Add(sn - win, win + 1);
    assert Low12(fs + win + 1) == Low12(sn + 1);
    var q := (sn + 1) / 4096;
    assert sn - Low12(sn + 1) == 4096 * q - 1;
    LowUnique(sn - Low12(sn + 1), q - 1, 4095);
  }
}
