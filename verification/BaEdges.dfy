/** Where the window does not do what its documentation suggests: the exact
    condition for each, and the runs that show it. */
module BaEdges {
  import opened Seq12
  import opened BaWindow
  import opened BaDelivery
  import opened BaRuns

  // ---------------------------------------------------------------- peer restart

  /** Slots behind the last SN a frame may be without reading as a restarted
      peer: half the window and one, or two where the code's modulus of 4095
      slips by one; a window smaller than that is the slack itself, unless the
      frame's own window wraps. */
  function Slack(w: Window, sn: int): int {
    var half := w.win / 2 + 1 + if sn + w.win / 2 + 1 >= 4095 then 1 else 0;
    if w.win < half && sn + w.win < 4096 then w.win else half
  }

  /** A frame behind the window restarts it if and only if it is further behind
      than the slack: about half the window, not the whole. */
  lemma RestartExactly(w: Window, l: int, f: Frame)
    requires 0 <= w.win < 512 && w.last == Low12(l) && f.Ok()
    requires l - 2048 <= f.usn < l
    ensures PeerRestarted(w, f.sn) <==> l - f.usn > Slack(w, f.sn)
  {
    var b, h := l - f.usn, w.win / 2 + 1;
    LowDiff(l, f.usn);
    var x := (h - 1 + f.sn + 1) % 4095;
    assert w.last - f.sn == b || w.last - f.sn == b - 4096 by {
      assert Low12(w.last - f.sn) == b && -4096 < w.last - f.sn < 4096;
    }
    assert x == if f.sn + h >= 4095 then f.sn + h - 4095 else f.sn + h;
    Bit11Near(x - w.last, h - b + if f.sn + h >= 4095 then 1 else 0);
  }

  /** It is then sent at once, the window follows it, and what is held stays held; a
      frame no further behind is dropped and moves nothing. */
  lemma RestartMoves(w: Window, l: int, f: Frame, fast: bool, node: bool, tick: int)
    requires 0 <= w.win < 512 && w.last == Low12(l) && f.Ok()
    requires l - 2048 <= f.usn < l
    ensures var o := Settle(w, f, fast, node, tick);
            && o.w.held == w.held && o.w.last == Low12(if l - f.usn > Slack(w, f.sn) then f.usn else l)
            && o.out == if l - f.usn > Slack(w, f.sn) then [Sent(f, w.band, f.bss)] else DropOrBridge(w, f, fast)
  {
    RestartExactly(w, l, f);
    PlaceIs(w, l, f);
    hide PeerRestarted, Slack, PlaceOf, Low12;
  }

  lemma Bit11Near(y: int, d: int)
    requires y == d || y == d + 4096 || y == d - 4096
    requires -2048 <= d < 2048
    ensures Bit11(y) <==> d < 0
  {
    Bit11Half(y);
  }

  // ---------------------------------------------------------------- window 0

  predicate NothingFreed(out: seq<Event>) {
    forall i :: 0 <= i < |out| ==> out[i].Sent?
  }

  lemma {:induction false} FramesFreeNothing(fs: seq<Frame>, band: int, bss: int)
    ensures NothingFreed(SendFrames(fs, band, bss))
  {
    if fs != [] { FramesFreeNothing(fs[1..], band, bss); }
  }

  lemma {:induction false} SendAllFreesNothing(hs: seq<Held>, band: int)
    ensures NothingFreed(SendAll(hs, band))
  {
    if hs != [] {
      FramesFreeNothing(hs[0].Frames(), band, hs[0].first.bss);
      SendAllFreesNothing(hs[1..], band);
    }
  }

  lemma SlideFreesNothing(w: Window, sn: int)
    ensures NothingFreed(Slide(w, sn).out)
  {
    var s := SlideTarget(w, sn);
    var le := Pop(w, LeCount(w.held, s));
    SendAllFreesNothing(w.held[..LeCount(w.held, s)], w.band);
    SendAllFreesNothing(le.w.held[..ScanCount(le.w.held, s)], w.band);
  }

  /** A frame past the window is treated as a duplicate - freed, or bridged under
      the fast flag - if and only if ADDBA gave a window of size 0; otherwise one
      slide has it next or inside, and it is sent or held, or its buffer stays with a
      failed node allocation. */
  lemma PastFrameFreed(w: Window, l: int, f: Frame, fast: bool, node: bool, tick: int)
    requires Inv(w, l) && f.Ok() && -2048 <= f.usn - l < 2048
    requires PlaceOf(w, f.sn) == Past && (w.chain != Null ==> f.sn == w.refSn)
    ensures var o := Settle(w, f, fast, node, tick);
            && (w.win == 0 ==> o.out == Slide(w, f.sn).out + DropOrBridge(w, f, fast))
            && (w.win > 0 ==> NothingFreed(o.out))
    ensures var place := PlaceOf(Slide(w, f.sn).w, f.sn);
            && (place == Duplicate <==> w.win == 0)
            && (place != Duplicate ==> place == InOrder || place == Inside)
  {
    PlaceIs(w, l, f);
    if w.chain != Null { ChainPlace(w, l, f); }
    var r := Slide(w, f.sn);
    var out := AfterSlide(w, l, f, fast, node, tick);
    SlideFreesNothing(w, f.sn);
    assert Settle(w, f, fast, node, tick).out == r.out + out;
  }

  /** What the second pass of the loop lets go. */
  lemma AfterSlide(w: Window, l: int, f: Frame, fast: bool, node: bool, tick: int) returns (out: seq<Event>)
    requires Inv(w, l) && f.Ok() && -2048 <= f.usn - l < 2048
    requires PlaceOf(w, f.sn) == Past && w.chain == Null
    ensures out == Settle(Slide(w, f.sn).w, f, fast, node, tick).out
    ensures if w.win == 0 then out == DropOrBridge(w, f, fast) else NothingFreed(out)
    ensures PlaceOf(Slide(w, f.sn).w, f.sn)
            == if w.win == 0 then Duplicate else if Low12(Slide(w, f.sn).w.last + 1) == f.sn then InOrder else Inside
  {
    assert 0 <= w.win < 512;
    hide *;
    var l' := SlideOk(w, l, f);
    PastBeyond(w, l, f);
    var r := Slide(w, f.sn).w;
    NextPlace(r, l', f);
    out := Settle(r, f, fast, node, tick).out;
    if w.win == 0 {
      DuplicateDropped(r, f, fast, node, tick);
      DropsAlike(w, r, f, fast);
    } else {
      InsideFreesNothing(r, l', l + w.win, f, fast, node, tick);
    }
  }

  lemma PastBeyond(w: Window, l: int, f: Frame)
    requires Inv(w, l) && f.Ok() && -2048 <= f.usn - l < 2048 && PlaceOf(w, f.sn) == Past
    ensures l + w.win < f.usn
  {
    PlaceIs(w, l, f);
  }

  lemma NextPlace(w: Window, l: int, f: Frame)
    requires Inv(w, l) && f.Ok() && l <= f.usn <= l + 511
    ensures Low12(w.last + 1) == f.sn <==> f.usn == l + 1
  {
    Low12Add(l, 1);
    if f.usn > l + 1 { DifferentLow(f.usn, l + 1); }
    if f.usn == l { DifferentLow(l + 1, l); }
  }

  lemma DuplicateDropped(w: Window, f: Frame, fast: bool, node: bool, tick: int)
    requires 0 <= w.win < 512 && PlaceOf(w, f.sn) == Duplicate
    ensures Settle(w, f, fast, node, tick).out == DropOrBridge(w, f, fast)
  {
    hide PlaceOf;
  }

  lemma DropsAlike(w: Window, w': Window, f: Frame, fast: bool)
    requires w'.band == w.band
    ensures DropOrBridge(w', f, fast) == DropOrBridge(w, f, fast)
  {
  }

  lemma InsideFreesNothing(w: Window, l': int, hi: int, f: Frame, fast: bool, node: bool, tick: int)
    requires Inv(w, l') && w.chain == Null && f.Ok() && l' < f.usn <= l' + w.win
    requires PlaceOf(w, f.sn) == if f.usn == l' + 1 then InOrder else Inside
    requires HeldOk(w.held, l' + 2, hi) && hi < f.usn
    ensures NothingFreed(Settle(w, f, fast, node, tick).out)
  {
    hide HeldOk, PlaceOf, SendAll, InsertAt, ScanCount, PeerRestarted, Slide;
    if f.usn == l' + 1 {
      SendAllFreesNothing(w.held[..ScanCount(w.held, f.sn)], w.band);
      NextFreesNothing(w, f);
    } else {
      NotHeld(f, w.held, l' + 2, hi);
    }
  }

  lemma NextFreesNothing(w: Window, f: Frame)
    requires NothingFreed(SendAll(w.held[..ScanCount(w.held, f.sn)], w.band))
    ensures NothingFreed(TakeInOrder(w, f).out)
  {
    hide SendAll, ScanCount;
  }

  lemma NotHeld(f: Frame, hs: seq<Held>, lo: int, hi: int)
    requires f.Ok() && hi < f.usn < lo + 2048 && HeldOk(hs, lo, hi)
    ensures forall i :: 0 <= i < |hs| ==> hs[i].first.sn != f.sn
  {
    forall i | 0 <= i < |hs| ensures hs[i].first.sn != f.sn {
      HeldCompares(hs[i], f);
    }
  }

  // ---------------------------------------------------------------- first frame

  /** The first frame after ADDBA goes out at once, unless it opens an A-MSDU
      and no earlier frame left a non-zero flag: then the A-MSDU restart has
      already moved the window onto it and it is freed as a duplicate. */
  lemma FirstFrame(w: Window, f: Frame, band: int, node: bool, tick: int)
    requires 0 <= w.win < 512 && w.state == OPEN && f.Ok()
    ensures var o, freed := Classify(w, f, band, false, node, tick), f.amsdu == 3 && w.flag == 0;
            && o.w == w.(last := if f.Final() || freed then f.sn else Low12(f.sn - 1), refSn := f.sn,
                         amsdu := f.amsdu, flag := if freed then 1 else 0, state := RUNNING, band := band,
                         held := [], chain := Null)
            && o.out == SendAll(w.held, w.band) + [if freed then Freed(f) else Sent(f, band, f.bss)]
            && o.fate == Taken
  {
    var s := Start(w, f).w.(band := band);
    Low12Add(f.usn, -1);
    Low12Add(f.usn - 1, 1);
    Low12Add(f.sn - 1, 1);
    assert Low12(s.last + 1) == f.sn;
    if f.amsdu == 3 && w.flag == 0 {
      var u := StateUpdate(s, f.sn, f.amsdu).w;
      assert u.last == f.sn && u.held == [];
      DifferentLow(f.usn + 1, f.usn);
      Low12Add(f.usn, 1);
      assert PlaceOf(u, f.sn) == Duplicate;
    }
  }

  /** A window just started is in the invariant, and an A-MSDU it opened is
      known. */
  lemma FirstFrameOk(w: Window, f: Frame, band: int, node: bool, tick: int, w': Window, l: int)
    requires 0 <= w.win < 512 && w.state == OPEN && f.Ok()
    requires w' == Classify(w, f, band, false, node, tick).w
    requires l == if f.Final() || (f.amsdu == 3 && w.flag == 0) then f.usn else f.usn - 1
    ensures Inv(w', l) && Opened(w', l, f.usn)
  {
    hide Classify, SendAll;
    FirstFrame(w, f, band, node, tick);
    Low12Add(f.usn, -1);
    Low12Add(f.usn - 1, 1);
    Low12Add(f.sn - 1, 1);
  }

  // ---------------------------------------------------------------- why runs must be calm

  /** A frame as the witness runs use it. */
  function Msdu(usn: int, amsdu: int): Frame {
    Frame(usn, Low12(usn), usn, 100, 40, 0, amsdu)
  }

  function Idle(last: int): Window {
    Window(64, last, last, 0, 0, RUNNING, 0, [], Null)
  }

  function Got(usn: int, amsdu: int): Input {
    Rx(Msdu(usn, amsdu), 0, true, 0)
  }

  lemma RunSplits(w: Window, i: Input, ins: seq<Input>, fast: bool)
    requires 0 <= w.win < 512
    ensures Step(w, i, fast).w.win == w.win
    ensures var r := Run(Step(w, i, fast).w, ins, fast);
            Run(w, [i] + ins, fast) == Result(r.w, Step(w, i, fast).out + r.out)
  {
    StepKeepsWin(w, i, fast);
    assert ([i] + ins)[1..] == ins;
  }

  /** Frames 100, 102, 101 leave as 100, 101, 102: 102 waits for 101. */
  lemma HeldThenReleased()
    ensures CalmRun(Idle(99), 99, [Got(100, 0), Got(102, 0), Got(101, 0)])
    ensures Run(Idle(99), [Got(100, 0), Got(102, 0), Got(101, 0)], false).out
            == [Sent(Msdu(100, 0), 0, 0), Sent(Msdu(101, 0), 0, 0), Sent(Msdu(102, 0), 0, 0)]
  {
    hide Step, Run, CalmRun, Calm;
    var w1 := Idle(99).(last := 100, refSn := 100);
    var w2 := w1.(refSn := 102, flag := 3, held := [Held(Msdu(102, 0), [], 0)]);
    FirstSent(false);
    assert PlaceOf(w1, 102) == Inside;
    Waits(w1, 100, 102);
    ThirdCalm(w2);
    BothSent(w2);
    RunSplits(Idle(99), Got(100, 0), [Got(102, 0), Got(101, 0)], false);
    RunSplits(w1, Got(102, 0), [Got(101, 0)], false);
    RunSplits(w2, Got(101, 0), [], false);
    CalmSplits(Idle(99), 99, Got(100, 0), [Got(102, 0), Got(101, 0)]);
    CalmSplits(w1, 100, Got(102, 0), [Got(101, 0)]);
    CalmSplits(w2, 100, Got(101, 0), []);
    NothingRuns(Step(w2, Got(101, 0), false).w);
    assert [Got(100, 0)] + [Got(102, 0), Got(101, 0)] == [Got(100, 0), Got(102, 0), Got(101, 0)];
    assert [Got(102, 0)] + [Got(101, 0)] == [Got(102, 0), Got(101, 0)] && [Got(101, 0)] + [] == [Got(101, 0)];
  }

  lemma CalmSplits(w: Window, l: int, i: Input, ins: seq<Input>)
    requires 0 <= w.win < 512 && Calm(w, l, i)
    ensures 0 <= Step(w, i, false).w.win < 512
    ensures CalmRun(Step(w, i, false).w, Track(l, w, Step(w, i, false).w), ins) ==> CalmRun(w, l, [i] + ins)
  {
    hide Step, Calm;
    StepKeepsWin(w, i, false);
    assert ([i] + ins)[1..] == ins;
  }

  lemma NothingRuns(w: Window)
    requires 0 <= w.win < 512
    ensures (forall fast :: Run(w, [], fast) == Result(w, [])) && forall l :: CalmRun(w, l, [])
  {
  }

  lemma FirstSent(fast: bool)
    ensures Calm(Idle(99), 99, Got(100, 0))
    ensures Step(Idle(99), Got(100, 0), fast) ==
            Result(Idle(99).(last := 100, refSn := 100), [Sent(Msdu(100, 0), 0, 0)])
  {
  }

  /** A whole MSDU ahead of an empty window waits. */
  lemma Waits(w: Window, l: int, usn: int)
    requires 0 <= w.win < 512 && w.state == RUNNING && w.band == 0 && w.amsdu == 0 && w.last == Low12(l)
    requires w.held == [] && w.chain == Null && PlaceOf(w, Low12(usn)) == Inside && -2048 <= usn - l < 2048
    ensures Calm(w, l, Got(usn, 0))
    ensures Step(w, Got(usn, 0), false)
            == Result(w.(refSn := Low12(usn), flag := 3, held := [Held(Msdu(usn, 0), [], 0)]), [])
  {
    hide PlaceOf, Low12, PeerRestarted;
    assert StateUpdate(w, Low12(usn), 0) == Result(w, []);
    Tracked(l, l, w, w);
  }

  lemma BothSent(w2: Window)
    requires w2 == Idle(99).(last := 100, refSn := 102, flag := 3, held := [Held(Msdu(102, 0), [], 0)])
    ensures Step(w2, Got(101, 0), false).out == [Sent(Msdu(101, 0), 0, 0), Sent(Msdu(102, 0), 0, 0)]
  {
    hide Step, Advance;
    GoesOut(w2, 101);
    NextOut(w2);
  }

  /** Moving on to 101 releases 102. */
  lemma NextOut(w: Window)
    requires w.held == [Held(Msdu(102, 0), [], 0)] && w.band == 0
    ensures Advance(w, 101).out == [Sent(Msdu(102, 0), 0, 0)]
  {
    assert w.held[1..] == [] && w.held[..1] == w.held;
    assert ScanCount(w.held, 101) == 1 + ScanCount(w.held[1..], 102) == 1;
    assert SendFrames([], 0, 0) == [] && SendAll([], 0) == [];
    assert SendAll(w.held, 0) == [Sent(Msdu(102, 0), 0, 0)];
  }

  lemma ThirdCalm(w2: Window)
    requires w2 == Idle(99).(last := 100, refSn := 102, flag := 3, held := [Held(Msdu(102, 0), [], 0)])
    ensures Calm(w2, 100, Got(101, 0))
  {
    hide Advance, PeerRestarted, Slide;
    assert StateUpdate(w2, 101, 0) == Result(w2, []);
    assert PlaceOf(w2, 101) == InOrder;
  }

  /** A frame 48 behind a window of 64 is taken for a restarted peer and sent
      out of order, though nothing restarted. */
  lemma PeerRestartReorders()
    ensures Inv(Idle(99), 99)
    ensures !Ordered(SentOf(Run(Idle(99), [Got(100, 0), Got(52, 0)], false).out))
  {
    hide Run, Step, Ordered, SentOf;
    var w1 := Idle(99).(last := 100, refSn := 100);
    FirstSent(false);
    SentBehind(w1);
    RunSplits(Idle(99), Got(100, 0), [Got(52, 0)], false);
    RunSplits(w1, Got(52, 0), [], false);
    NothingRuns(Step(w1, Got(52, 0), false).w);
    assert [Got(100, 0)] + [Got(52, 0)] == [Got(100, 0), Got(52, 0)] && [Got(52, 0)] + [] == [Got(52, 0)];
    var first, second := Sent(Msdu(100, 0), 0, 0), Sent(Msdu(52, 0), 0, 0);
    assert [second] + [] == [second];
    TwoSent(first, second);
  }

  lemma SentBehind(w: Window)
    requires w == Idle(99).(last := 100, refSn := 100)
    ensures Step(w, Got(52, 0), false).out == [Sent(Msdu(52, 0), 0, 0)]
  {
    hide Advance, Slide, TakeInOrder, Hold;
    assert PlaceOf(w, 52) == Behind && PeerRestarted(w, 52);
  }

  /** With the fast flag's bit 0 set a frame behind the window is bridged: 99 comes
      after 100 in a covered run, and leaves after it. */
  lemma FlagReorders()
    ensures var ins := [Got(100, 0), Got(99, 0)];
            CalmRun(Idle(99), 99, ins) && !Ordered(SentOf(Run(Idle(99), ins, true).out))
  {
    hide Run, Step, Ordered, SentOf, Calm, CalmRun;
    var w1 := Idle(99).(last := 100, refSn := 100);
    FirstSent(false);
    FirstSent(true);
    BridgedBehind(w1);
    RunSplits(Idle(99), Got(100, 0), [Got(99, 0)], true);
    RunSplits(w1, Got(99, 0), [], true);
    CalmSplits(Idle(99), 99, Got(100, 0), [Got(99, 0)]);
    CalmSplits(w1, 100, Got(99, 0), []);
    NothingRuns(Step(w1, Got(99, 0), true).w);
    NothingRuns(Step(w1, Got(99, 0), false).w);
    assert [Got(100, 0)] + [Got(99, 0)] == [Got(100, 0), Got(99, 0)] && [Got(99, 0)] + [] == [Got(99, 0)];
    var first, second := Sent(Msdu(100, 0), 0, 0), Sent(Msdu(99, 0), 0, 0);
    assert [second] + [] == [second];
    TwoSent(first, second);
  }

  lemma BridgedBehind(w: Window)
    requires w == Idle(99).(last := 100, refSn := 100)
    ensures Step(w, Got(99, 0), true).out == [Sent(Msdu(99, 0), 0, 0)]
    ensures Calm(w, 100, Got(99, 0)) && Step(w, Got(99, 0), false).w.win == w.win
  {
    hide Calm, Step;
    assert PlaceOf(w, 99) == Behind && !PeerRestarted(w, 99) && Msdu(99, 0).sn == 99 && w.last == Low12(100);
    Drops(w, 100, 99, true);
    StepKeepsWin(w, Got(99, 0), false);
  }

  /** A whole MSDU behind the window that restarts nothing. */
  lemma Drops(w: Window, l: int, usn: int, fast: bool)
    requires 0 <= w.win < 512 && w.state == RUNNING && w.band == 0 && w.amsdu == 0 && w.last == Low12(l)
    requires PlaceOf(w, Low12(usn)) == Behind && !PeerRestarted(w, Low12(usn)) && -2048 <= usn - l < 2048
    ensures Calm(w, l, Got(usn, 0))
    ensures Step(w, Got(usn, 0), fast).out == DropOrBridge(w, Msdu(usn, 0), fast)
  {
    hide PlaceOf, Low12, PeerRestarted;
    assert StateUpdate(w, Low12(usn), 0) == Result(w, []);
    Tracked(l, l, w, w);
  }

  lemma TwoSent(a: Event, b: Event)
    requires a.Sent? && b.Sent? && a.f.usn > b.f.usn
    ensures !Ordered(SentOf([a] + [b]))
  {
    assert ([a] + [b])[1..] == [b];
    assert SentOf([b]) == [b.f];
    assert SentOf([a] + [b]) == [a.f] + [b.f];
    assert ([a.f] + [b.f])[0].usn > ([a.f] + [b.f])[1].usn;
  }

  /** 102 is held, 100 opens an A-MSDU in order, 102 times out, 105 comes and last
      the 101 the A-MSDU was followed by: they leave as 100, 102, 101. */
  lemma UnfinishedAmsduReorders()
    ensures var ins := [Got(102, 0), Got(100, 3), Scan(1000, 10), Got(105, 0), Got(101, 0)];
            var out := Run(Idle(99), ins, false).out;
            && CalmRun(Idle(99), 99, ins[..3]) && Rewinds(Run(Idle(99), ins[..3], false).w, 105, 0)
            && out == [Sent(Msdu(100, 3), 0, 0), Sent(Msdu(102, 0), 0, 0), Sent(Msdu(101, 0), 0, 0)]
            && !Ordered(SentOf(out))
  {
    hide Step, Run, CalmRun, Calm, Ordered, SentOf, Timeout;
    var ins := [Got(102, 0), Got(100, 3), Scan(1000, 10), Got(105, 0), Got(101, 0)];
    Waits(Idle(99), 99, 102);
    ThenOpened();
    var h := Begun().held[0];
    assert Expired(h, 1000, 10);
    LoneExpires(Begun(), h, 1000, 10);
    ScanIs(Begun(), 1000, 10);
    PulledBack();
    ThenInOrder(Back());
    RunSplits(TimedOut(), ins[3], [ins[4]], false);
    RunSplits(Back(), ins[4], [], false);
    NothingRuns(Step(Back(), ins[4], false).w);
    NothingRuns(TimedOut());
    var begun, out := Result(Begun(), [Sent(Msdu(100, 3), 0, 0)]), Result(TimedOut(), [Sent(Msdu(102, 0), 0, 0)]);
    ThreeSteps(Idle(99), 99, ins[0], Result(Waiting(), []), ins[1], begun, ins[2], out, ins[3..]);
    ThreeSteps(Idle(99), 99, ins[0], Result(Waiting(), []), ins[1], begun, ins[2], out, []);
    var a := [ins[0], ins[1], ins[2]];
    assert ins[..3] == a == a + [] && ins == a + ins[3..] && ins[3..] == [ins[3]] + [ins[4]];
    assert [ins[4]] + [] == [ins[4]];
    LastBehind(Sent(Msdu(100, 3), 0, 0), Sent(Msdu(102, 0), 0, 0), Sent(Msdu(101, 0), 0, 0));
  }

  /** 102 waits for 100. */
  function Waiting(): Window {
    Idle(99).(refSn := 102, flag := 3, held := [Held(Msdu(102, 0), [], 0)])
  }

  /** 100 has gone out in order, the rest of its A-MSDU not. */
  function Begun(): Window {
    Waiting().(refSn := 100, flag := 0, amsdu := 3)
  }

  /** 102 timed out: the last SN is 102 and the noted one still 100. */
  function TimedOut(): Window {
    Idle(102).(refSn := 100, amsdu := 3)
  }

  lemma ThenOpened()
    ensures Step(Waiting(), Got(100, 3), false) == Result(Begun(), [Sent(Msdu(100, 3), 0, 0)])
    ensures Calm(Waiting(), 99, Got(100, 3))
  {
    hide Advance, PeerRestarted, Slide;
    assert PlaceOf(Waiting(), 100) == InOrder;
    assert StateUpdate(Waiting(), 100, 3) == Result(Waiting(), []);
  }

  lemma ScanIs(w: Window, now: int, limit: int)
    requires 0 <= w.win < 512
    ensures Step(w, Scan(now, limit), false) == Timeout(w, now, limit) && forall l :: Calm(w, l, Scan(now, limit))
  {
  }

  /** An expired MPDU leaves the head, when the next one is neither behind it nor
      follows it, and last is its SN. */
  lemma HeadExpires(w: Window, h: Held, rest: seq<Held>, now: int, limit: int)
    requires w.held == [h] + rest && h.subs == [] && Expired(h, now, limit)
    requires rest != [] ==> var d := rest[0].first.sn;
             d != h.first.sn && !Bit11(d - h.first.sn) && d != Low12(h.first.sn + 1)
    ensures var t := Timeout(w.(last := h.first.sn, held := rest, chain := w.chain.Behind(1)), now, limit);
            Timeout(w, now, limit) == Result(t.w, [Sent(h.first, w.band, h.first.bss)] + t.out)
  {
    HeadReleased(w, h, rest);
    hide ReleaseTo, SendAll;
  }

  lemma HeadReleased(w: Window, h: Held, rest: seq<Held>)
    requires w.held == [h] + rest && h.subs == []
    requires rest != [] ==> var d := rest[0].first.sn;
             d != h.first.sn && !Bit11(d - h.first.sn) && d != Low12(h.first.sn + 1)
    ensures ReleaseTo(w, h.first.sn)
            == Result(w.(last := h.first.sn, held := rest, chain := w.chain.Behind(1)),
                      [Sent(h.first, w.band, h.first.bss)])
  {
    var hs, t := w.held, h.first.sn;
    assert hs[0] == h && hs[1..] == rest && hs[..1] == [h];
    assert LeCount(rest, t) == 0 && ScanCount(rest, t) == 0;
    assert LeCount(hs, t) == 1;
    hide LeCount, ScanCount, Bit11, Low12;
    LoneSent(h, w.band);
    assert rest[..0] == [] && rest[0..] == rest;
    var x := [Sent(h.first, w.band, h.first.bss)];
    assert x + [] == x;
    var le := Pop(w, 1);
    assert Advance(le.w, t) == Result(le.w.(last := t), []);
  }

  lemma LoneSent(h: Held, band: int)
    requires h.subs == []
    ensures SendAll([h], band) == [Sent(h.first, band, h.first.bss)] && SendAll([], band) == []
  {
    assert SendFrames([], band, h.first.bss) == [] && [h][1..] == [];
    assert h.Frames() == [h.first] && h.Frames()[1..] == [];
  }

  /** A lone expired MPDU leaves, and last is its SN. */
  lemma LoneExpires(w: Window, h: Held, now: int, limit: int)
    requires w.held == [h] && h.subs == [] && Expired(h, now, limit)
    ensures Timeout(w, now, limit) == Result(w.(last := h.first.sn, held := [], chain := w.chain.Behind(1)),
                                             [Sent(h.first, w.band, h.first.bss)])
  {
    hide ReleaseTo;
    assert w.held == [h] + [];
    HeadExpires(w, h, [], now, limit);
    assert [Sent(h.first, w.band, h.first.bss)] + [] == [Sent(h.first, w.band, h.first.bss)];
  }

  /** Three steps of a covered run, and what follows them. */
  lemma ThreeSteps(w: Window, l: int, i: Input, a: Result, j: Input, b: Result, k: Input, c: Result, rest: seq<Input>)
    requires 0 <= w.win < 512 && Step(w, i, false) == a && Calm(w, l, i) && a.w.last == w.last
    requires a.w.win == w.win && Step(a.w, j, false) == b && Calm(a.w, l, j) && b.w.last == w.last
    requires b.w.win == w.win && Step(b.w, k, false) == c && Calm(b.w, l, k)
    ensures c.w.win == w.win
    ensures var r := Run(c.w, rest, false);
            Run(w, [i, j, k] + rest, false) == Result(r.w, a.out + b.out + c.out + r.out)
    ensures CalmRun(w, l, [i, j, k])
  {
    hide Step, Calm;
    StepKeepsWin(b.w, k, false);
    RunSplits(b.w, k, rest, false);
    RunSplits(a.w, j, [k] + rest, false);
    RunSplits(w, i, [j] + ([k] + rest), false);
    assert [i] + ([j] + ([k] + rest)) == [i, j, k] + rest;
    NothingRuns(c.w);
    CalmSplits(b.w, l, k, []);
    CalmSplits(a.w, l, j, [k]);
    CalmSplits(w, l, i, [j, k]);
    assert [i] + [j, k] == [i, j, k] && [j] + [k] == [j, k] && [k] + [] == [k];
  }

  lemma LastBehind(a: Event, b: Event, c: Event)
    requires a.Sent? && b.Sent? && c.Sent? && b.f.usn > c.f.usn
    ensures !Ordered(SentOf([a, b, c]))
  {
    var abc, bc := [a, b, c], [b, c];
    assert abc[1..] == bc && bc[1..] == [c];
    assert SentOf([c]) == [c.f];
    assert SentOf(bc) == [b.f] + SentOf(bc[1..]);
    assert SentOf(abc) == [a.f] + SentOf(abc[1..]);
    var log := SentOf([a, b, c]);
    assert log == [a.f] + ([b.f] + [c.f]) && log[1].usn > log[2].usn;
  }

  function Back(): Window {
    Idle(100).(refSn := 105, flag := 3, held := [Held(Msdu(105, 0), [], 0)])
  }

  lemma PulledBack()
    ensures Step(TimedOut(), Got(105, 0), false) == Result(Back(), [])
  {
    var u := TimedOut().(last := 100);
    assert StateUpdate(TimedOut(), 105, 0) == Result(u, []);
    assert PlaceOf(u, 105) == Inside;
    assert Settle(u, Msdu(105, 0), false, true, 0) == Outcome(Back(), [], Taken);
  }

  /** The next whole MSDU goes out, and the run behind it. */
  lemma GoesOut(w: Window, usn: int)
    requires 0 <= w.win < 512 && w.state == RUNNING && w.band == 0 && w.amsdu == 0
    requires PlaceOf(w, Low12(usn)) == InOrder
    ensures Step(w, Got(usn, 0), false).out == [Sent(Msdu(usn, 0), 0, 0)] + Advance(w, Low12(usn)).out
  {
    hide PlaceOf, Low12, Advance;
    assert StateUpdate(w, Low12(usn), 0) == Result(w, []);
  }

  lemma ThenInOrder(w: Window)
    requires w == Back()
    ensures Step(w, Got(101, 0), false).out == [Sent(Msdu(101, 0), 0, 0)]
  {
    hide Step;
    GoesOut(w, 101);
    assert w.held[..0] == [] && ScanCount(w.held, 101) == 0;
  }
}
