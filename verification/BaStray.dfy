/** Frames lost through the A-MSDU head pointer: when one is linked to a node that
    has left the hold list, exactly; that no covered run loses one; and a run that
    does. */
module BaStray {
  import opened Seq12
  import opened BaWindow
  import opened BaDelivery
  import opened BaRuns
  import opened BaConserve
  import opened BaEdges

  /** The window once no slide is left to do for sn. */
  function Slid(w: Window, sn: int): (r: Window)
    requires 0 <= w.win < 512
    ensures PlaceOf(r, sn) != Past
    decreases |w.held|, if PlaceOf(w, sn) == Past then 1 else 0
  {
    if PlaceOf(w, sn) != Past then w
    else
      SlideMakesProgress(w, sn);
      Slid(Slide(w, sn).w, sn)
  }

  /** A head pointer at a held MPDU names one there is. */
  predicate Linked(w: Window) {
    w.chain.At? ==> w.chain.i < |w.held|
  }

  lemma ReleasePops(w: Window, s: int) returns (k: nat)
    ensures var r := ReleaseTo(w, s).w;
            && k <= |w.held| && r.held == w.held[k..] && r.chain == w.chain.Behind(k)
            && r.win == w.win && r.state == w.state
  {
    hide LeCount, ScanCount, SendAll;
    var a := LeCount(w.held, s);
    k := a + ScanCount(w.held[a..], s);
  }

  lemma SlidePops(w: Window, sn: int) returns (k: nat)
    ensures var r := Slide(w, sn).w;
            && k <= |w.held| && r.held == w.held[k..] && r.chain == w.chain.Behind(k)
            && r.win == w.win && r.state == w.state
  {
    hide ReleaseTo, SlideTarget;
    k := ReleasePops(w, SlideTarget(w, sn));
  }

  /** The slides take k held MPDUs off the head, and the pointer shows it. */
  lemma {:induction false} SlidPops(w: Window, sn: int) returns (k: nat)
    requires 0 <= w.win < 512
    ensures var e := Slid(w, sn); k <= |w.held| && e.held == w.held[k..] && e.chain == w.chain.Behind(k)
    decreases |w.held|, if PlaceOf(w, sn) == Past then 1 else 0
  {
    hide Slide, PlaceOf;
    k := 0;
    if PlaceOf(w, sn) == Past {
      SlideMakesProgress(w, sn);
      var a := SlidePops(w, sn);
      var b := SlidPops(Slide(w, sn).w, sn);
      k := a + b;
    }
  }

  // ---------------------------------------------------------------- exactly

  /** A frame reaches the hold path, and finds a node or not. */
  lemma {:induction false} FateExactly(w: Window, f: Frame, fast: bool, node: bool, tick: int)
    requires 0 <= w.win < 512
    ensures var e, fate := Slid(w, f.sn), Settle(w, f, fast, node, tick).fate;
            && (fate == Kept <==> PlaceOf(e, f.sn) == Inside && !node)
            && (fate == Stray <==>
                 PlaceOf(e, f.sn) == Inside && node && (e.chain == Stale || (e.chain.At? && e.chain.i >= |e.held|)))
    decreases |w.held|, if PlaceOf(w, f.sn) == Past then 1 else 0
  {
    hide Slide, PeerRestarted, PlaceOf, InsertAt, Append, Advance, Noted;
    if PlaceOf(w, f.sn) == Past {
      SlideMakesProgress(w, f.sn);
      var k := SlidePops(w, f.sn);
      FateExactly(Slide(w, f.sn).w, f, fast, node, tick);
    }
  }

  /** The check before the hold path leaves the pointer alone or clears it. */
  lemma CheckedPointer(w: Window, sn: int, kind: int)
    ensures var u := StateUpdate(w, sn, kind).w;
            if Restarts(w, sn, kind) then u.chain == Null else u == w
  {
  }

  /** A frame would be linked through a pointer to an MPDU that is gone: one that
      was stale already, or whose MPDU the frame's own slide releases. */
  predicate WouldStray(w: Window, f: Frame, node: bool)
    requires 0 <= w.win < 512
  {
    var e := Slid(w, f.sn);
    && w.state != 0 && w.state != OPEN && node && !Restarts(w, f.sn, f.amsdu) && PlaceOf(e, f.sn) == Inside
    && (w.chain == Stale || (w.chain.At? && |w.held| - |e.held| > w.chain.i))
  }

  /** A frame is lost if and only if it would be. */
  lemma StraysExactly(w: Window, f: Frame, band: int, fast: bool, node: bool, tick: int)
    requires 0 <= w.win < 512 && Linked(w)
    ensures Classify(w, f, band, fast, node, tick).fate == Stray <==> WouldStray(w.(band := band), f, node)
  {
    hide StateUpdate, Restarts, PlaceOf, Settle, Slid;
    var s := if w.state == OPEN then Start(w, f) else Result(w, []);
    var b := s.w.(band := band);
    var u := StateUpdate(b, f.sn, f.amsdu).w;
    CheckedPointer(b, f.sn, f.amsdu);
    UpdateWin(b, f.sn, f.amsdu);
    FateExactly(u, f, fast, node, tick);
    var k := SlidPops(u, f.sn);
  }

  lemma UpdateWin(w: Window, sn: int, kind: int)
    ensures StateUpdate(w, sn, kind).w.win == w.win
  {
  }

  // ---------------------------------------------------------------- every run

  lemma {:induction false} TimeoutLinked(w: Window, now: int, limit: int)
    requires Linked(w)
    ensures Linked(Timeout(w, now, limit).w)
    decreases |w.held|
  {
    hide ReleaseTo;
    if w.held != [] && Expired(w.held[0], now, limit) {
      var k := ReleasePops(w, w.held[0].first.sn);
      TimeoutLinked(ReleaseTo(w, w.held[0].first.sn).w, now, limit);
    }
  }

  lemma UpdateLinked(w: Window, sn: int, kind: int)
    requires Linked(w)
    ensures Linked(StateUpdate(w, sn, kind).w)
  {
    CheckedPointer(w, sn, kind);
  }

  lemma {:induction false} SettleLinked(w: Window, f: Frame, fast: bool, node: bool, tick: int)
    requires 0 <= w.win < 512 && Linked(w)
    ensures Linked(Settle(w, f, fast, node, tick).w)
    decreases |w.held|, if PlaceOf(w, f.sn) == Past then 1 else 0
  {
    hide PeerRestarted, Slide, PlaceOf, InsertAt, ScanCount, SendAll;
    if PlaceOf(w, f.sn) == Past {
      SlideMakesProgress(w, f.sn);
      var k := SlidePops(w, f.sn);
      SettleLinked(Slide(w, f.sn).w, f, fast, node, tick);
    }
  }

  lemma StepLinked(w: Window, i: Input, fast: bool)
    requires 0 <= w.win < 512 && Linked(w)
    ensures Linked(Step(w, i, fast).w)
  {
    hide Settle, StateUpdate, ReleaseTo, Timeout;
    match i
    case Rx(f, band, node, tick) =>
      var s := if w.state == OPEN then Start(w, f) else Result(w, []);
      var b := s.w.(band := band);
      UpdateLinked(b, f.sn, f.amsdu);
      UpdateWin(b, f.sn, f.amsdu);
      SettleLinked(StateUpdate(b, f.sn, f.amsdu).w, f, fast, node, tick);
    case Scan(now, limit) => TimeoutLinked(w, now, limit);
    case BarMsg(ssn) =>
      UpdateLinked(w, ssn, 3);
      var k := ReleasePops(StateUpdate(w, ssn, 3).w, BarTarget(ssn));
    case FlushBand =>
  }

  lemma {:induction false} RunLinked(w: Window, ins: seq<Input>, fast: bool)
    requires 0 <= w.win < 512 && Linked(w)
    ensures var w' := Run(w, ins, fast).w; Linked(w') && w'.win == w.win
    decreases |ins|
  {
    hide Step, Linked;
    if ins != [] {
      StepKeepsWin(w, ins[0], fast);
      StepLinked(w, ins[0], fast);
      RunLinked(Step(w, ins[0], fast).w, ins[1..], fast);
    }
  }

  /** After any run at all, covered or not, the next frame is lost if and only if the
      pointer it would follow is stale or its own slide makes it so. */
  lemma LostExactly(w: Window, ins: seq<Input>, f: Frame, band: int, fast: bool, node: bool, tick: int, w': Window)
    requires 0 <= w.win < 512 && Linked(w) && w' == Run(w, ins, fast).w
    ensures 0 <= w'.win < 512
    ensures Classify(w', f, band, fast, node, tick).fate == Stray <==> WouldStray(w'.(band := band), f, node)
  {
    RunLinked(w, ins, fast);
    StraysExactly(w', f, band, fast, node, tick);
  }

  // ---------------------------------------------------------------- covered runs

  /** No frame of a covered run is lost or handed back. */
  lemma {:induction false} CalmFates(w: Window, l: int, ins: seq<Input>, fast: bool, g: Frame)
    requires Inv(w, l) && w.state == RUNNING && CalmRun(w, l, ins)
    ensures Fated(w, ins, fast, Stray, g) == 0 && Fated(w, ins, fast, Returned, g) == 0
    decreases |ins|
  {
    if ins != [] {
      assert 0 <= w.win < 512;
      var i := ins[0];
      CalmFate(w, l, i, fast);
      hide Inv, Step, Calm, Classify;
      StepFlag(w, i, fast);
      StepKeepsWin(w, i, false);
      var m := StepOk(w, l, i);
      CalmFates(Step(w, i, false).w, m, ins[1..], fast, g);
    }
  }

  lemma CalmFate(w: Window, l: int, i: Input, fast: bool)
    requires Inv(w, l) && w.state == RUNNING && Calm(w, l, i)
    ensures forall fate, g :: fate == Stray || fate == Returned ==> StepFated(w, i, fast, fate, g) == 0
  {
    hide Inv, Calm, Classify;
    if i.Rx? {
      CalmIs(w, l, i);
      var l' := RxOk(w, l, i.f, i.band, i.node, i.tick);
      RxFlag(w, i.f, i.band, fast, i.node, i.tick);
    }
  }

  lemma CalmIs(w: Window, l: int, i: Input)
    requires Inv(w, l) && Calm(w, l, i) && i.Rx?
    ensures 0 <= w.win < 512 && CalmFrame(w.(band := i.band), l, i.f)
  {
  }

  lemma StepFlag(w: Window, i: Input, fast: bool)
    requires 0 <= w.win < 512
    ensures Step(w, i, fast).w == Step(w, i, false).w
  {
    hide Classify;
    if i.Rx? { RxFlag(w, i.f, i.band, fast, i.node, i.tick); }
  }

  predicate NodesAtHand(ins: seq<Input>) {
    forall i :: 0 <= i < |ins| && ins[i].Rx? ==> ins[i].node
  }

  lemma {:induction false} NodesKeepNone(w: Window, ins: seq<Input>, fast: bool, g: Frame)
    requires 0 <= w.win < 512 && NodesAtHand(ins)
    ensures Fated(w, ins, fast, Kept, g) == 0
    decreases |ins|
  {
    if ins != [] {
      var i := ins[0];
      hide Step;
      StepKeepsWin(w, i, fast);
      if i.Rx? { NodeKeepsNot(w, i.f, i.band, fast, i.tick); }
      NodesKeepNone(Step(w, i, fast).w, ins[1..], fast, g);
    }
  }

  lemma NodeKeepsNot(w: Window, f: Frame, band: int, fast: bool, tick: int)
    requires 0 <= w.win < 512
    ensures Classify(w, f, band, fast, true, tick).fate != Kept
  {
    hide StateUpdate, Settle;
    var s := if w.state == OPEN then Start(w, f) else Result(w, []);
    var b := s.w.(band := band);
    UpdateWin(b, f.sn, f.amsdu);
    FateExactly(StateUpdate(b, f.sn, f.amsdu).w, f, fast, true, tick);
  }

  /** Over every covered run nothing is lost: held at the start plus received is held
      at the end plus sent or freed, plus kept by a failed allocation; and nothing is
      kept while the pools have nodes. */
  lemma NoneLost(w: Window, l: int, ins: seq<Input>, fast: bool, g: Frame)
    requires Inv(w, l) && w.state == RUNNING && CalmRun(w, l, ins)
    ensures var r := Run(w, ins, fast);
            Stock(w.held, g) + Received(ins, g)
            == Stock(r.w.held, g) + Gone(r.out, g) + Fated(w, ins, fast, Kept, g)
    ensures NodesAtHand(ins) ==> Fated(w, ins, fast, Kept, g) == 0
  {
    assert 0 <= w.win < 512;
    hide Inv, CalmRun, Run, Fated, Stock, Gone, Received;
    RunAccounted(w, ins, fast, g);
    CalmFates(w, l, ins, fast, g);
    if NodesAtHand(ins) { NodesKeepNone(w, ins, fast, g); }
  }

  // ---------------------------------------------------------------- a frame lost

  function Lone(usn: int): Held {
    Held(Msdu(usn, 0), [], 0)
  }

  /** 2103 and 2160 wait for 2101. */
  function Ahead(): Window {
    Idle(2100).(refSn := 2160, flag := 3, held := [Lone(2103), Lone(2160)])
  }

  /** 54 restarted the window beneath them. */
  function Restarted(): Window {
    Ahead().(last := 54, refSn := 54, flag := 2)
  }

  /** 56 opens an A-MSDU and is linked ahead of them. */
  function Opening(): Window {
    Restarted().(refSn := 56, flag := 3, amsdu := 3, held := [Held(Msdu(56, 3), [], 0)] + Restarted().held,
                 chain := At(0))
  }

  /** All three timed out: the head pointer is stale, and last ahead of it. */
  function Emptied(): Window {
    Opening().(last := 2160, held := [], chain := Stale)
  }

  /** A frame that joins the list as its i-th MPDU. */
  lemma Joins(w: Window, usn: int, amsdu: int, i: nat)
    requires 0 <= w.win < 512 && w.state == RUNNING && w.band == 0 && w.amsdu == 0 && w.chain == Null
    requires PlaceOf(w, Low12(usn)) == Inside && i == InsertAt(w.held, Low12(usn))
    requires i < |w.held| ==> w.held[i].first.sn != Low12(usn)
    ensures var hs := w.held[..i] + [Held(Msdu(usn, amsdu), [], 0)] + w.held[i..];
            Step(w, Got(usn, amsdu), false).w
            == w.(held := hs, refSn := Low12(usn), flag := 3, amsdu := amsdu,
                  chain := if amsdu <= 1 then Null else At(i))
  {
    hide PlaceOf, Low12, PeerRestarted, InsertAt;
    assert StateUpdate(w, Low12(usn), amsdu) == Result(w, []);
  }

  lemma FirstInside()
    ensures PlaceOf(Idle(2100), 2103) == Inside && InsertAt([], 2103) == 0
  {
  }

  lemma SecondAhead(w1: Window)
    requires w1 == Idle(2100).(refSn := 2103, flag := 3, held := [Lone(2103)])
    ensures Step(w1, Got(2160, 0), false).w == Ahead()
  {
    hide Step;
    assert PlaceOf(w1, 2160) == Inside && InsertAt(w1.held, 2160) == 1;
    Joins(w1, 2160, 0, 1);
    assert w1.held[..1] + [Lone(2160)] + w1.held[1..] == Ahead().held;
  }

  lemma PeerRestarts()
    ensures Step(Ahead(), Got(54, 0), false).w == Restarted()
  {
    assert PlaceOf(Ahead(), 54) == Behind && PeerRestarted(Ahead(), 54);
    assert StateUpdate(Ahead(), 54, 0) == Result(Ahead(), []);
    hide PlaceOf, PeerRestarted;
    assert Settle(Ahead(), Msdu(54, 0), false, true, 0).w == Restarted();
  }

  lemma LinkedAhead()
    ensures Step(Restarted(), Got(56, 3), false).w == Opening()
  {
    hide Step;
    var w, h := Restarted(), Held(Msdu(56, 3), [], 0);
    assert PlaceOf(w, 56) == Inside && InsertAt(w.held, 56) == 0;
    Joins(w, 56, 3, 0);
    assert w.held[..0] + [h] + w.held[0..] == [h] + w.held;
  }

  lemma AllExpire()
    ensures Step(Opening(), Scan(1000, 10), false).w == Emptied()
  {
    hide Timeout, ReleaseTo;
    var w := Opening();
    var h0, h1, h2 := w.held[0], Lone(2103), Lone(2160);
    TheyExpire(h0);
    TheyExpire(h1);
    TheyExpire(h2);
    AreApart(h0, h1);
    AreApart(h1, h2);
    hide Bit11, Low12, Expired;
    assert w.held == [h0] + ([h1] + [h2]) && ([h1] + [h2])[0] == h1;
    HeadExpires(w, h0, [h1] + [h2], 1000, 10);
    HeadExpires(w.(last := 56, held := [h1] + [h2], chain := Stale), h1, [h2], 1000, 10);
    LoneExpires(w.(last := 2103, held := [h2], chain := Stale), h2, 1000, 10);
  }

  lemma TheyExpire(h: Held)
    requires h.tick == 0
    ensures Expired(h, 1000, 10)
  {
  }

  lemma AreApart(h: Held, d: Held)
    requires (h.first.sn == 56 && d.first.sn == 2103) || (h.first.sn == 2103 && d.first.sn == 2160)
    ensures d.first.sn != h.first.sn && !Bit11(d.first.sn - h.first.sn) && d.first.sn != Low12(h.first.sn + 1)
  {
  }

  /** The rest of the A-MSDU reads as ahead of the window, and its own slide brings
      it inside. */
  lemma SlidesInside()
    ensures 0 <= Emptied().win < 512 && PlaceOf(Emptied(), 56) == Past && PlaceOf(Slid(Emptied(), 56), 56) == Inside
  {
    var w := Emptied();
    var e := w.(last := 4088, flag := 4);
    assert PlaceOf(w, 56) == Past;
    assert PlaceOf(e, 56) == Inside;
    SlidesTo(w);
    hide PlaceOf, Slide;
    assert Slid(w, 56) == Slid(e, 56) == e;
  }

  lemma SlidesTo(w: Window)
    requires w == Emptied()
    ensures Slide(w, 56).w == w.(last := 4088, flag := 4)
  {
    assert SlideTarget(w, 56) == 4088;
    hide SlideTarget;
    assert LeCount([], 4088) == 0 && ScanCount([], 4088) == 0;
  }

  /** A step that brings another frame than g, or none. */
  lemma Skips(w: Window, i: Input, w': Window, rest: seq<Input>, g: Frame)
    requires 0 <= w.win < 512 && Step(w, i, false).w == w' && (i.Rx? ==> i.f != g)
    ensures 0 <= w'.win < 512
    ensures Fated(w, [i] + rest, false, Stray, g) == Fated(w', rest, false, Stray, g)
    ensures Received([i] + rest, g) == Received(rest, g)
  {
    hide Step, Classify;
    StepKeepsWin(w, i, false);
    assert ([i] + rest)[1..] == rest;
  }

  lemma LostLast(w: Window, i: Input, g: Frame)
    requires 0 <= w.win < 512 && i.Rx? && i.f == g
    requires Classify(w, i.f, i.band, false, i.node, i.tick).fate == Stray
    ensures Fated(w, [i], false, Stray, g) == 1 && Received([i], g) == 1
  {
    hide Step, Classify;
    StepKeepsWin(w, i, false);
    assert [i][1..] == [];
  }

  /** A frame of a run is neither held nor sent, freed, handed back or kept: 2103 and
      2160 wait, a peer restarts at 54 and opens an A-MSDU with 56, all time out, and
      the rest of the A-MSDU is lost. */
  lemma FrameLost()
    ensures var ins := [Got(2103, 0), Got(2160, 0), Got(54, 0), Got(56, 3), Scan(1000, 10), Got(56, 1)];
            var g, r := Msdu(56, 1), Run(Idle(2100), ins, false);
            && Inv(Idle(2100), 2100) && Received(ins, g) == 1 && Fated(Idle(2100), ins, false, Stray, g) == 1
            && Stock(r.w.held, g) == 0 && Gone(r.out, g) == 0
  {
    hide Step, Run, Fated, Stock, Gone, Classify, Received, PlaceOf, Slid;
    var g, w := Msdu(56, 1), Idle(2100);
    var w1 := w.(refSn := 2103, flag := 3, held := [Lone(2103)]);
    var i0, i1, i2, i3, i4, i5 := Got(2103, 0), Got(2160, 0), Got(54, 0), Got(56, 3), Scan(1000, 10), Got(56, 1);
    FirstInside();
    Joins(w, 2103, 0, 0);
    SecondAhead(w1);
    PeerRestarts();
    LinkedAhead();
    AllExpire();
    SlidesInside();
    assert Emptied().(band := 0) == Emptied() && g.sn == 56;
    StraysExactly(Emptied(), g, 0, false, true, 0);
    LostLast(Emptied(), i5, g);
    Skips(Opening(), i4, Emptied(), [i5], g);
    Skips(Restarted(), i3, Opening(), [i4] + [i5], g);
    Skips(Ahead(), i2, Restarted(), [i3] + ([i4] + [i5]), g);
    Skips(w1, i1, Ahead(), [i2] + ([i3] + ([i4] + [i5])), g);
    Skips(w, i0, w1, [i1] + ([i2] + ([i3] + ([i4] + [i5]))), g);
    var ins := [i0, i1, i2, i3, i4, i5];
    assert ins == [i0] + ([i1] + ([i2] + ([i3] + ([i4] + [i5]))));
    RunAccounted(w, ins, false, g);
    NoneHeld(g);
  }

  lemma NoneHeld(g: Frame)
    ensures Stock(Idle(2100).held, g) == 0
  {
  }
}
