/** What becomes of every frame: for any frame g, the copies that were held or
    arrived are held, gone, handed back, kept by a failed allocation, or astray
    through a head pointer that names no held MPDU. BaStray says when the last
    happens, and that it does not on a covered run. */
module BaConserve {
  import opened BaWindow
  import opened BaDelivery
  import opened BaRuns

  function Count(fs: seq<Frame>, g: Frame): nat {
    if fs == [] then 0 else (if fs[0] == g then 1 else 0) + Count(fs[1..], g)
  }

  /** Copies of g on the hold list. */
  function Stock(hs: seq<Held>, g: Frame): nat {
    if hs == [] then 0 else Count(hs[0].Frames(), g) + Stock(hs[1..], g)
  }

  /** Copies of g that left, sent or freed. */
  function Gone(out: seq<Event>, g: Frame): nat {
    if out == [] then 0 else (if out[0].f == g then 1 else 0) + Gone(out[1..], g)
  }

  predicate Balanced(w: Window, r: Result, g: Frame) {
    Stock(w.held, g) == Stock(r.w.held, g) + Gone(r.out, g)
  }

  /** The frame as it arrives, and as it is set apart by an outcome in which its
      buffer is neither sent, freed nor held. */
  function Arrived(f: Frame, g: Frame): nat {
    if f == g then 1 else 0
  }

  function Apart(f: Frame, fate: Fate, g: Frame): nat {
    if fate == Taken then 0 else Arrived(f, g)
  }

  predicate Accounted(w: Window, f: Frame, o: Outcome, g: Frame) {
    Stock(w.held, g) + Arrived(f, g) == Stock(o.w.held, g) + Gone(o.out, g) + Apart(f, o.fate, g)
  }

  lemma {:induction false} CountConcat(a: seq<Frame>, b: seq<Frame>, g: Frame)
    ensures Count(a + b, g) == Count(a, g) + Count(b, g)
  {
    if a == [] {
      assert a + b == b;
    } else {
      assert (a + b)[1..] == a[1..] + b;
      CountConcat(a[1..], b, g);
    }
  }

  lemma {:induction false} StockConcat(a: seq<Held>, b: seq<Held>, g: Frame)
    ensures Stock(a + b, g) == Stock(a, g) + Stock(b, g)
  {
    if a == [] {
      assert a + b == b;
    } else {
      assert (a + b)[1..] == a[1..] + b;
      StockConcat(a[1..], b, g);
    }
  }

  lemma {:induction false} GoneConcat(a: seq<Event>, b: seq<Event>, g: Frame)
    ensures Gone(a + b, g) == Gone(a, g) + Gone(b, g)
  {
    if a == [] {
      assert a + b == b;
    } else {
      assert (a + b)[1..] == a[1..] + b;
      GoneConcat(a[1..], b, g);
    }
  }

  lemma {:induction false} GoneFrames(fs: seq<Frame>, band: int, bss: int, g: Frame)
    ensures Gone(SendFrames(fs, band, bss), g) == Count(fs, g)
  {
    if fs != [] { GoneFrames(fs[1..], band, bss, g); }
  }

  lemma {:induction false} GoneSendAll(hs: seq<Held>, band: int, g: Frame)
    ensures Gone(SendAll(hs, band), g) == Stock(hs, g)
  {
    if hs != [] {
      GoneFrames(hs[0].Frames(), band, hs[0].first.bss, g);
      GoneSendAll(hs[1..], band, g);
      GoneConcat(Send(hs[0], band), SendAll(hs[1..], band), g);
    }
  }

  // ---------------------------------------------------------------- releases

  lemma PopBalanced(w: Window, n: nat, g: Frame)
    requires n <= |w.held|
    ensures Balanced(w, Pop(w, n), g)
  {
    assert w.held == w.held[..n] + w.held[n..];
    StockConcat(w.held[..n], w.held[n..], g);
    GoneSendAll(w.held[..n], w.band, g);
  }

  lemma ReleaseToBalanced(w: Window, s: int, g: Frame)
    ensures Balanced(w, ReleaseTo(w, s), g)
  {
    var le := Pop(w, LeCount(w.held, s));
    PopBalanced(w, LeCount(w.held, s), g);
    PopBalanced(le.w, ScanCount(le.w.held, s), g);
    GoneConcat(le.out, Advance(le.w, s).out, g);
  }

  lemma {:induction false} TimeoutBalanced(w: Window, now: int, limit: int, g: Frame)
    ensures Balanced(w, Timeout(w, now, limit), g)
    decreases |w.held|
  {
    if w.held != [] && Expired(w.held[0], now, limit) {
      var a := ReleaseTo(w, w.held[0].first.sn);
      ReleaseToBalanced(w, w.held[0].first.sn, g);
      TimeoutBalanced(a.w, now, limit, g);
      GoneConcat(a.out, Timeout(a.w, now, limit).out, g);
    }
  }

  lemma FlushBalanced(w: Window, g: Frame)
    ensures Balanced(w, Flush(w), g)
  {
    GoneSendAll(w.held, w.band, g);
  }

  lemma StateUpdateBalanced(w: Window, sn: int, kind: int, g: Frame)
    ensures Balanced(w, StateUpdate(w, sn, kind), g)
  {
    if Restarts(w, sn, kind) && w.flag == 0 {
      PopBalanced(w.(chain := Null), ScanCount(w.held, w.refSn), g);
    }
  }

  lemma BarBalanced(w: Window, ssn: int, g: Frame)
    ensures Balanced(w, Bar(w, ssn), g)
  {
    StateUpdateBalanced(w, ssn, 3, g);
    var u := StateUpdate(w, ssn, 3);
    ReleaseToBalanced(u.w, BarTarget(ssn), g);
    GoneConcat(u.out, ReleaseTo(u.w, BarTarget(ssn)).out, g);
  }

  // ---------------------------------------------------------------- frames

  lemma StockSplit(a: seq<Held>, h: Held, b: seq<Held>, g: Frame)
    ensures Stock(a + [h] + b, g) == Stock(a, g) + Count(h.Frames(), g) + Stock(b, g)
  {
    StockConcat(a, [h], g);
    StockConcat(a + [h], b, g);
  }

  lemma AppendStock(hs: seq<Held>, i: nat, f: Frame, g: Frame)
    requires i < |hs|
    ensures Stock(Append(hs, i, f), g) == Stock(hs, g) + Arrived(f, g)
  {
    var h := hs[i].(subs := hs[i].subs + [f]);
    assert h.Frames() == hs[i].Frames() + [f];
    CountConcat(hs[i].Frames(), [f], g);
    assert hs == hs[..i] + [hs[i]] + hs[i + 1..];
    assert Append(hs, i, f) == hs[..i] + [h] + hs[i + 1..];
    StockSplit(hs[..i], hs[i], hs[i + 1..], g);
    StockSplit(hs[..i], h, hs[i + 1..], g);
  }

  lemma InsertStock(hs: seq<Held>, i: nat, f: Frame, tick: int, g: Frame)
    requires i <= |hs|
    ensures Stock(hs[..i] + [Held(f, [], tick)] + hs[i..], g) == Stock(hs, g) + Arrived(f, g)
  {
    assert hs == hs[..i] + hs[i..] && Held(f, [], tick).Frames() == [f];
    StockConcat(hs[..i], hs[i..], g);
    StockSplit(hs[..i], Held(f, [], tick), hs[i..], g);
  }

  lemma HoldAccounted(w: Window, f: Frame, node: bool, tick: int, g: Frame)
    ensures Accounted(w, f, Hold(w, f, node, tick), g)
  {
    match w.chain
    case Null => InsertStock(w.held, InsertAt(w.held, f.sn), f, tick, g);
    case At(i) => if i < |w.held| { AppendStock(w.held, i, f, g); }
    case Stale =>
  }

  lemma TakeInOrderAccounted(w: Window, f: Frame, g: Frame)
    ensures Accounted(w, f, TakeInOrder(w, f), g)
  {
    if f.Final() {
      PopBalanced(w, ScanCount(w.held, f.sn), g);
      GoneConcat([Sent(f, w.band, f.bss)], Advance(w, f.sn).out, g);
    }
  }

  /** Events before the frame's own: a release, then its outcome. */
  lemma AccountedAfter(w: Window, r: Result, f: Frame, o: Outcome, g: Frame)
    requires Balanced(w, r, g) && Accounted(r.w, f, o, g)
    ensures Accounted(w, f, o.(out := r.out + o.out), g)
  {
    GoneConcat(r.out, o.out, g);
  }

  lemma {:induction false} SettleAccounted(w: Window, f: Frame, fast: bool, node: bool, tick: int, g: Frame)
    requires 0 <= w.win < 512
    ensures Accounted(w, f, Settle(w, f, fast, node, tick), g)
    decreases |w.held|, if PlaceOf(w, f.sn) == Past then 1 else 0
  {
    match PlaceOf(w, f.sn)
    case InOrder => TakeInOrderAccounted(w, f, g);
    case Inside => HoldAccounted(w, f, node, tick, g);
    case Past =>
      var r := Slide(w, f.sn);
      SlideMakesProgress(w, f.sn);
      ReleaseToBalanced(w, SlideTarget(w, f.sn), g);
      SettleAccounted(r.w, f, fast, node, tick, g);
      AccountedAfter(w, r, f, Settle(r.w, f, fast, node, tick), g);
    case _ =>
  }

  /** A classified frame, in any state of the entry and with any flag, restarts and
      rewinds included; a stray one is set apart like a kept one. */
  lemma ClassifyAccounted(w: Window, f: Frame, band: int, fast: bool, node: bool, tick: int, g: Frame)
    requires 0 <= w.win < 512
    ensures Accounted(w, f, Classify(w, f, band, fast, node, tick), g)
  {
    FlushBalanced(w, g);
    if w.state != 0 {
      var s := if w.state == OPEN then Start(w, f) else Result(w, []);
      var b := s.w.(band := band);
      var u := StateUpdate(b, f.sn, f.amsdu);
      StateUpdateBalanced(b, f.sn, f.amsdu, g);
      SettleAccounted(u.w, f, fast, node, tick, g);
      AccountedAfter(b, u, f, Settle(u.w, f, fast, node, tick), g);
      AccountedAfter(w, Result(b, s.out), f, Receive(b, f, fast, node, tick), g);
    }
  }

  /** Copies of g a run receives. */
  function Received(ins: seq<Input>, g: Frame): nat {
    if ins == [] then 0 else (if ins[0].Rx? then Arrived(ins[0].f, g) else 0) + Received(ins[1..], g)
  }

  function StepFated(w: Window, i: Input, fast: bool, fate: Fate, g: Frame): nat
    requires 0 <= w.win < 512
  {
    if i.Rx? && Classify(w, i.f, i.band, fast, i.node, i.tick).fate == fate then Arrived(i.f, g) else 0
  }

  /** Copies of g that meet a fate in a run. */
  function Fated(w: Window, ins: seq<Input>, fast: bool, fate: Fate, g: Frame): nat
    requires 0 <= w.win < 512
    decreases |ins|
  {
    if ins == [] then 0
    else
      StepKeepsWin(w, ins[0], fast);
      StepFated(w, ins[0], fast, fate, g) + Fated(Step(w, ins[0], fast).w, ins[1..], fast, fate, g)
  }

  /** Copies of g a run neither sends, frees nor holds, by what became of them. */
  function SetApart(w: Window, ins: seq<Input>, fast: bool, g: Frame): nat
    requires 0 <= w.win < 512
  {
    Fated(w, ins, fast, Returned, g) + Fated(w, ins, fast, Kept, g) + Fated(w, ins, fast, Stray, g)
  }

  lemma StepAccounted(w: Window, i: Input, fast: bool, g: Frame)
    requires 0 <= w.win < 512
    ensures var r := Step(w, i, fast);
            Stock(w.held, g) + Received([i], g) == Stock(r.w.held, g) + Gone(r.out, g)
              + StepFated(w, i, fast, Returned, g) + StepFated(w, i, fast, Kept, g) + StepFated(w, i, fast, Stray, g)
  {
    assert Received([i][1..], g) == 0;
    match i
    case Rx(f, band, node, tick) => ClassifyAccounted(w, f, band, fast, node, tick, g);
    case Scan(now, limit) => TimeoutBalanced(w, now, limit, g);
    case BarMsg(ssn) => BarBalanced(w, ssn, g);
    case FlushBand => FlushBalanced(w, g);
  }

  /** Over any run, covered or not, and with any flag: held at the start plus
      received is held at the end plus sent or freed, plus handed back, plus kept by
      a failed allocation, plus gone astray. */
  lemma {:induction false} RunAccounted(w: Window, ins: seq<Input>, fast: bool, g: Frame)
    requires 0 <= w.win < 512
    ensures var r := Run(w, ins, fast);
            Stock(w.held, g) + Received(ins, g) == Stock(r.w.held, g) + Gone(r.out, g) + SetApart(w, ins, fast, g)
    decreases |ins|
  {
    if ins != [] {
      hide Step, StepFated, Stock, Gone;
      var a := Step(w, ins[0], fast);
      StepKeepsWin(w, ins[0], fast);
      StepAccounted(w, ins[0], fast, g);
      RunAccounted(a.w, ins[1..], fast, g);
      GoneConcat(a.out, Run(a.w, ins[1..], fast).out, g);
      assert Received([ins[0]], g) == Received(ins, g) - Received(ins[1..], g);
    }
  }

  // ---------------------------------------------------------------- whole frames

  /** No A-MSDU has been seen: every frame is whole. */
  ghost predicate Whole(w: Window) {
    w.amsdu <= 1 && w.chain == Null && forall g :: Stock(w.held, g) > 0 ==> g.Final()
  }

  predicate WholeInput(i: Input) {
    i.Rx? ==> i.f.Final()
  }

  lemma {:induction false} SentIsGone(out: seq<Event>, g: Frame)
    ensures g in SentOf(out) ==> Gone(out, g) > 0
  {
    if out != [] { SentIsGone(out[1..], g); }
  }

  lemma {:induction false} SettleNotes(w: Window, f: Frame, fast: bool, node: bool, tick: int)
    requires 0 <= w.win < 512 && w.amsdu <= 1 && w.chain == Null && f.Final()
    ensures var w' := Settle(w, f, fast, node, tick).w; w'.amsdu <= 1 && w'.chain == Null
    decreases |w.held|, if PlaceOf(w, f.sn) == Past then 1 else 0
  {
    if PlaceOf(w, f.sn) == Past {
      SlideMakesProgress(w, f.sn);
      SettleNotes(Slide(w, f.sn).w, f, fast, node, tick);
    }
  }

  lemma {:induction false} TimeoutNotes(w: Window, now: int, limit: int)
    ensures var w' := Timeout(w, now, limit).w; w'.amsdu == w.amsdu && (w.chain == Null ==> w'.chain == Null)
    decreases |w.held|
  {
    if w.held != [] && Expired(w.held[0], now, limit) {
      TimeoutNotes(ReleaseTo(w, w.held[0].first.sn).w, now, limit);
    }
  }

  lemma StepNotes(w: Window, i: Input)
    requires 0 <= w.win < 512 && w.state == RUNNING && w.amsdu <= 1 && w.chain == Null && WholeInput(i)
    ensures var w' := Step(w, i, false).w; w'.amsdu <= 1 && w'.chain == Null
  {
    match i
    case Rx(f, band, node, tick) => SettleNotes(w.(band := band), f, false, node, tick);
    case Scan(now, limit) => TimeoutNotes(w, now, limit);
    case _ =>
  }

  /** Whole frames in, whole frames held and sent. */
  lemma StepWhole(w: Window, i: Input)
    requires 0 <= w.win < 512 && w.state == RUNNING && Whole(w) && WholeInput(i)
    ensures Whole(Step(w, i, false).w)
    ensures forall g :: g in SentOf(Step(w, i, false).out) ==> g.Final()
  {
    var r := Step(w, i, false);
    StepNotes(w, i);
    forall g | Stock(r.w.held, g) > 0 || g in SentOf(r.out) ensures g.Final() {
      StepAccounted(w, i, false, g);
      SentIsGone(r.out, g);
    }
  }

  lemma {:induction false} RunWhole(w: Window, ins: seq<Input>)
    requires 0 <= w.win < 512 && w.state == RUNNING && Whole(w)
    requires forall i :: i in ins ==> WholeInput(i)
    ensures forall f :: f in SentOf(Run(w, ins, false).out) ==> f.Final()
    decreases |ins|
  {
    if ins != [] {
      var a := Step(w, ins[0], false);
      StepKeepsWin(w, ins[0], false);
      StepWhole(w, ins[0]);
      RunWhole(a.w, ins[1..]);
      SentOfConcat(a.out, Run(a.w, ins[1..], false).out);
    }
  }

  /** Without A-MSDUs, and with the fast flag's bit 0 clear, the order is strict: no
      number is delivered twice. */
  lemma WholeFramesStrictlyInOrder(w: Window, l: int, ins: seq<Input>)
    requires Inv(w, l) && w.state == RUNNING && CalmRun(w, l, ins) && Whole(w)
    requires forall i :: i in ins ==> WholeInput(i)
    ensures var log := SentOf(Run(w, ins, false).out);
            forall i, j :: 0 <= i < j < |log| ==> log[i].usn < log[j].usn
  {
    DeliveryInOrder(w, l, ins);
    RunWhole(w, ins);
  }
}
