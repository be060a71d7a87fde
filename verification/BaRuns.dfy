/** Whole runs of one running block-ack window. */
module BaRuns {
  import opened Seq12
  import opened BaWindow
  import opened BaDelivery

  /** What reaches a window, in any order: a received frame (node: whether the
      pools had one), a timeout scan, a BAR, a flush of the band. */
  datatype Input =
    | Rx(f: Frame, band: int, node: bool, tick: int)
    | Scan(now: int, limit: int)
    | BarMsg(ssn: int)
    | FlushBand

  function Step(w: Window, i: Input, fast: bool): Result
    requires 0 <= w.win < 512
  {
    match i
    case Rx(f, band, node, tick) => var o := Classify(w, f, band, fast, node, tick); Result(o.w, o.out)
    case Scan(now, limit) => Timeout(w, now, limit)
    case BarMsg(ssn) => Bar(w, ssn)
    case FlushBand => Flush(w)
  }

  /** The running number of the last SN after a step. */
  function Track(l: int, w: Window, w': Window): int {
    l + Low12(w'.last - w.last)
  }

  /** A step the run theorem covers. The frame is less than half the number
      space from the window; it does not take the peer-restart branch; no
      unfinished A-MSDU pulls the last SN back; a BAR names a 12-bit SSN. */
  predicate CalmFrame(w: Window, l: int, f: Frame) {
    var u := StateUpdate(w, f.sn, f.amsdu).w;
    && f.Ok() && -2048 <= f.usn - Track(l, w, u) < 2048
    && !Rewinds(w, f.sn, f.amsdu)
    && !(PlaceOf(u, f.sn) == Behind && PeerRestarted(u, f.sn))
  }

  predicate Calm(w: Window, l: int, i: Input)
    requires 0 <= w.win < 512
  {
    match i
    case Rx(f, band, _, _) => CalmFrame(w.(band := band), l, f)
    case BarMsg(ssn) => 0 <= ssn < 4096 && !Rewinds(w, ssn, 3)
    case _ => true
  }

  function Run(w: Window, ins: seq<Input>, fast: bool): Result
    requires 0 <= w.win < 512
    decreases |ins|
  {
    if ins == [] then Result(w, [])
    else
      var a := Step(w, ins[0], fast);
      StepKeepsWin(w, ins[0], fast);
      var b := Run(a.w, ins[1..], fast);
      Result(b.w, a.out + b.out)
  }

  /** Every step is covered. The windows are the same whatever the fast flag
      (RunFlag). */
  predicate CalmRun(w: Window, l: int, ins: seq<Input>)
    requires 0 <= w.win < 512
    decreases |ins|
  {
    ins == [] || (
      var w' := Step(w, ins[0], false).w;
      StepKeepsWin(w, ins[0], false);
      Calm(w, l, ins[0]) && CalmRun(w', Track(l, w, w'), ins[1..]))
  }

  lemma {:induction false} TimeoutKeepsWin(w: Window, now: int, limit: int)
    ensures var w' := Timeout(w, now, limit).w; w'.win == w.win && w'.state == w.state
    decreases |w.held|
  {
    if w.held != [] && Expired(w.held[0], now, limit) {
      TimeoutKeepsWin(ReleaseTo(w, w.held[0].first.sn).w, now, limit);
    }
  }

  lemma StepKeepsWin(w: Window, i: Input, fast: bool)
    requires 0 <= w.win < 512
    ensures var w' := Step(w, i, fast).w; w'.win == w.win && (w.state == RUNNING ==> w'.state == RUNNING)
  {
    match i
    case Rx(f, band, node, tick) =>
    case Scan(now, limit) => TimeoutKeepsWin(w, now, limit);
    case _ =>
  }

  lemma Tracked(l: int, l': int, w: Window, w': Window)
    requires w.last == Low12(l) && w'.last == Low12(l') && l <= l' < l + 4096
    ensures Track(l, w, w') == l'
  {
    LowDiff(l', l);
  }

  /** A frame of a covered step: also, it is never linked through a stale head
      pointer. */
  lemma ReceiveOk(w: Window, l: int, f: Frame, node: bool, tick: int) returns (l': int)
    requires Inv(w, l) && CalmFrame(w, l, f)
    ensures var o := Receive(w, f, false, node, tick);
            && Inv(o.w, l') && l <= l' < l + 4096 && Extends(SentOf(o.out), l, l')
            && o.fate != Stray && o.fate != Returned
            && NotedBy(StateUpdate(w, f.sn, f.amsdu).w, o.w, f, l')
  {
    var m := StateUpdateOk(w, l, f.sn, f.amsdu);
    var u := StateUpdate(w, f.sn, f.amsdu);
    Tracked(l, m, w, u.w);
    l' := SettleOk(u.w, m, f, node, tick);
    ExtendsThen(u.out, Settle(u.w, f, false, node, tick).out, l, m, l');
  }

  lemma RxOk(w: Window, l: int, f: Frame, band: int, node: bool, tick: int) returns (l': int)
    requires Inv(w, l) && w.state == RUNNING && CalmFrame(w.(band := band), l, f)
    ensures var o := Classify(w, f, band, false, node, tick);
            && Inv(o.w, l') && l <= l' < l + 4096 && Extends(SentOf(o.out), l, l')
            && o.fate != Stray && o.fate != Returned
            && NotedBy(StateUpdate(w.(band := band), f.sn, f.amsdu).w, o.w, f, l')
  {
    hide StateUpdate, Settle, Extends, HeldOk, PeerRestarted, PlaceOf;
    var b := w.(band := band);
    assert Inv(b, l) by { assert Live(w) == Live(b); }
    l' := ReceiveOk(b, l, f, node, tick);
    var o := Receive(b, f, false, node, tick);
    assert [] + o.out == o.out;
  }

  /** Every covered step keeps the window invariant and extends the order. */
  lemma StepOk(w: Window, l: int, i: Input) returns (l': int)
    requires Inv(w, l) && w.state == RUNNING && Calm(w, l, i)
    ensures var r := Step(w, i, false);
            && Inv(r.w, l') && l <= l' && l' == Track(l, w, r.w) && Extends(SentOf(r.out), l, l')
  {
    match i {
      case Rx(f, band, node, tick) => l' := RxOk(w, l, f, band, node, tick);
      case Scan(now, limit) => l' := TimeoutOk(w, l, l + w.win, now, limit);
      case BarMsg(ssn) => l' := BarOk(w, l, ssn);
      case FlushBand => l' := FlushOk(w, l);
    }
    Tracked(l, l', w, Step(w, i, false).w);
  }

  lemma {:induction false} RunOk(w: Window, l: int, ins: seq<Input>) returns (l': int)
    requires Inv(w, l) && w.state == RUNNING && CalmRun(w, l, ins)
    ensures var r := Run(w, ins, false); Inv(r.w, l') && Extends(SentOf(r.out), l, l')
    decreases |ins|
  {
    l' := l;
    if ins != [] {
      var a := Step(w, ins[0], false);
      StepKeepsWin(w, ins[0], false);
      var m := StepOk(w, l, ins[0]);
      l' := RunOk(a.w, m, ins[1..]);
      ExtendsThen(a.out, Run(a.w, ins[1..], false).out, l, m, l');
    }
  }

  /** In-order delivery: with bit 0 of the fast flag clear, under any interleaving
      of frames, timeouts, BARs and flushes, what goes to pkt_enqueue_bridge is
      strictly increasing on the sender's running numbers, but for the MSDUs of one
      A-MSDU, which follow each other. */
  lemma DeliveryInOrder(w: Window, l: int, ins: seq<Input>)
    requires Inv(w, l) && w.state == RUNNING && CalmRun(w, l, ins)
    ensures Ordered(SentOf(Run(w, ins, false).out))
  {
    hide CalmRun;
    var l' := RunOk(w, l, ins);
  }

  // ---------------------------------------------------------------- the fast flag

  /** b is a with some of the freed frames sent instead, in their places. */
  predicate Bridges(a: seq<Event>, b: seq<Event>) {
    |a| == |b| && forall i :: 0 <= i < |a| ==> b[i] == a[i] || (a[i].Freed? && b[i].Sent? && b[i].f == a[i].f)
  }

  lemma {:induction false} SettleFlag(w: Window, f: Frame, fast: bool, node: bool, tick: int)
    requires 0 <= w.win < 512
    ensures var a, b := Settle(w, f, false, node, tick), Settle(w, f, fast, node, tick);
            b.w == a.w && b.fate == a.fate && Bridges(a.out, b.out)
    decreases |w.held|, if PlaceOf(w, f.sn) == Past then 1 else 0
  {
    hide Hold, TakeInOrder, PeerRestarted;
    if PlaceOf(w, f.sn) == Past {
      SlideMakesProgress(w, f.sn);
      SettleFlag(Slide(w, f.sn).w, f, fast, node, tick);
    }
  }

  lemma RxFlag(w: Window, f: Frame, band: int, fast: bool, node: bool, tick: int)
    requires 0 <= w.win < 512
    ensures var a, b := Classify(w, f, band, false, node, tick), Classify(w, f, band, fast, node, tick);
            b.w == a.w && b.fate == a.fate && Bridges(a.out, b.out)
  {
    hide Settle;
    if w.state != 0 {
      var s := if w.state == OPEN then Start(w, f) else Result(w, []);
      SettleFlag(StateUpdate(s.w.(band := band), f.sn, f.amsdu).w, f, fast, node, tick);
    }
  }

  /** The flag only has frames sent that are freed without it: the windows are the
      same, and what is sent without it is sent in the same order. */
  lemma {:induction false} RunFlag(w: Window, ins: seq<Input>, fast: bool)
    requires 0 <= w.win < 512
    ensures var a, b := Run(w, ins, false), Run(w, ins, fast);
            b.w == a.w && Bridges(a.out, b.out)
    decreases |ins|
  {
    hide Classify, Timeout, Bar, Flush;
    if ins != [] {
      if ins[0].Rx? { RxFlag(w, ins[0].f, ins[0].band, fast, ins[0].node, ins[0].tick); }
      StepKeepsWin(w, ins[0], false);
      RunFlag(Step(w, ins[0], false).w, ins[1..], fast);
    }
  }

  // ---------------------------------------------------------------- the open A-MSDU

  predicate OnlyFrom(hs': seq<Held>, hs: seq<Held>) {
    forall i :: 0 <= i < |hs'| ==> hs'[i] in hs
  }

  lemma ReleaseOnly(w: Window, s: int)
    ensures OnlyFrom(ReleaseTo(w, s).w.held, w.held)
  {
  }

  lemma {:induction false} TimeoutOnly(w: Window, now: int, limit: int)
    ensures OnlyFrom(Timeout(w, now, limit).w.held, w.held)
    decreases |w.held|
  {
    if w.held != [] && Expired(w.held[0], now, limit) {
      var a := ReleaseTo(w, w.held[0].first.sn);
      ReleaseOnly(w, w.held[0].first.sn);
      TimeoutOnly(a.w, now, limit);
    }
  }

  /** A note outlives what only takes held MPDUs off and moves the last SN. */
  lemma StaysOpened(w: Window, l: int, a: int, w': Window, l': int)
    requires Opened(w, l, a) && l <= l' && OnlyFrom(w'.held, w.held)
    requires w'.flag == w.flag && w'.amsdu == w.amsdu && w'.refSn == w.refSn
    requires w.flag == 0 && InAmsdu(w) ==> l' <= a + 2560
    ensures Opened(w', l', a)
  {
    if w.flag == 0 && InAmsdu(w) {
      forall i | 0 <= i < |w'.held| ensures w'.held[i].first.usn <= a + 510 {
        assert w'.held[i] in w.held;
        var j :| 0 <= j < |w.held| && w.held[j] == w'.held[i];
      }
    }
  }

  lemma ScanOpened(w: Window, l: int, a: int, now: int, limit: int)
    requires Inv(w, l) && Opened(w, l, a)
    ensures var w' := Timeout(w, now, limit).w; Opened(w', Track(l, w, w'), a)
  {
    var w' := Timeout(w, now, limit).w;
    var hi := if w.flag == 0 && InAmsdu(w) && a + 510 < l + w.win then a + 510 else l + w.win;
    if w.held == [] {
      Tracked(l, l, w, w);
    } else {
      var l' := TimeoutOk(w, l, hi, now, limit);
      Tracked(l, l', w, w');
      TimeoutOnly(w, now, limit);
      StaysOpened(w, l, a, w', l');
    }
  }

  lemma FlushOpened(w: Window, l: int, a: int)
    requires Inv(w, l) && Opened(w, l, a)
    ensures var w' := Flush(w).w; Opened(w', Track(l, w, w'), a)
  {
    var l' := l;
    if w.held != [] {
      HeldSn(w.held, |w.held| - 1, l + 2, l + w.win);
      l' := w.held[|w.held| - 1].first.usn;
    }
    Tracked(l, l', w, Flush(w).w);
  }

  lemma UpdateOpened(w: Window, l: int, a: int, sn: int, kind: int) returns (m: int)
    requires Inv(w, l) && Opened(w, l, a) && !Rewinds(w, sn, kind)
    ensures var u := StateUpdate(w, sn, kind).w;
            && Inv(u, m) && l <= m <= l + 512 && Opened(u, m, a)
            && (Restarts(w, sn, kind) && w.flag == 0 ==> m <= a + 512)
            && u.flag == w.flag && u.amsdu == w.amsdu && (kind == 3 ==> u.chain == Null)
  {
    m := StateUpdateOk(w, l, sn, kind);
    if Restarts(w, sn, kind) && w.flag == 0 {
      var m' := RewindsExactly(w, l, a, sn, kind);
    } else {
      SameLow(m, l);
    }
    StaysOpened(w, l, a, StateUpdate(w, sn, kind).w, m);
  }

  lemma BarOpened(w: Window, l: int, a: int, ssn: int)
    requires Inv(w, l) && Opened(w, l, a) && 0 <= ssn < 4096 && !Rewinds(w, ssn, 3)
    ensures var w' := Bar(w, ssn).w; Opened(w', Track(l, w, w'), a)
  {
    hide Inv, Opened, Extends, StateUpdate, ReleaseTo, Low12, Bit11, Track;
    var m := UpdateOpened(w, l, a, ssn, 3);
    var u := StateUpdate(w, ssn, 3).w;
    var l' := BarOk(w, l, ssn);
    var w' := Bar(w, ssn).w;
    BarTracked(w, l, l', w');
    if Bit11(u.last - ssn) {
      l' := BarAhead(u, m, ssn);
      BarTracked(w, l, l', w');
      ReleaseOnly(u, BarTarget(ssn));
      ReleaseFrame(u, BarTarget(ssn));
      StaysOpened(u, m, a, w', l');
    } else {
      BarTracked(w, l, m, w');
    }
  }

  lemma BarTracked(w: Window, l: int, l': int, w': Window)
    requires Inv(w, l) && Inv(w', l') && l <= l' < l + 4096
    ensures Track(l, w, w') == l'
  {
    Tracked(l, l', w, w');
  }

  lemma ReleaseFrame(w: Window, s: int)
    ensures var w' := ReleaseTo(w, s).w; w'.flag == w.flag && w'.amsdu == w.amsdu && w'.refSn == w.refSn
  {
  }

  /** A frame either leaves the window as the retransmit check left it, or opens
      an A-MSDU itself, or leaves no note. */
  lemma RxOpened(w: Window, l: int, a: int, f: Frame, band: int, node: bool, tick: int) returns (a': int)
    requires Inv(w, l) && w.state == RUNNING && CalmFrame(w.(band := band), l, f) && Opened(w, l, a)
    ensures var w' := Classify(w, f, band, false, node, tick).w; Opened(w', Track(l, w, w'), a')
  {
    hide StateUpdate, Settle, Extends, Low12, HeldOk;
    var b := w.(band := band);
    assert Inv(b, l) by { assert Live(w) == Live(b); }
    var l' := RxOk(w, l, f, band, node, tick);
    var w' := Classify(w, f, band, false, node, tick).w;
    BarTracked(w, l, l', w');
    var m := UpdateOpened(b, l, a, f.sn, f.amsdu);
    var u := StateUpdate(b, f.sn, f.amsdu).w;
    a' := a;
    if w'.flag == 0 && InAmsdu(w') {
      if w' == u {
        BarTracked(w, l, m, w');
      } else {
        a' := f.usn;
        NoteOpened(w', l', f);
      }
    }
  }

  lemma NoteOpened(w: Window, l: int, f: Frame)
    requires Inv(w, l) && f.Ok() && w.refSn == f.sn && f.usn == l + 1
    ensures Opened(w, l, f.usn)
  {
  }

  /** The running number of the open A-MSDU is known after every covered step. */
  lemma StepOpened(w: Window, l: int, a: int, i: Input) returns (a': int)
    requires Inv(w, l) && w.state == RUNNING && Calm(w, l, i) && Opened(w, l, a)
    ensures var w' := Step(w, i, false).w; Opened(w', Track(l, w, w'), a')
  {
    a' := a;
    match i {
      case Rx(f, band, node, tick) => a' := RxOpened(w, l, a, f, band, node, tick);
      case Scan(now, limit) => ScanOpened(w, l, a, now, limit);
      case BarMsg(ssn) => BarOpened(w, l, a, ssn);
      case FlushBand => FlushOpened(w, l, a);
    }
  }

  lemma {:induction false} RunOpened(w: Window, l: int, a: int, ins: seq<Input>) returns (l': int, a': int)
    requires Inv(w, l) && w.state == RUNNING && CalmRun(w, l, ins) && Opened(w, l, a)
    ensures var w' := Run(w, ins, false).w; Inv(w', l') && Opened(w', l', a')
    decreases |ins|
  {
    l', a' := l, a;
    assert 0 <= w.win < 512;
    hide Inv, Opened, Step, Calm;
    if ins != [] {
      StepKeepsWin(w, ins[0], false);
      var m := StepOk(w, l, ins[0]);
      var b := StepOpened(w, l, a, ins[0]);
      l', a' := RunOpened(Step(w, ins[0], false).w, m, b, ins[1..]);
    }
  }

  /** The second failure of in-order delivery, exactly: after any covered run, the
      next frame or BAR that has the retransmit check act on an A-MSDU sent in order
      pulls the last SN back if and only if last has passed that A-MSDU. It then
      goes to the A-MSDU's number, and nothing is sent. */
  lemma PulledBackExactly(w: Window, l: int, a: int, ins: seq<Input>, w': Window, sn: int, kind: int)
      returns (l': int, a': int)
    requires Inv(w, l) && w.state == RUNNING && CalmRun(w, l, ins) && Opened(w, l, a)
    requires w' == Run(w, ins, false).w && Restarts(w', sn, kind) && w'.flag == 0
    ensures w'.last == Low12(l') && w'.refSn == Low12(a') && a' - 1 <= l' <= a' + 2560
    ensures Rewinds(w', sn, kind) <==> a' < l'
    ensures a' < l' ==> StateUpdate(w', sn, kind) == Result(w'.(chain := Null, last := Low12(a')), [])
  {
    hide Run, CalmRun;
    l', a' := RunOpened(w, l, a, ins);
    var m := RewindsExactly(w', l', a', sn, kind);
  }
}
