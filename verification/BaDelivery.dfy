/** The reorder window over whole runs: the 12-bit tests agree with integer
    comparison, the hold list stays sorted inside the window, the A-MSDU head
    pointer is never stale when it is followed, and frames leave in order. */
module BaDelivery {
  import opened Seq12
  import opened BaWindow

  // ---------------------------------------------------------------- invariant

  /** One MPDU: every frame carries its SN, and only the last chained MSDU may
      end the A-MSDU. */
  predicate RowOk(h: Held) {
    var fs := h.Frames();
    forall j :: 0 <= j < |fs| ==>
      fs[j].Ok() && fs[j].usn == h.first.usn && (j < |fs| - 1 ==> fs[j].amsdu > 1)
  }

  /** Strictly sorted, and inside [lo, hi] on the sender's running numbers. */
  predicate HeldOk(hs: seq<Held>, lo: int, hi: int) {
    && (forall i :: 0 <= i < |hs| ==> RowOk(hs[i]) && lo <= hs[i].first.usn <= hi)
    && (forall i, j :: 0 <= i < j < |hs| ==> hs[i].first.usn < hs[j].first.usn)
  }

  /** The head pointer names a held MPDU with the noted SN that still waits for
      MSDUs. */
  predicate Live(w: Window) {
    && w.chain.At? && w.chain.i < |w.held|
    && w.held[w.chain.i].first.sn == w.refSn && !w.held[w.chain.i].Last().Final()
  }

  /** The MPDU it named has been released: its SN is at or behind the last. */
  predicate Spent(w: Window, l: int) {
    var d := Low12(w.last - w.refSn);
    w.chain.Stale? && d < 512 && forall i :: 0 <= i < |w.held| ==> w.held[i].first.usn + d < l + 512
  }

  /** The window against l, the running number of its last SN. */
  predicate Inv(w: Window, l: int) {
    && 0 <= w.win < 512 && w.last == Low12(l)
    && 0 <= w.refSn < 4096 && 0 <= w.amsdu <= 3
    && HeldOk(w.held, l + 2, l + w.win)
    && (w.chain != Null ==> InAmsdu(w) && (Live(w) || Spent(w, l)))
  }

  // ---------------------------------------------------------------- order

  function SentOf(out: seq<Event>): seq<Frame> {
    if out == [] then []
    else (if out[0].Sent? then [out[0].f] else []) + SentOf(out[1..])
  }

  /** Strictly increasing, except that the MSDUs of one A-MSDU share its SN:
      a number repeats only behind a frame that does not end its A-MSDU. */
  predicate Ordered(log: seq<Frame>) {
    forall i, j :: 0 <= i < j < |log| ==>
      log[i].usn < log[j].usn || (log[i].usn == log[j].usn && !log[i].Final())
  }

  /** Nothing past l has left, but for a begun A-MSDU with the next SN. */
  predicate Below(log: seq<Frame>, l: int) {
    forall i :: 0 <= i < |log| ==> log[i].usn <= l || (log[i].usn == l + 1 && !log[i].Final())
  }

  predicate Extends(log: seq<Frame>, l: int, l': int) {
    && l <= l' && Ordered(log) && Below(log, l')
    && forall i :: 0 <= i < |log| ==> l < log[i].usn
  }

  lemma {:induction false} SentOfConcat(a: seq<Event>, b: seq<Event>)
    ensures SentOf(a + b) == SentOf(a) + SentOf(b)
  {
    if a == [] {
      assert a + b == b;
    } else {
      var x := if a[0].Sent? then [a[0].f] else [];
      assert (a + b)[0] == a[0] && (a + b)[1..] == a[1..] + b;
      SentOfConcat(a[1..], b);
      assert x + (SentOf(a[1..]) + SentOf(b)) == (x + SentOf(a[1..])) + SentOf(b);
    }
  }

  lemma ExtendsThen(a: seq<Event>, b: seq<Event>, l: int, m: int, n: int)
    requires Extends(SentOf(a), l, m) && Extends(SentOf(b), m, n)
    ensures Extends(SentOf(a + b), l, n)
  {
    SentOfConcat(a, b);
  }

  lemma {:induction false} SentOfFrames(fs: seq<Frame>, band: int, bss: int)
    ensures SentOf(SendFrames(fs, band, bss)) == fs
  {
    if fs != [] {
      var out := SendFrames(fs, band, bss);
      assert out[1..] == SendFrames(fs[1..], band, bss);
      SentOfFrames(fs[1..], band, bss);
    }
  }

  lemma {:induction false} SendAllExtends(hs: seq<Held>, band: int, l: int, l': int)
    requires l <= l' && HeldOk(hs, l + 1, l')
    ensures Extends(SentOf(SendAll(hs, band)), l, l')
  {
    if hs != [] {
      var u := hs[0].first.usn;
      SentOfFrames(hs[0].Frames(), band, hs[0].first.bss);
      assert RowOk(hs[0]);
      assert Extends(SentOf(Send(hs[0], band)), l, u);
      SendAllExtends(hs[1..], band, u, l');
      ExtendsThen(Send(hs[0], band), SendAll(hs[1..], band), l, u, l');
    }
  }

  // ---------------------------------------------------------------- 12-bit tests

  /** The classifier's four tests read as integer comparisons on running numbers. */
  lemma PlaceIs(w: Window, l: int, f: Frame)
    requires 0 <= w.win < 512 && w.last == Low12(l)
    requires f.Ok() && -2048 <= f.usn - l < 2048
    ensures PlaceOf(w, f.sn) ==
            if f.usn == l + 1 then InOrder
            else if f.usn == l then Duplicate
            else if f.usn < l then Behind
            else if f.usn <= l + w.win then Inside
            else Past
  {
    Low12Add(l, 1);
    if Low12(l + 1) == f.sn { SameLow(l + 1, f.usn); }
    Bit11Compares(f.usn, l);
    Low12Add(l, w.win + 1);
    if f.usn > l {
      Bit11Compares(f.usn, l + w.win + 1);
    }
  }

  lemma {:induction false} LeCountIs(hs: seq<Held>, s: int, lo: int, hi: int)
    requires HeldOk(hs, lo, hi) && s - 2048 <= lo && hi <= s + 2047
    ensures var n := LeCount(hs, Low12(s));
            && (forall i :: 0 <= i < n ==> hs[i].first.usn <= s)
            && (forall i :: n <= i < |hs| ==> hs[i].first.usn > s)
  {
    if hs != [] {
      var h := hs[0];
      assert RowOk(h) && h.Frames()[0] == h.first;
      Bit11Compares(h.first.usn, s);
      if h.first.usn <= s {
        LeCountIs(hs[1..], s, lo, hi);
      }
    }
  }

  lemma {:induction false} ScanCountIs(hs: seq<Held>, s: int, hi: int)
    requires HeldOk(hs, s + 1, hi) && hi <= s + 4095
    ensures var n := ScanCount(hs, Low12(s));
            && (forall i :: 0 <= i < n ==> hs[i].first.usn == s + 1 + i)
            && (forall i :: n <= i < |hs| ==> hs[i].first.usn > s + 1 + n)
    decreases |hs|
  {
    if hs != [] {
      var h := hs[0];
      assert RowOk(h) && h.Frames()[0] == h.first;
      Low12Add(s, 1);
      var q := h.first.usn / 4096;
      if h.first.usn == s + 1 {
        assert h.first.sn == Low12(s + 1);
        ScanCountIs(hs[1..], s + 1, hi);
        assert ScanCount(hs, Low12(s)) == 1 + ScanCount(hs[1..], Low12(s + 1));
        forall i | 0 <= i < ScanCount(hs, Low12(s)) ensures hs[i].first.usn == s + 1 + i {
          if i > 0 { assert hs[i] == hs[1..][i - 1]; }
        }
        forall i | ScanCount(hs, Low12(s)) <= i < |hs| ensures hs[i].first.usn > s + 1 + ScanCount(hs, Low12(s)) {
          assert hs[i] == hs[1..][i - 1];
        }
      } else {
        DifferentLow(h.first.usn, s + 1);
      }
    }
  }

  // ---------------------------------------------------------------- release steps

  lemma PopOk(w: Window, n: nat, l: int, s: int, hi: int)
    requires n <= |w.held| && l <= s && HeldOk(w.held, l + 1, hi)
    requires forall i :: 0 <= i < n ==> w.held[i].first.usn <= s
    requires forall i :: n <= i < |w.held| ==> w.held[i].first.usn > s
    ensures HeldOk(Pop(w, n).w.held, s + 1, hi)
    ensures Extends(SentOf(Pop(w, n).out), l, s)
  {
    SendAllExtends(w.held[..n], w.band, l, s);
  }

  /** Advancing to s releases exactly the run after s. */
  lemma AdvanceOk(w: Window, s: int, t: int, hi: int) returns (l: int)
    requires t == Low12(s) && HeldOk(w.held, s + 1, hi) && hi <= s + 4095
    ensures var r := Advance(w, t);
            && s <= l && r.w.last == Low12(l) && r.w == w.(last := r.w.last, held := r.w.held, chain := r.w.chain)
            && HeldOk(r.w.held, l + 2, hi) && Extends(SentOf(r.out), s, l)
            && l - s <= |w.held| && r.w.held == w.held[l - s..]
            && r.w.chain == w.chain.Behind(l - s) && (l == s || l <= hi)
  {
    var n := ScanCount(w.held, t);
    ScanCountIs(w.held, s, hi);
    l := s + n;
    if n > 0 {
      assert w.held[n - 1].first.usn == l;
      assert RowOk(w.held[n - 1]) && w.held[n - 1].Frames()[0] == w.held[n - 1].first;
    }
    PopOk(w, n, s, l, hi);
    assert HeldOk(w.held[n..], l + 2, hi);
  }

  /** A release to s, on a window whose frames are less than half the space
      away, takes off the held numbers up to s and the run behind them. */
  lemma ReleaseToOk(w: Window, l: int, s: int, t: int, hi: int) returns (l': int)
    requires t == Low12(s) && HeldOk(w.held, l + 2, hi)
    requires l <= s <= l + 2048 && hi <= s + 2047
    ensures var r := ReleaseTo(w, t);
            && s <= l' && r.w.last == Low12(l') && r.w == w.(last := r.w.last, held := r.w.held, chain := r.w.chain)
            && HeldOk(r.w.held, l' + 2, hi) && Extends(SentOf(r.out), l, l')
            && (l' == s || l' <= hi) && (w.chain == Null ==> r.w.chain == Null)
  {
    hide HeldOk, Extends, LeCount, Advance, ScanCount, SendAll, Low12;
    var le := Pop(w, LeCount(w.held, t));
    LeOk(w, l, s, t, hi);
    l' := AdvanceOk(le.w, s, t, hi);
    ExtendsThen(le.out, Advance(le.w, t).out, l, s, l');
    AdvanceFrame(le.w, t);
  }

  /** The part up to and including s. */
  lemma LeOk(w: Window, l: int, s: int, t: int, hi: int)
    requires t == Low12(s) && HeldOk(w.held, l + 2, hi)
    requires l <= s <= l + 2048 && hi <= s + 2047
    ensures var le := Pop(w, LeCount(w.held, t));
            HeldOk(le.w.held, s + 1, hi) && Extends(SentOf(le.out), l, s)
  {
    LeCountIs(w.held, s, l + 2, hi);
    PopOk(w, LeCount(w.held, t), l, s, hi);
  }

  /** An advance touches the last SN, the list and the head pointer only. */
  lemma AdvanceFrame(w: Window, t: int)
    ensures var r := Advance(w, t).w;
            r == w.(last := r.last, held := r.held, chain := r.chain) && (w.chain == Null ==> r.chain == Null)
  {
    hide ScanCount, SendAll;
  }

  /** What a release to a held number takes off the front. */
  lemma ReleaseToHead(w: Window, s: int, t: int, hi: int) returns (k: nat)
    requires t == Low12(s) && HeldOk(w.held, s, hi) && hi <= s + 2047 && w.held != [] && w.held[0].first.usn == s
    ensures 0 < k <= |w.held| && ReleaseTo(w, t).w.held == w.held[k..]
    ensures ReleaseTo(w, t).w.last == Low12(w.held[k - 1].first.usn)
    ensures ReleaseTo(w, t).w.chain == w.chain.Behind(k)
    ensures forall i :: 0 <= i < k ==> w.held[i].first.usn == s + i
  {
    hide LeCount, ScanCount, SendAll, Low12, HeldOk;
    HeadAlone(w.held, s, t, hi);
    var rest := w.held[1..];
    ScanCountIs(rest, s, hi);
    k := 1 + ScanCount(rest, t);
    assert forall i :: 0 < i < k ==> w.held[i] == rest[i - 1];
    assert rest[k - 1..] == w.held[k..];
    HeldSn(w.held, k - 1, s, hi);
    if k == 1 { HeldSn(w.held, 0, s, hi); }
  }

  /** Releasing up to the head takes the head only. */
  lemma HeadAlone(hs: seq<Held>, s: int, t: int, hi: int)
    requires t == Low12(s) && HeldOk(hs, s, hi) && hi <= s + 2047 && hs != [] && hs[0].first.usn == s
    ensures LeCount(hs, t) == 1 && HeldOk(hs[1..], s + 1, hi)
  {
    LeCountIs(hs, s, s, hi);
  }

  lemma HeldSn(hs: seq<Held>, i: nat, lo: int, hi: int)
    requires HeldOk(hs, lo, hi) && i < |hs|
    ensures hs[i].first.sn == Low12(hs[i].first.usn)
  {
    assert RowOk(hs[i]) && hs[i].Frames()[0].Ok();
  }

  /** A head pointer survives a timeout: it stays live, or its MPDU is spent. */
  lemma TimeoutStep(w: Window, l: int, hi: int) returns (l': int)
    requires Inv(w, l) && w.held != [] && HeldOk(w.held, l + 2, hi) && hi <= l + w.win
    ensures var r := ReleaseTo(w, w.held[0].first.sn);
            && Inv(r.w, l') && l <= l' <= hi && HeldOk(r.w.held, l' + 2, hi)
            && Extends(SentOf(r.out), l, l')
            && r.w == w.(last := r.w.last, held := r.w.held, chain := r.w.chain)
  {
    var s, t := w.held[0].first.usn, w.held[0].first.sn;
    assert RowOk(w.held[0]) && w.held[0].Frames()[0].Ok();
    l' := ReleaseToOk(w, l, s, t, hi);
    var r := ReleaseTo(w, t).w;
    Widen(r.held, l' + 2, hi, l' + w.win);
    if w.chain != Null { TimeoutChain(w, l, l'); }
  }

  lemma TimeoutChain(w: Window, l: int, l': int)
    requires Inv(w, l) && w.chain != Null && w.held != []
    requires w.held[0].first.usn <= l' <= l + w.win
    requires Low12(l') == ReleaseTo(w, w.held[0].first.sn).w.last
    ensures var w' := ReleaseTo(w, w.held[0].first.sn).w; Live(w') || Spent(w', l')
  {
    var s, t := w.held[0].first.usn, w.held[0].first.sn;
    assert RowOk(w.held[0]) && w.held[0].Frames()[0].Ok();
    var k := ReleaseToHead(w, s, t, l + w.win);
    SameLow(l', w.held[k - 1].first.usn);
    ChainKept(w, ReleaseTo(w, t).w, l, l', k);
  }

  lemma ChainKept(w: Window, w': Window, l: int, l': int, k: nat)
    requires Inv(w, l) && w.chain != Null
    requires w'.refSn == w.refSn && w'.last == Low12(l') && w'.chain == w.chain.Behind(k)
    requires 0 < k <= |w.held| && w'.held == w.held[k..] && l' == w.held[k - 1].first.usn
    ensures Live(w') || Spent(w', l')
  {
    if !Live(w) {
      SpentMoves(l, l', w.refSn, Low12(w.last - w.refSn));
    } else if w.chain.i >= k {
      assert w'.held[w.chain.i - k] == w.held[w.chain.i];
    } else {
      var h := w.held[w.chain.i];
      assert RowOk(h) && h.Frames()[0].Ok();
      LowDiff(l', h.first.usn);
      assert forall j :: 0 <= j < |w'.held| ==> w'.held[j] == w.held[j + k];
    }
  }

  lemma {:induction false} TimeoutOk(w: Window, l: int, hi: int, now: int, limit: int) returns (l': int)
    requires Inv(w, l) && HeldOk(w.held, l + 2, hi) && l <= hi <= l + w.win
    ensures var r := Timeout(w, now, limit);
            && Inv(r.w, l') && l <= l' <= hi && Extends(SentOf(r.out), l, l')
            && r.w == w.(last := r.w.last, held := r.w.held, chain := r.w.chain)
    decreases |w.held|
  {
    l' := l;
    if w.held != [] && Expired(w.held[0], now, limit) {
      var m := TimeoutStep(w, l, hi);
      var a := ReleaseTo(w, w.held[0].first.sn);
      l' := TimeoutOk(a.w, m, hi, now, limit);
      ExtendsThen(a.out, Timeout(a.w, now, limit).out, l, m, l');
    }
  }

  lemma FlushOk(w: Window, l: int) returns (l': int)
    requires Inv(w, l)
    ensures Inv(Flush(w).w, l') && l <= l' <= l + 511 && Extends(SentOf(Flush(w).out), l, l')
  {
    l' := l;
    if w.held != [] {
      var h := w.held[|w.held| - 1];
      assert RowOk(h) && h.Frames()[0].Ok();
      l' := h.first.usn;
    }
    SendAllExtends(w.held, w.band, l, l');
  }

  /** A BAR releases everything before its SSN: ahead of the window, the last SN
      becomes the one before it and the run behind follows. */
  lemma BarOk(w: Window, l: int, ssn: int) returns (l': int)
    requires Inv(w, l) && 0 <= ssn < 4096 && !Rewinds(w, ssn, 3)
    ensures Inv(Bar(w, ssn).w, l') && l <= l' <= l + 2560 && Extends(SentOf(Bar(w, ssn).out), l, l')
  {
    hide Inv, Extends, StateUpdate, ReleaseTo, Low12, Rewinds;
    var m := StateUpdateOk(w, l, ssn, 3);
    var u := StateUpdate(w, ssn, 3);
    l' := m;
    if Bit11(u.w.last - ssn) {
      l' := BarAhead(u.w, m, ssn);
      ExtendsThen(u.out, ReleaseTo(u.w, BarTarget(ssn)).out, l, m, l');
    }
  }

  lemma BarAhead(w: Window, l: int, ssn: int) returns (l': int)
    requires Inv(w, l) && w.chain == Null && 0 <= ssn < 4096 && Bit11(w.last - ssn)
    ensures var r := ReleaseTo(w, BarTarget(ssn));
            Inv(r.w, l') && l <= l' <= l + 2047 && Extends(SentOf(r.out), l, l')
  {
    hide ReleaseTo, BarTarget, Bit11, Low12, HeldOk, Extends;
    var t := BarTarget(ssn);
    var d := BarDistance(w.last, l, ssn);
    l' := ReleaseToOk(w, l, l + d - 1, t, l + w.win);
    Widen(ReleaseTo(w, t).w.held, l' + 2, l + w.win, l' + w.win);
  }

  /** How far ahead a BAR's SSN is. */
  lemma BarDistance(last: int, l: int, ssn: int) returns (d: int)
    requires last == Low12(l) && 0 <= ssn < 4096 && Bit11(last - ssn)
    ensures 1 <= d <= 2048 && d == Low12(ssn - last) && BarTarget(ssn) == Low12(l + d - 1)
  {
    d := Low12(ssn - last);
    Bit11Half(last - ssn);
    LowNegated(last - ssn);
    Low12Add(ssn - last, last - 1);
    Low12Add(l, d - 1);
    assert BarTarget(ssn) == Low12(ssn - 1);
  }

  // ---------------------------------------------------------------- classifier steps

  /** ba_state_update would set the last SN to anything but itself or the next:
      an A-MSDU was left unfinished and the window has moved since. */
  predicate Rewinds(w: Window, sn: int, kind: int) {
    Restarts(w, sn, kind) && w.flag == 0 && w.refSn != w.last && w.refSn != Low12(w.last + 1)
  }

  lemma AdvanceInv(w: Window, s: int, t: int, hi: int) returns (l': int)
    requires t == Low12(s) && 0 <= w.win < 512 && 0 <= w.refSn < 4096 && 0 <= w.amsdu <= 3 && w.chain == Null
    requires HeldOk(w.held, s + 1, hi) && hi <= s + w.win
    ensures var r := Advance(w, t);
            && Inv(r.w, l') && s <= l' <= s + 511 && Extends(SentOf(r.out), s, l')
            && r.w == w.(last := r.w.last, held := r.w.held, chain := r.w.chain)
  {
    l' := AdvanceOk(w, s, t, hi);
    Widen(Advance(w, t).w.held, l' + 2, hi, l' + w.win);
  }

  lemma Widen(hs: seq<Held>, lo: int, hi: int, hi': int)
    requires HeldOk(hs, lo, hi) && hi <= hi'
    ensures HeldOk(hs, lo, hi')
  {
  }

  lemma StateUpdateOk(w: Window, l: int, sn: int, kind: int) returns (l': int)
    requires Inv(w, l) && !Rewinds(w, sn, kind)
    ensures var u := StateUpdate(w, sn, kind);
            && Inv(u.w, l') && l <= l' <= l + 512 && Extends(SentOf(u.out), l, l')
            && u.w == w.(last := u.w.last, held := u.w.held, chain := u.w.chain)
            && (u.w.chain != Null ==> u.w == w && w.refSn == sn && kind != 3)
  {
    l' := l;
    if Restarts(w, sn, kind) && w.flag == 0 {
      Low12Add(l, 1);
      var s := if w.refSn == w.last then l else l + 1;
      l' := AdvanceInv(w.(chain := Null), s, w.refSn, l + w.win);
      assert Extends([], l, s);
    }
  }

  /** The SN a set head pointer stands for is held, or at most 511 behind. */
  lemma ChainPlace(w: Window, l: int, f: Frame)
    requires Inv(w, l) && w.chain != Null && f.Ok() && f.sn == w.refSn
    requires -2048 <= f.usn - l < 2048
    ensures Live(w) ==> w.held[w.chain.i].first.usn == f.usn
    ensures !Live(w) ==> f.usn <= l
  {
    if Live(w) {
      var h := w.held[w.chain.i];
      assert RowOk(h) && h.Frames()[0].Ok();
      SameLow(h.first.usn, f.usn);
    } else if f.usn > l {
      LowDiff(f.usn, l);
      LowNegated(w.last - f.sn);
    }
  }

  lemma NotedOk(w: Window, l: int, f: Frame, flag: int)
    requires Inv(w, l) && f.Ok() && (w.chain != Null ==> f.sn == w.refSn)
    ensures Inv(Noted(w, f, flag), l)
  {
    if Live(w) && !f.Final() { assert Live(Noted(w, f, flag)); }
  }

  lemma AppendOk(w: Window, l: int, f: Frame, tick: int)
    requires Inv(w, l) && w.chain != Null && f.Ok() && f.sn == w.refSn && l + 2 <= f.usn <= l + w.win
    ensures var o := Hold(w, f, true, tick); Inv(o.w, l) && o.fate == Taken && o.out == []
  {
    ChainPlace(w, l, f);
    var i := w.chain.i;
    var prev, row := w.held[i], w.held[i].(subs := w.held[i].subs + [f]);
    assert row.Frames() == prev.Frames() + [f];
    assert prev.Last() == prev.Frames()[|prev.Frames()| - 1];
    assert RowOk(prev);
    assert RowOk(row);
    var w' := Hold(w, f, true, tick).w;
    assert forall j :: 0 <= j < |w.held| ==> w'.held[j].first == w.held[j].first;
  }

  /** While flag 0 and an A-MSDU are noted, a is the running number of that open
      A-MSDU: it went out in order as the next after last. Since then only
      timeouts, flushes and one BAR can have moved the window. */
  predicate Opened(w: Window, l: int, a: int) {
    w.flag == 0 && InAmsdu(w) ==>
      && w.refSn == Low12(a) && a - 1 <= l <= a + 2560
      && forall i :: 0 <= i < |w.held| ==> w.held[i].first.usn <= a + 510
  }

  /** A frame leaves the window as it stands, or leaves its own note. */
  predicate NotedBy(w: Window, w': Window, f: Frame, l': int) {
    w'.flag == 0 && InAmsdu(w') ==> w' == w || (w'.refSn == f.sn && f.usn == l' + 1)
  }

  /** The retransmit check pulls last back if and only if last has passed the open
      A-MSDU: it then goes to that number, and nothing is sent. */
  lemma RewindsExactly(w: Window, l: int, a: int, sn: int, kind: int) returns (l': int)
    requires Inv(w, l) && Opened(w, l, a) && Restarts(w, sn, kind) && w.flag == 0
    ensures Rewinds(w, sn, kind) <==> a < l
    ensures a < l ==> StateUpdate(w, sn, kind) == Result(w.(chain := Null, last := Low12(a)), [])
    ensures a >= l ==> Inv(StateUpdate(w, sn, kind).w, l') && l <= l' <= l + 512
  {
    l' := l;
    if a < l {
      PassedDiffers(l, a);
      NothingFollows(w, l, a);
    } else {
      Low12Add(l, 1);
      l' := StateUpdateOk(w, l, sn, kind);
    }
  }

  lemma PassedDiffers(l: int, a: int)
    requires a < l <= a + 3583
    ensures Low12(a) != Low12(l) && Low12(a) != Low12(Low12(l) + 1)
  {
    DifferentLow(l, a);
    DifferentLow(l + 1, a);
    Low12Add(l, 1);
  }

  /** No held frame follows an SN that last has passed. */
  lemma NothingFollows(w: Window, l: int, a: int)
    requires Inv(w, l) && a < l <= a + 3583
    ensures Advance(w.(chain := Null), Low12(a)) == Result(w.(chain := Null, last := Low12(a)), [])
  {
    if w.held != [] {
      HeldSn(w.held, 0, l + 2, l + w.win);
      DifferentLow(w.held[0].first.usn, a + 1);
      Low12Add(a, 1);
    }
  }

  /** The failing family: once last has passed an open A-MSDU, the frame behind
      that A-MSDU, however late, is taken as the next one and sent. */
  lemma LateFrameSent(w: Window, l: int, a: int, f: Frame, node: bool, tick: int)
    requires Inv(w, l) && Opened(w, l, a) && InAmsdu(w) && w.flag == 0 && a < l
    requires f.Ok() && f.usn == a + 1
    ensures var out := Receive(w, f, false, node, tick).out;
            f.usn <= l && out != [] && out[0] == Sent(f, w.band, f.bss)
  {
    NothingFollows(w, l, a);
    PassedDiffers(l, a);
    DifferentLow(a + 1, a);
    Low12Add(a, 1);
    var u := w.(chain := Null, last := Low12(a));
    assert StateUpdate(w, f.sn, f.amsdu) == Result(u, []);
    assert PlaceOf(u, f.sn) == InOrder;
    hide StateUpdate, PlaceOf, Advance, Opened, PeerRestarted, Hold, Slide;
  }

  lemma HeldCompares(h: Held, f: Frame)
    requires RowOk(h) && f.Ok() && -2048 <= h.first.usn - f.usn < 2048
    ensures Bit11(h.first.sn - f.sn) <==> h.first.usn < f.usn
    ensures h.first.sn == f.sn <==> h.first.usn == f.usn
  {
    assert h.Frames()[0].Ok();
    Bit11Compares(h.first.usn, f.usn);
  }

  /** The 12-bit search stops where the running number belongs. */
  lemma {:induction false} InsertAtIs(hs: seq<Held>, f: Frame, lo: int, hi: int)
    requires HeldOk(hs, lo, hi) && f.Ok() && lo <= f.usn <= hi && hi <= lo + 2047
    ensures var i := InsertAt(hs, f.sn);
            && (forall j :: 0 <= j < i ==> hs[j].first.usn < f.usn)
            && (forall j :: i <= j < |hs| ==> f.usn <= hs[j].first.usn)
  {
    var i := InsertAt(hs, f.sn);
    if i > 0 { HeldCompares(hs[i - 1], f); }
    if i < |hs| { HeldCompares(hs[i], f); }
  }

  lemma Spliced(hs: seq<Held>, i: nat, h: Held, lo: int, hi: int)
    requires HeldOk(hs, lo, hi) && i <= |hs| && RowOk(h) && lo <= h.first.usn <= hi
    requires forall j :: 0 <= j < i ==> hs[j].first.usn < h.first.usn
    requires forall j :: i <= j < |hs| ==> h.first.usn < hs[j].first.usn
    ensures HeldOk(hs[..i] + [h] + hs[i..], lo, hi)
  {
    var r := hs[..i] + [h] + hs[i..];
    assert forall j :: 0 <= j < |r| ==> r[j] == if j < i then hs[j] else if j == i then h else hs[j - 1];
  }

  lemma InsertedOk(w: Window, l: int, f: Frame, i: nat, h: Held)
    requires Inv(w, l) && w.chain == Null && i <= |w.held|
    requires h.first == f && h.subs == [] && RowOk(h) && l + 2 <= f.usn <= l + w.win
    requires forall j :: 0 <= j < i ==> w.held[j].first.usn < f.usn
    requires forall j :: i <= j < |w.held| ==> f.usn < w.held[j].first.usn
    ensures Inv(Noted(w.(held := w.held[..i] + [h] + w.held[i..], chain := At(i)), f, 3), l)
  {
    var hs := w.held[..i] + [h] + w.held[i..];
    Spliced(w.held, i, h, l + 2, l + w.win);
    assert hs[i] == h;
  }

  lemma InsertOk(w: Window, l: int, f: Frame, tick: int)
    requires Inv(w, l) && w.chain == Null && f.Ok() && l + 2 <= f.usn <= l + w.win
    ensures var o := Hold(w, f, true, tick); Inv(o.w, l) && o.fate == Taken && SentOf(o.out) == []
  {
    var i := InsertAt(w.held, f.sn);
    InsertAtIs(w.held, f, l + 2, l + w.win);
    if i < |w.held| { HeldCompares(w.held[i], f); }
    if i < |w.held| && w.held[i].first.sn == f.sn {
      NotedOk(w, l, f, 3);
    } else {
      var h := Held(f, [], tick);
      assert h.Frames() == [f] && RowOk(h);
      InsertedOk(w, l, f, i, h);
    }
  }

  lemma InOrderOk(w: Window, l: int, f: Frame) returns (l': int)
    requires Inv(w, l) && w.chain == Null && f.Ok() && f.usn == l + 1
    ensures var o := TakeInOrder(w, f);
            Inv(o.w, l') && l <= l' <= l + 512 && Extends(SentOf(o.out), l, l')
  {
    var s := [Sent(f, w.band, f.bss)];
    assert SentOf(s) == [f];
    l' := l;
    if f.Final() {
      l' := AdvanceInv(w, l + 1, f.sn, l + w.win);
      ExtendsThen(s, Advance(w, f.sn).out, l, l + 1, l');
    }
  }

  /** A frame that would follow the head pointer is held or behind. */
  lemma ChainHolds(w: Window, l: int, f: Frame)
    requires Inv(w, l) && f.Ok() && -2048 <= f.usn - l < 2048 && w.chain != Null && f.sn == w.refSn
    ensures f.usn <= l || l + 2 <= f.usn <= l + w.win
  {
    ChainPlace(w, l, f);
  }

  lemma InsideOk(w: Window, l: int, f: Frame, node: bool, tick: int)
    requires Inv(w, l) && f.Ok() && l + 2 <= f.usn <= l + w.win && (w.chain != Null ==> f.sn == w.refSn)
    ensures var o := Hold(w, f, node, tick);
            && Inv(o.w, l) && SentOf(o.out) == [] && o.fate != Stray && o.fate != Returned
            && NotedBy(w, o.w, f, l)
  {
    hide Inv, InsertAt, Append, HeldOk;
    if node {
      if w.chain != Null { AppendOk(w, l, f, tick); } else { InsertOk(w, l, f, tick); }
    }
  }

  /** A duplicate, or a frame behind the window that restarts nothing. */
  lemma DropOk(w: Window, l: int, f: Frame, node: bool, tick: int)
    requires Inv(w, l) && f.Ok() && (w.chain != Null ==> f.sn == w.refSn)
    requires PlaceOf(w, f.sn) == Duplicate || (PlaceOf(w, f.sn) == Behind && !PeerRestarted(w, f.sn))
    ensures var o := Settle(w, f, false, node, tick);
            && Inv(o.w, l) && SentOf(o.out) == [] && o.fate == Taken && NotedBy(w, o.w, f, l)
  {
    hide Inv, PeerRestarted, PlaceOf;
    NotedOk(w, l, f, if PlaceOf(w, f.sn) == Duplicate then 1 else 2);
  }

  /** One pass of the loop that does not slide. */
  lemma SettleInside(w: Window, l: int, f: Frame, node: bool, tick: int) returns (l': int)
    requires Inv(w, l) && f.Ok() && -2048 <= f.usn - l < 2048 && (w.chain != Null ==> f.sn == w.refSn)
    requires PlaceOf(w, f.sn) != Past
    requires !(PlaceOf(w, f.sn) == Behind && PeerRestarted(w, f.sn))
    ensures var o := Settle(w, f, false, node, tick);
            && Inv(o.w, l') && l <= l' <= l + 512 && Extends(SentOf(o.out), l, l')
            && o.fate != Stray && o.fate != Returned && NotedBy(w, o.w, f, l')
  {
    PlaceIs(w, l, f);
    hide Inv, PeerRestarted, PlaceOf, Hold, Advance;
    if w.chain != Null { ChainHolds(w, l, f); }
    l' := l;
    match PlaceOf(w, f.sn)
    case InOrder => l' := InOrderOk(w, l, f);
    case Inside => InsideOk(w, l, f, node, tick);
    case _ => DropOk(w, l, f, node, tick);
  }

  lemma SlideReleases(w: Window, l: int, f: Frame) returns (l': int)
    requires Inv(w, l) && f.Ok() && l + w.win < f.usn < l + 2048 && w.chain == Null
    ensures var r := Slide(w, f.sn);
            && r.w == w.(last := r.w.last, held := r.w.held, chain := Null, flag := 4) && r.w.last == Low12(l')
            && l < l' && (l' == f.usn - w.win || f.usn - w.win <= l' <= l + w.win)
            && HeldOk(r.w.held, l' + 2, l + w.win) && Extends(SentOf(r.out), l, l')
  {
    var t := SlideTarget(w, f.sn);
    assert t == Low12(f.usn - w.win) by {
      SlideTargetIs(w, f.sn);
      Low12Add(f.usn, -w.win);
    }
    l' := ReleaseToOk(w, l, f.usn - w.win, t, l + w.win);
  }

  /** After one slide the frame is at distance 0..win: the loop runs at most
      twice, and distance 0 is left only to a window of size 0. */
  lemma SlideOk(w: Window, l: int, f: Frame) returns (l': int)
    requires Inv(w, l) && f.Ok() && -2048 <= f.usn - l < 2048
    requires PlaceOf(w, f.sn) == Past && w.chain == Null
    ensures var r := Slide(w, f.sn);
            && Inv(r.w, l') && l < l' && Extends(SentOf(r.out), l, l')
            && HeldOk(r.w.held, l' + 2, l + w.win)
            && 0 <= f.usn - l' <= w.win && (f.usn == l' <==> w.win == 0)
            && PlaceOf(r.w, f.sn) == (if w.win == 0 then Duplicate else if f.usn == l' + 1 then InOrder else Inside)
            && r.w.chain == Null && r.w.win == w.win && r.w.band == w.band && r.w.state == w.state
  {
    PlaceIs(w, l, f);
    l' := SlideReleases(w, l, f);
    var w' := Slide(w, f.sn).w;
    Widen(w'.held, l' + 2, l + w.win, l' + w.win);
    PlaceIs(w', l', f);
  }

  lemma SettleOk(w: Window, l: int, f: Frame, node: bool, tick: int) returns (l': int)
    requires Inv(w, l) && f.Ok() && -2048 <= f.usn - l < 2048 && (w.chain != Null ==> f.sn == w.refSn)
    requires !(PlaceOf(w, f.sn) == Behind && PeerRestarted(w, f.sn))
    ensures var o := Settle(w, f, false, node, tick);
            && Inv(o.w, l') && l <= l' <= l + 2560 && Extends(SentOf(o.out), l, l')
            && o.fate != Stray && o.fate != Returned && NotedBy(w, o.w, f, l')
  {
    if PlaceOf(w, f.sn) == Past {
      PlaceIs(w, l, f);
      if w.chain != Null { ChainPlace(w, l, f); }
      var m := SlideOk(w, l, f);
      var r := Slide(w, f.sn);
      l' := SettleInside(r.w, m, f, node, tick);
      ExtendsThen(r.out, Settle(r.w, f, false, node, tick).out, l, m, l');
    } else {
      l' := SettleInside(w, l, f, node, tick);
    }
  }
}
