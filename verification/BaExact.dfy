/** What each operation lets go and keeps, on running numbers: which held MPDUs a
    release, a BAR, a timeout or a frame sends, where the last SN then stands, and
    what becomes of the frame itself. */
module BaExact {
  import opened Seq12
  import opened BaWindow
  import opened BaDelivery

  // ---------------------------------------------------------------- in these terms

  /** An MPDU goes out with its MSDUs, all on the band and on the MPDU's BSS. */
  function GoesOut(h: Held, band: int): seq<Event> {
    seq(1 + |h.subs|, i requires 0 <= i <= |h.subs| =>
      Sent(if i == 0 then h.first else h.subs[i - 1], band, h.first.bss))
  }

  /** The MPDUs numbered x or less go out. */
  function Upto(hs: seq<Held>, x: int, band: int): seq<Event> {
    if hs == [] then []
    else (if hs[0].first.usn <= x then GoesOut(hs[0], band) else []) + Upto(hs[1..], x, band)
  }

  /** The MPDUs numbered above x. */
  function Beyond(hs: seq<Held>, x: int): seq<Held> {
    if hs == [] then [] else (if hs[0].first.usn > x then [hs[0]] else []) + Beyond(hs[1..], x)
  }

  predicate Numbered(hs: seq<Held>, x: int) {
    exists i :: 0 <= i < |hs| && hs[i].first.usn == x
  }

  /** The numbers after s are held without a gap up to e, and e + 1 is not. */
  ghost predicate RunEnds(hs: seq<Held>, s: int, e: int) {
    s <= e && (forall x :: s < x <= e ==> Numbered(hs, x)) && !Numbered(hs, e + 1)
  }

  /** Everything up to e, the end of the run after s, has been sent in order, the
      rest is held, and e is the last SN. */
  ghost predicate LetsGo(w: Window, r: Result, s: int, e: int) {
    && RunEnds(w.held, s, e) && r.w.last == Low12(e)
    && r.out == Upto(w.held, e, w.band) && r.w.held == Beyond(w.held, e)
  }

  // ---------------------------------------------------------------- prefixes

  lemma {:induction false} SendFramesIs(fs: seq<Frame>, band: int, bss: int)
    ensures |SendFrames(fs, band, bss)| == |fs|
    ensures forall i :: 0 <= i < |fs| ==> SendFrames(fs, band, bss)[i] == Sent(fs[i], band, bss)
  {
    if fs != [] { SendFramesIs(fs[1..], band, bss); }
  }

  lemma SendIs(h: Held, band: int)
    ensures Send(h, band) == GoesOut(h, band)
  {
    SendFramesIs(h.Frames(), band, h.first.bss);
  }

  /** A sorted list is cut where its numbers pass x. */
  lemma {:induction false} CutAt(hs: seq<Held>, n: nat, x: int, band: int)
    requires n <= |hs|
    requires forall i :: 0 <= i < n ==> hs[i].first.usn <= x
    requires forall i :: n <= i < |hs| ==> hs[i].first.usn > x
    ensures Beyond(hs, x) == hs[n..] && SendAll(hs[..n], band) == Upto(hs, x, band)
  {
    hide GoesOut, Send;
    if hs != [] {
      if n == 0 {
        NoneUpto(hs, x, band);
        assert hs[..0] == [] && hs[0..] == hs;
      } else {
        CutAt(hs[1..], n - 1, x, band);
        assert hs[1..][n - 1..] == hs[n..] && hs[..n][1..] == hs[1..][..n - 1] && hs[..n][0] == hs[0];
        SendIs(hs[0], band);
      }
    }
  }

  lemma {:induction false} UptoTwice(hs: seq<Held>, s: int, e: int, band: int)
    requires s <= e && forall i, j :: 0 <= i < j < |hs| ==> hs[i].first.usn < hs[j].first.usn
    ensures Upto(hs, s, band) + Upto(Beyond(hs, s), e, band) == Upto(hs, e, band)
    ensures Beyond(Beyond(hs, s), e) == Beyond(hs, e)
  {
    hide GoesOut;
    if hs != [] {
      UptoTwice(hs[1..], s, e, band);
      if hs[0].first.usn > s {
        NoneUpto(hs, s, band);
        assert Beyond(hs, s) == hs;
      } else {
        assert Beyond(hs, s) == Beyond(hs[1..], s);
        var a, b, c := GoesOut(hs[0], band), Upto(hs[1..], s, band), Upto(Beyond(hs[1..], s), e, band);
        assert (a + b) + c == a + (b + c);
      }
    }
  }

  lemma {:induction false} NoneUpto(hs: seq<Held>, s: int, band: int)
    requires forall i :: 0 <= i < |hs| ==> hs[i].first.usn > s
    ensures Upto(hs, s, band) == [] && Beyond(hs, s) == hs
  {
    if hs != [] {
      NoneUpto(hs[1..], s, band);
      assert [hs[0]] + hs[1..] == hs;
    }
  }

  lemma {:induction false} NumberedBeyond(hs: seq<Held>, s: int, x: int)
    ensures Numbered(Beyond(hs, s), x) <==> x > s && Numbered(hs, x)
  {
    if hs != [] {
      var rest := Beyond(hs[1..], s);
      NumberedBeyond(hs[1..], s, x);
      NumberedFirst(hs[0], hs[1..], x);
      assert [hs[0]] + hs[1..] == hs;
      NumberedFirst(hs[0], rest, x);
      assert [] + rest == rest;
    }
  }

  lemma NumberedFirst(h: Held, rest: seq<Held>, x: int)
    ensures Numbered([h] + rest, x) <==> h.first.usn == x || Numbered(rest, x)
  {
    var hs := [h] + rest;
    if Numbered(rest, x) {
      var i :| 0 <= i < |rest| && rest[i].first.usn == x;
      assert hs[i + 1] == rest[i];
    }
    if h.first.usn == x { assert hs[0] == h; }
    if Numbered(hs, x) && h.first.usn != x {
      var i :| 0 <= i < |hs| && hs[i].first.usn == x;
      assert rest[i - 1] == hs[i];
    }
  }

  // ---------------------------------------------------------------- releases

  lemma HeldInside(hs: seq<Held>, i: nat, lo: int, hi: int)
    requires HeldOk(hs, lo, hi) && i < |hs|
    ensures lo <= hs[i].first.usn <= hi
  {
  }

  /** Advancing to s. */
  lemma AdvanceExactly(w: Window, s: int, t: int, hi: int) returns (e: int)
    requires t == Low12(s) && HeldOk(w.held, s + 1, hi) && hi <= s + 4095
    ensures var r := Advance(w, t); LetsGo(w, r, s, e) && (e == s || e <= hi)
  {
    hide Upto, Beyond, SendAll, HeldOk, ScanCount, Low12;
    var n := ScanCount(w.held, t);
    ScanCountIs(w.held, s, hi);
    e := s + n;
    if n > 0 {
      HeldSn(w.held, n - 1, s + 1, hi);
      HeldInside(w.held, n - 1, s + 1, hi);
    }
    CutAt(w.held, n, e, w.band);
    forall x | s < x <= e ensures Numbered(w.held, x) {
      assert w.held[x - s - 1].first.usn == x;
    }
  }

  /** Releasing up to s, on a window whose frames are less than half the space away. */
  lemma ReleaseExactly(w: Window, l: int, s: int, t: int, hi: int) returns (e: int)
    requires t == Low12(s) && HeldOk(w.held, l + 2, hi) && l <= s <= l + 2048 && hi <= s + 2047
    ensures LetsGo(w, ReleaseTo(w, t), s, e) && (e == s || e <= hi)
  {
    hide ScanCount, LeCount, SendAll, Low12;
    var n := LeCount(w.held, t);
    var le := Pop(w, n);
    LeCountIs(w.held, s, l + 2, hi);
    CutAt(w.held, n, s, w.band);
    LeOk(w, l, s, t, hi);
    e := AdvanceExactly(le.w, s, t, hi);
    UptoTwice(w.held, s, e, w.band);
    RunBeyond(w.held, s, s, e);
  }

  lemma RunBeyond(hs: seq<Held>, m: int, s: int, e: int)
    requires m <= s && RunEnds(Beyond(hs, m), s, e)
    ensures RunEnds(hs, s, e)
  {
    hide Numbered, Beyond;
    forall x | s < x <= e ensures Numbered(hs, x) { NumberedBeyond(hs, m, x); }
    NumberedBeyond(hs, m, e + 1);
  }

  /** A release after what has already been let go up to m. */
  lemma ThenLetsGo(w: Window, a: Result, m: int, b: Result, s: int, e: int)
    requires HeldOk(w.held, s - 4096, s + 4096) && m <= s
    requires a.out == Upto(w.held, m, w.band) && a.w.held == Beyond(w.held, m) && a.w.band == w.band
    requires LetsGo(a.w, b, s, e)
    ensures LetsGo(w, Result(b.w, a.out + b.out), s, e)
  {
    hide Upto, Beyond, Numbered;
    UptoTwice(w.held, m, e, w.band);
    RunBeyond(w.held, m, s, e);
  }

  // ---------------------------------------------------------------- BAR

  /** The retransmit check lets nothing go, or the run behind the noted A-MSDU,
      which is last or the next after it. */
  lemma UpdateExactly(w: Window, l: int, sn: int, kind: int) returns (m: int)
    requires Inv(w, l) && !Rewinds(w, sn, kind)
    ensures var u := StateUpdate(w, sn, kind);
            && l <= m <= l + 512 && Inv(u.w, m) && u.w.win == w.win
            && u.out == Upto(w.held, m, w.band) && u.w.held == Beyond(w.held, m) && u.w.band == w.band
            && (if Restarts(w, sn, kind) && w.flag == 0
                then LetsGo(w, u, if w.refSn == w.last then l else l + 1, m)
                else m == l && u.out == [] && u.w == w.(chain := u.w.chain))
  {
    hide Upto, Beyond, Advance, HeldOk;
    m := StateUpdateOk(w, l, sn, kind);
    if Restarts(w, sn, kind) && w.flag == 0 {
      Low12Add(l, 1);
      var s := if w.refSn == w.last then l else l + 1;
      HeldFrom(w, l, s);
      var e := AdvanceExactly(w.(chain := Null), s, w.refSn, l + w.win);
      SameLow(m, e);
    } else {
      SameLow(m, l);
      HeldFrom(w, l, l);
      NoneUpto(w.held, l, w.band);
    }
  }

  lemma HeldFrom(w: Window, l: int, s: int)
    requires Inv(w, l) && l <= s <= l + 1
    ensures HeldOk(w.held, s + 1, l + w.win) && forall i :: 0 <= i < |w.held| ==> w.held[i].first.usn > l
  {
  }

  lemma AheadIs(last: int, ssn: int)
    ensures Bit11(last - ssn) <==> 1 <= Low12(ssn - last) <= 2048
  {
    Bit11Half(last - ssn);
    LowNegated(last - ssn);
  }

  lemma HeldNear(w: Window, l: int, s: int)
    requires Inv(w, l) && l <= s <= l + 2560
    ensures HeldOk(w.held, s - 4096, s + 4096)
  {
  }

  /** A BAR d ahead of last has sent every held MPDU before its SSN and the run
      behind them, keeps the rest, and leaves last at the end of that run. One that
      is not ahead does no more than the retransmit check. */
  lemma BarExactly(w: Window, l: int, ssn: int) returns (m: int, e: int)
    requires Inv(w, l) && 0 <= ssn < 4096 && !Rewinds(w, ssn, 3)
    ensures var u, r := StateUpdate(w, ssn, 3), Bar(w, ssn);
            var d := Low12(ssn - u.w.last);
            && l <= m <= l + 512 && u.w.last == Low12(m)
            && (1 <= d <= 2048 ==> LetsGo(w, r, m + d - 1, e))
            && (d == 0 || d > 2048 ==> r == u)
  {
    hide Upto, Beyond, Advance, HeldOk, ReleaseTo, Low12, RunEnds, StateUpdate, Rewinds, BarTarget, Bit11;
    m := UpdateExactly(w, l, ssn, 3);
    e := m;
    var u := StateUpdate(w, ssn, 3);
    AheadIs(u.w.last, ssn);
    if Bit11(u.w.last - ssn) {
      var d := BarDistance(u.w.last, m, ssn);
      var t := BarTarget(ssn);
      HeldFrom(u.w, m, m);
      HeldFrom(u.w, m, m + 1);
      e := ReleaseExactly(u.w, m, m + d - 1, t, m + w.win);
      HeldNear(w, l, m + d - 1);
      ThenLetsGo(w, u, m, ReleaseTo(u.w, t), m + d - 1, e);
    }
  }

  // ---------------------------------------------------------------- timeouts

  /** A frame held at real time since has expired exactly when it has been held for
      longer than the limit, as long as that is less than the counter's circle. */
  lemma ExpiredExactly(h: Held, since: nat, now: nat, limit: int)
    requires h.tick == since % 0x1_0000_0000 && since <= now < since + 0x1_0000_0000
    ensures Expired(h, now % 0x1_0000_0000, limit) <==> now - since > limit
  {
    var a, b := since / 0x1_0000_0000, now / 0x1_0000_0000;
    assert now % 0x1_0000_0000 - h.tick == now - since - 0x1_0000_0000 * (b - a);
    TickCircle(now - since, a - b);
  }

  lemma TickCircle(d: int, q: int)
    requires 0 <= d < 0x1_0000_0000
    ensures (d + 0x1_0000_0000 * q) % 0x1_0000_0000 == d
  {
  }

  /** The numbers sent by a timeout are those up to e: each expired, or follows the
      one before it; and the next one is neither. */
  ghost predicate TimesOut(w: Window, r: Result, now: int, limit: int, l: int, e: int) {
    && r.out == Upto(w.held, e, w.band) && r.w.held == Beyond(w.held, e) && r.w.last == Low12(e)
    && (e == l || Numbered(w.held, e))
    && (forall i :: 0 <= i < |w.held| && w.held[i].first.usn <= e ==>
         Expired(w.held[i], now, limit) || Numbered(w.held, w.held[i].first.usn - 1))
    && (r.w.held != [] ==> !Expired(r.w.held[0], now, limit))
    && !Numbered(w.held, e + 1)
  }

  lemma {:induction false} TimeoutExactly(w: Window, l: int, hi: int, now: int, limit: int) returns (e: int)
    requires Inv(w, l) && HeldOk(w.held, l + 2, hi) && l <= hi <= l + w.win
    ensures TimesOut(w, Timeout(w, now, limit), now, limit, l, e)
    decreases |w.held|
  {
    hide Upto, Beyond, ReleaseTo, Low12;
    if w.held == [] || !Expired(w.held[0], now, limit) {
      e := l;
      NoneUpto(w.held, l, w.band);
    } else {
      var s, t := w.held[0].first.usn, w.held[0].first.sn;
      HeldSn(w.held, 0, l + 2, hi);
      var m := ReleaseExactly(w, l, s, t, hi);
      var m' := TimeoutStep(w, l, hi);
      SameEnd(w, t, m, m', l);
      var a := ReleaseTo(w, t);
      e := TimeoutExactly(a.w, m, hi, now, limit);
      TimesOutThen(w, a, Timeout(a.w, now, limit), now, limit, l, s, m, e);
    }
  }

  lemma SameEnd(w: Window, t: int, m: int, m': int, l: int)
    requires ReleaseTo(w, t).w.last == Low12(m) == Low12(m') && l <= m <= l + 2047 && l <= m' <= l + 2047
    ensures m == m'
  {
    SameLow(m, m');
  }

  lemma TimesOutThen(w: Window, a: Result, b: Result, now: int, limit: int, l: int, s: int, m: int, e: int)
    requires HeldOk(w.held, l + 2, l + w.win) && w.held != [] && w.held[0].first.usn == s
    requires Expired(w.held[0], now, limit) && LetsGo(w, a, s, m) && TimesOut(a.w, b, now, limit, m, e) && m <= e
    requires a.w.band == w.band
    ensures TimesOut(w, Result(b.w, a.out + b.out), now, limit, l, e)
  {
    hide Upto, Beyond, Expired, RowOk;
    UptoTwice(w.held, m, e, w.band);
    assert Numbered(w.held, s);
    FromNumbered(w.held, m, e);
    FromNumbered(w.held, m, e + 1);
    forall i | 0 <= i < |w.held| && w.held[i].first.usn <= e
      ensures Expired(w.held[i], now, limit) || Numbered(w.held, w.held[i].first.usn - 1)
    {
      var x := w.held[i].first.usn;
      if i > 0 && x <= m {
        assert s < x;
      } else if x > m {
        var j := StaysBeyond(w.held, m, i);
        FromNumbered(w.held, m, x - 1);
      }
    }
  }

  lemma FromNumbered(hs: seq<Held>, s: int, x: int)
    ensures Numbered(Beyond(hs, s), x) <==> x > s && Numbered(hs, x)
  {
    NumberedBeyond(hs, s, x);
  }

  lemma {:induction false} StaysBeyond(hs: seq<Held>, x: int, i: nat) returns (j: nat)
    requires i < |hs| && hs[i].first.usn > x
    ensures j < |Beyond(hs, x)| && Beyond(hs, x)[j] == hs[i]
  {
    if i == 0 {
      j := 0;
    } else {
      j := StaysBeyond(hs[1..], x, i - 1);
      if hs[0].first.usn > x {
        j := j + 1;
        assert Beyond(hs, x) == [hs[0]] + Beyond(hs[1..], x);
      }
    }
  }

  /** A flush sends every held frame, and last is the last of them. */
  lemma FlushExactly(w: Window, l: int)
    requires Inv(w, l)
    ensures var r := Flush(w);
            && r.out == Upto(w.held, l + w.win, w.band) && r.w.held == []
            && r.w.last == Low12(if w.held == [] then l else w.held[|w.held| - 1].first.usn)
  {
    CutAt(w.held, |w.held|, l + w.win, w.band);
    assert w.held[..|w.held|] == w.held;
    if w.held != [] { HeldSn(w.held, |w.held| - 1, l + 2, l + w.win); }
  }

  // ---------------------------------------------------------------- frames

  /** A frame that is next is sent, and the run behind it if it ends its A-MSDU. */
  ghost predicate NextSent(w: Window, f: Frame, o: Outcome) {
    && o.out != [] && o.out[0] == Sent(f, w.band, f.bss)
    && if f.Final() then exists e :: LetsGo(w, Result(o.w, o.out[1..]), f.usn, e)
       else o.out == [o.out[0]] && o.w.held == w.held && o.w.last == w.last
  }

  /** An MPDU that is new to the list joins it; one that is held already is freed. */
  predicate NewHeld(w: Window, f: Frame, tick: int, o: Outcome) {
    && o.w.last == w.last
    && if exists i :: 0 <= i < |w.held| && w.held[i].first.usn == f.usn
       then o.out == [Freed(f)] && o.w.held == w.held
       else o.out == [] && exists i :: 0 <= i <= |w.held| && o.w.held == w.held[..i] + [Held(f, [], tick)] + w.held[i..]
  }

  /** The MSDU goes behind the held MPDU of its number. */
  predicate Chained(w: Window, f: Frame, o: Outcome) {
    && o.out == [] && o.w.last == w.last && |o.w.held| == |w.held|
    && forall j :: 0 <= j < |w.held| ==>
         && o.w.held[j].first == w.held[j].first && o.w.held[j].tick == w.held[j].tick
         && o.w.held[j].subs == w.held[j].subs + if w.held[j].first.usn == f.usn then [f] else []
  }

  /** What the window loop makes of a frame less than half the space away: the next
      number is sent, one at or behind last dropped, one inside the window held, and
      one past it first lets go all that a window ending with it leaves out. */
  lemma SettleExactly(w: Window, l: int, f: Frame, fast: bool, node: bool, tick: int)
    requires Inv(w, l) && f.Ok() && -2048 <= f.usn - l < 2048 && (w.chain != Null ==> f.sn == w.refSn)
    requires f.usn < l ==> !PeerRestarted(w, f.sn)
    ensures var o := Settle(w, f, fast, node, tick);
            && (f.usn == l + 1 ==> NextSent(w, f, o))
            && (f.usn <= l ==> o.out == DropOrBridge(w, f, fast) && o.w.held == w.held && o.w.last == w.last)
            && (l + 2 <= f.usn <= l + w.win ==>
                 if !node then o.out == [] && o.w == w && o.fate == Kept
                 else if w.chain == Null then NewHeld(w, f, tick, o) else Chained(w, f, o))
  {
    PlaceIs(w, l, f);
    if w.chain != Null { ChainPlace(w, l, f); }
    if f.usn == l + 1 {
      NextExactly(w, l, f, fast, node, tick);
    } else if l + 2 <= f.usn <= l + w.win && node {
      if w.chain == Null { NewExactly(w, l, f, tick); } else { ChainedExactly(w, l, f, tick); }
    }
  }

  lemma NextExactly(w: Window, l: int, f: Frame, fast: bool, node: bool, tick: int)
    requires Inv(w, l) && f.Ok() && f.usn == l + 1 && PlaceOf(w, f.sn) == InOrder
    ensures NextSent(w, f, Settle(w, f, fast, node, tick))
  {
    hide Advance, PlaceOf, LetsGo, Low12;
    if f.Final() {
      HeldFrom(w, l, l + 1);
      var e := AdvanceExactly(w, l + 1, f.sn, l + w.win);
      var r := Advance(w, f.sn);
      var out := [Sent(f, w.band, f.bss)] + r.out;
      assert out[1..] == r.out;
      LetsGoNoted(w, r, f, f.usn, e);
    }
  }

  lemma LetsGoNoted(w: Window, r: Result, f: Frame, s: int, e: int)
    requires LetsGo(w, r, s, e)
    ensures LetsGo(w, Result(Noted(r.w, f, 0), r.out), s, e)
  {
  }

  lemma NewExactly(w: Window, l: int, f: Frame, tick: int)
    requires Inv(w, l) && f.Ok() && w.chain == Null && l + 2 <= f.usn <= l + w.win
    ensures NewHeld(w, f, tick, Hold(w, f, true, tick))
  {
    var i := InsertAt(w.held, f.sn);
    InsertAtIs(w.held, f, l + 2, l + w.win);
    if i < |w.held| { HeldCompares(w.held[i], f); }
  }

  lemma ChainedExactly(w: Window, l: int, f: Frame, tick: int)
    requires Inv(w, l) && f.Ok() && w.chain != Null && f.sn == w.refSn && l + 2 <= f.usn <= l + w.win
    ensures Chained(w, f, Hold(w, f, true, tick))
  {
    ChainPlace(w, l, f);
    var i := w.chain.i;
    forall j | 0 <= j < |w.held| && j != i ensures w.held[j].first.usn != f.usn {
    }
  }

  /** Past the window: the slide leaves a window that ends with the frame, or a
      later one if what it let go ran on; the frame then meets that window. */
  lemma PastExactly(w: Window, l: int, f: Frame, fast: bool, node: bool, tick: int) returns (e: int)
    requires Inv(w, l) && f.Ok() && l + w.win < f.usn < l + 2048 && l + 1 < f.usn && w.chain == Null
    ensures var r := Slide(w, f.sn);
            && LetsGo(w, r, f.usn - w.win, e) && Inv(r.w, e) && e <= f.usn && r.w.chain == Null
            && Settle(w, f, fast, node, tick).w == Settle(r.w, f, fast, node, tick).w
            && Settle(w, f, fast, node, tick).out == r.out + Settle(r.w, f, fast, node, tick).out
  {
    hide LetsGo, ReleaseTo, Inv, Bit11, PeerRestarted, Hold, TakeInOrder;
    PlaceIsPast(w, l, f);
    e := SlideExactly(w, l, f);
    var m := SlideOk(w, l, f);
    SlidEnd(w, f, m, e, l);
  }

  lemma PlaceIsPast(w: Window, l: int, f: Frame)
    requires Inv(w, l) && f.Ok() && l + w.win < f.usn < l + 2048 && l + 1 < f.usn
    ensures PlaceOf(w, f.sn) == Past
  {
    PlaceIs(w, l, f);
  }

  lemma SlideExactly(w: Window, l: int, f: Frame) returns (e: int)
    requires Inv(w, l) && f.Ok() && l + w.win < f.usn < l + 2048
    ensures LetsGo(w, Slide(w, f.sn), f.usn - w.win, e) && f.usn - w.win <= e && (e == f.usn - w.win || e <= l + w.win)
  {
    hide ReleaseTo, Upto, Beyond, Numbered;
    var t := SlideTarget(w, f.sn);
    SlideTargetIs(w, f.sn);
    Low12Add(f.usn, 0 - w.win);
    e := ReleaseExactly(w, l, f.usn - w.win, t, l + w.win);
  }

  lemma SlidEnd(w: Window, f: Frame, m: int, e: int, l: int)
    requires 0 <= w.win < 512 && f.usn - w.win <= e <= l + 2048 && l < m <= f.usn < l + 2048
    requires LetsGo(w, Slide(w, f.sn), f.usn - w.win, e) && Slide(w, f.sn).w.last == Low12(m)
    ensures m == e
  {
    SameLow(m, e);
  }

  // ---------------------------------------------------------------- sessions

  function AllOut(hs: seq<Held>, band: int): seq<Event> {
    if hs == [] then [] else GoesOut(hs[0], band) + AllOut(hs[1..], band)
  }

  lemma {:induction false} SendsAll(hs: seq<Held>, band: int)
    ensures SendAll(hs, band) == AllOut(hs, band)
  {
    hide Send, GoesOut;
    if hs != [] {
      SendIs(hs[0], band);
      SendsAll(hs[1..], band);
    }
  }

  /** An ADDBA sends whatever an old session held. One with a window or an SSN opens
      a session of that window, which the next frame starts, whatever its number; one
      with neither ends the session, and the next frame is handed back unseen. */
  lemma SessionExactly(w: Window, win: int, ssn: int, band: int, f: Frame, fast: bool, node: bool, tick: int)
    requires 0 <= win < 512 && f.Ok()
    ensures var r := AddBa(w, win, ssn, band);
            && r.out == AllOut(w.held, w.band) && r.w.held == [] && r.w.chain == Null && 0 <= r.w.win < 512
            && var o := Classify(r.w, f, band, fast, node, tick);
               if win == 0 && ssn == 0 then o.fate == Returned && o.out == [] && o.w == r.w
               else o.w.win == win && o.w.state == RUNNING && o.w.band == band && o.fate == Taken
                    && (o.w.last == f.sn || (!f.Final() && Low12(o.w.last + 1) == f.sn))
  {
    hide Bit11, PeerRestarted, Slide, Hold, DropOrBridge;
    SendsAll(w.held, w.band);
    var r := AddBa(w, win, ssn, band);
    assert SendAll([], r.w.band) == [] && ScanCount([], f.sn) == 0 && [] + r.out == r.out;
    if win != 0 || ssn != 0 { FirstPlace(r.w, f, band); }
  }

  /** Where the first frame falls once the retransmit check has run. */
  lemma FirstPlace(w: Window, f: Frame, band: int)
    requires 0 <= w.win < 512 && w.held == [] && f.Ok()
    ensures var s := Start(w, f).w.(band := band);
            var u := StateUpdate(s, f.sn, f.amsdu).w;
            && u.held == [] && (u == s.(chain := Null) || u == s.(chain := Null, last := f.sn))
            && (u.last != f.sn ==> PlaceOf(u, f.sn) == InOrder) && (u.last == f.sn ==> PlaceOf(u, f.sn) == Duplicate)
            && Low12(Low12(f.sn - 1) + 1) == f.sn && (u.last == f.sn ==> !f.Final())
  {
    hide Bit11;
    Low12Add(f.sn - 1, 1);
    Low12Add(f.usn, 0);
    assert Low12(f.sn) == f.sn;
    DifferentLow(f.sn, f.sn - 1);
    DifferentLow(f.sn + 1, f.sn);
    assert ScanCount([], f.sn) == 0;
  }
}
