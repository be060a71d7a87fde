/** kite_classify_fast: on every frame it keeps for itself it does what the
    general classifier does, down to the TDMA submits and host forwards. */
module BaFast {
  import opened Seq12
  import opened BaWindow

  /** What pkt_enqueue_bridge reads: rate-limited (band, BSS) pairs, the bands
      waiting for the host, and whether the band is offloaded at all. */
  datatype Env = Env(limited: set<int>, force: bool, waiting: set<int>, cap: int)

  /** pkt_forward to the host with its code, or tdma_tx_submit from an offset
      into the buffer. A submit that fails frees the buffer in both forms. */
  datatype Action =
    | ToHost(buf: int, len: int, band: int, code: int)
    | ToWire(buf: int, len: int, offset: int, band: int)
    | Drop(buf: int)

  predicate HostWaits(env: Env, band: int) {
    env.force && band in env.waiting
  }

  /** pkt_enqueue_bridge, counters off. */
  function Bridge(f: Frame, band: int, bss: int, env: Env): Action {
    if band * 16 + bss in env.limited then ToHost(f.buf, f.len, band, -2)
    else if HostWaits(env, band) || env.cap == 0 then ToHost(f.buf, f.len, band, 0)
    else
      var size := (f.len - f.hdr) % 0x1_0000;
      ToWire(f.buf, (size - 2) % 0x1_0000, 2 + f.hdr, band)
  }

  /** What the bridge does with a frame: to the host, whole, with the code of a rate
      limit if that is why, when its BSS is limited, the host is awaited or the band is
      not offloaded; else to the wire from behind its header on, to the frame's end. */
  lemma BridgesExactly(f: Frame, band: int, bss: int, env: Env)
    ensures var a, limited := Bridge(f, band, bss, env), band * 16 + bss in env.limited;
            && a.buf == f.buf && a.band == band
            && (a.ToWire? <==> !limited && env.cap != 0 && !(env.force && band in env.waiting))
            && (a.ToHost? ==> a.len == f.len && a.code == if limited then -2 else 0)
            && (a.ToWire? ==> a.offset == 2 + f.hdr && (a.offset + a.len) % 0x1_0000 == f.len % 0x1_0000)
  {
    hide HostWaits;
    assert HostWaits(env, band) <==> env.force && band in env.waiting by { HostWaitsIs(env, band); }
    EndsAlike(f.len, f.hdr);
  }

  lemma HostWaitsIs(env: Env, band: int)
    ensures HostWaits(env, band) <==> env.force && band in env.waiting
  {
  }

  lemma EndsAlike(len: int, hdr: int)
    ensures (2 + hdr + ((len - hdr) % 0x1_0000 - 2) % 0x1_0000) % 0x1_0000 == len % 0x1_0000
  {
    var a := len - hdr;
    var b := a % 0x1_0000 - 2;
    assert a == 0x1_0000 * (a / 0x1_0000) + a % 0x1_0000;
    assert b == 0x1_0000 * (b / 0x1_0000) + b % 0x1_0000;
    ModShift(len, 0 - a / 0x1_0000 - b / 0x1_0000);
  }

  function Act(out: seq<Event>, env: Env): seq<Action> {
    if out == [] then []
    else [match out[0]
          case Sent(f, band, bss) => Bridge(f, band, bss, env)
          case Freed(f) => Drop(f.buf)] + Act(out[1..], env)
  }

  /** The frame is kept on the fast path; every other one goes to the general
      classifier unchanged. */
  predicate Keeps(w: Window, f: Frame, band: int, env: Env) {
    && w.state == RUNNING && !InAmsdu(w)
    && Low12(w.last + 1) == f.sn
    && band * 16 + f.bss !in env.limited && env.cap != 0 && !HostWaits(env, band)
  }

  datatype FastResult = FastResult(w: Window, acts: seq<Action>)

  /** The fast path itself; len is the whole descriptor length, of which the
      frame keeps 16 bits. */
  function Fast(w: Window, f: Frame, len: nat, band: int, env: Env): FastResult {
    var b := w.(band := band);
    var tx := [ToWire(f.buf, (len - f.hdr - 2) % 0x1_0000, 2 + f.hdr, band)];
    if !f.Final() then FastResult(b.(amsdu := f.amsdu, refSn := f.sn, flag := 0), tx)
    else
      var s := b.(last := f.sn);
      var r := if s.held != [] then Advance(s, f.sn) else Result(s, []);
      FastResult(r.w.(chain := Null, amsdu := f.amsdu, refSn := f.sn, flag := 0), tx + Act(r.out, env))
  }

  lemma {:induction false} ActConcat(a: seq<Event>, b: seq<Event>, env: Env)
    ensures Act(a + b, env) == Act(a, env) + Act(b, env)
  {
    if a == [] {
      assert a + b == b;
    } else {
      assert (a + b)[1..] == a[1..] + b;
      ActConcat(a[1..], b, env);
    }
  }

  lemma SameLength(len: nat, f: Frame)
    requires f.len == len % 0x1_0000
    ensures ((f.len - f.hdr) % 0x1_0000 - 2) % 0x1_0000 == (len - f.hdr - 2) % 0x1_0000
  {
    var q := len / 0x1_0000;
    assert len == 0x1_0000 * q + f.len;
    var a := f.len - f.hdr;
    assert a == 0x1_0000 * (a / 0x1_0000) + a % 0x1_0000;
    var k := q + a / 0x1_0000;
    assert len - f.hdr - 2 == 0x1_0000 * k + (a % 0x1_0000 - 2);
    ModShift(a % 0x1_0000 - 2, k);
  }

  lemma ModShift(x: int, k: int)
    ensures (0x1_0000 * k + x) % 0x1_0000 == x % 0x1_0000
  {
    var q, r := x / 0x1_0000, x % 0x1_0000;
    assert 0x1_0000 * k + x == 0x1_0000 * (k + q) + r;
    Unique(0x1_0000 * k + x, k + q, r);
  }

  lemma Unique(x: int, q: int, r: int)
    requires x == 0x1_0000 * q + r && 0 <= r < 0x1_0000
    ensures x % 0x1_0000 == r
  {
  }

  /** Refinement: same entry, same actions in the same order, whatever the fast
      flag and the node pools, for every window and every frame it keeps. */
  lemma FastRefines(w: Window, f: Frame, len: nat, band: int, env: Env, fast: bool, node: bool, tick: int)
    requires 0 <= w.win < 512 && f.len == len % 0x1_0000 && Keeps(w, f, band, env)
    ensures var o := Classify(w, f, band, fast, node, tick);
            Fast(w, f, len, band, env) == FastResult(o.w, Act(o.out, env)) && o.fate == Taken
  {
    hide Classify, Advance, HostWaits, SendFrames, Keeps;
    var b := w.(band := band);
    SameLength(len, f);
    KeptInOrder(w, f, band, env, fast, node, tick);
    var s := [Sent(f, band, f.bss)];
    assert s[1..] == [];
    assert Act(s, env) == [Bridge(f, band, f.bss, env)] + Act([], env);
    if f.Final() {
      ActConcat(s, Advance(b, f.sn).out, env);
      AdvanceIgnoresLast(b, f.sn);
    }
  }

  /** The general form takes a frame the fast form keeps straight in order. */
  lemma KeptInOrder(w: Window, f: Frame, band: int, env: Env, fast: bool, node: bool, tick: int)
    requires 0 <= w.win < 512 && Keeps(w, f, band, env)
    ensures Classify(w, f, band, fast, node, tick) == TakeInOrder(w.(band := band), f)
    ensures !HostWaits(env, band) && band * 16 + f.bss !in env.limited && env.cap != 0
  {
    hide TakeInOrder;
    var b := w.(band := band);
    assert StateUpdate(b, f.sn, f.amsdu) == Result(b, []);
    var t := TakeInOrder(b, f);
    assert Settle(b, f, fast, node, tick) == t;
    assert [] + ([] + t.out) == t.out;
  }

  /** The fast path skips the scan of an empty list, and has stored the last SN
      before it: neither shows. */
  lemma AdvanceIgnoresLast(b: Window, s: int)
    ensures Advance(b.(last := s), s) == Advance(b, s)
    ensures b.held == [] ==> Advance(b, s) == Result(b.(last := s), [])
  {
  }
}
