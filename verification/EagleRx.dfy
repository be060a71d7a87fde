/** The Eagle rxdmad ring: one receive descriptor at a time, whole frames to the
    wired side or the host queue, frames over several buffers chained first; and
    the fast form for the common descriptor. */
module EagleRx {
  import opened Basics

  const MSEG_MAX := 7
  const LAST := 1535

  /** A descriptor: two words as the chip wrote them, and its generation. */
  datatype Desc = Desc(dw1: bv32, dw2: bv32, gen: nat)

  /** What the hart reads besides: the force-to-CPU switch, whether the ICV error
      table excuses the frame's station and TID, whether the TDMA ring has room,
      and whether WiFi debug prints are on. */
  datatype Env = Env(force: bool, icv: bool, room: bool, printing: bool)

  /** A host queue slot: buffer, two lengths, flags. */
  datatype Slot = Free | Full(id: bv32, seg: bv32, pkt: bv32, flags: bv32)

  /** The whole-frame queue and the multi-segment queue of band 1. */
  datatype Queues = Queues(txq: seq<Slot>, txw: nat, mseg: seq<Slot>, msw: nat)

  /** What was done with a buffer: the wired side's length and header offset. */
  datatype Event = Sent(id: bv32, len: bv32, off: bv32) | Queued(id: bv32) | Returned(id: bv32)

  datatype Rx = Rx(
    chaining: bool, abort: bool, segs: nat, segLen: bv32, ids: seq<bv32>, lens: seq<bv32>,
    gen: nat, ridx: nat, kick: int, cidx: int, heads: map<bv32, bv32>, q: Queues, log: seq<Event>)

  predicate QueuesOk(q: Queues) {
    q.txw < |q.txq| && q.msw < |q.mseg|
  }

  /** Segments stored so far: an unfinished chain has one to six. */
  predicate Valid(s: Rx) {
    && |s.ids| == |s.lens| == MSEG_MAX && s.ridx <= LAST && 0 <= s.kick <= 127 && QueuesOk(s.q)
    && (s.chaining && !s.abort ==> 1 <= s.segs < MSEG_MAX)
  }

  function IdOf(d: Desc): bv32 {
    d.dw2 >> 16
  }

  // ---------------------------------------------------------------- words

  function LenOf(dw1: bv32): bv32 {
    (dw1 >> 16) & 0x3FFF
  }

  /** dst_sel 1: the chip gives the ethernet header's offset. */
  predicate Wired(dw1: bv32) {
    dw1 & 0x1800 == 0x800
  }

  predicate Failed(dw1: bv32) {
    dw1 & 0x2000 != 0
  }

  /** The info word: length and more bit, wired side, error, the chip's top bits. */
  function Base(dw1: bv32): bv32 {
    (LenOf(dw1) << 3) | (((dw1 >> 30) & 1) ^ 1)
  }

  function WithWire(a: bv32, dw1: bv32): bv32 {
    a | 2 | ((dw1 & 0x7F) << 17)
  }

  function WithTop(a: bv32, dw2: bv32): bv32 {
    (a & 0x0FFF_FFFF) | ((dw2 >> 12) << 28)
  }

  function WithErr(a: bv32): bv32 {
    a | 0x200_0000
  }

  function InfoOf(dw1: bv32, dw2: bv32): bv32 {
    var a := if Wired(dw1) then WithWire(Base(dw1), dw1) else Base(dw1);
    WithTop(if Failed(dw1) then WithErr(a) else a, dw2)
  }

  function ErrOf(dw1: bv32, dw2: bv32): bv32 {
    var a: bv32 := if Failed(dw1) then 1 else 0;
    if dw2 & 0xF000 == 0x1000 then a | 4 else if dw2 & 0xF000 == 0x2000 then a | 2 else a
  }

  /** More buffers of this frame follow. */
  predicate More(info: bv32) {
    info & 1 != 0
  }

  function SegOf(info: bv32): bv32 {
    (info >> 3) & 0x3FFF
  }

  /** The wired side takes it. */
  predicate ToWired(info: bv32) {
    info & 2 != 0
  }

  /** The chip wants the frame with the host. */
  predicate ToCpu(dw2: bv32) {
    dw2 & 0x80 != 0
  }

  /** What is left past the header offset, in 16 bits. */
  function Past(len: bv32, off: bv32): bv32 {
    (len - off) & 0xFFFF
  }

  function OffOf(info: bv32): bv32 {
    (info >> 16) & 0xFE
  }

  // ---------------------------------------------------------------- queues

  function Bump(w: nat, n: nat): nat {
    if w + 1 == n then 0 else w + 1
  }

  /** eagle_pkt_enqueue to band 1: equal lengths take the whole-frame queue. */
  function Enqueue(q: Queues, id: bv32, seg: bv32, flags: bv32, pkt: bv32): (Queues, bool)
    requires QueuesOk(q)
  {
    if pkt == seg then
      if q.txq[q.txw].Full? then (q, false)
      else (q.(txq := q.txq[q.txw := Full(id, seg, pkt, flags | 1)], txw := Bump(q.txw, |q.txq|)), true)
    else
      if q.mseg[q.msw].Full? then (q, false)
      else (q.(mseg := q.mseg[q.msw := Full(id, seg, pkt, flags | 1)], msw := Bump(q.msw, |q.mseg|)), true)
  }

  /** One buffer to the host queue, or back when it is full. */
  function ToHost(s: Rx, id: bv32, seg: bv32, flags: bv32, pkt: bv32): Rx
    requires QueuesOk(s.q)
  {
    var (q, ok) := Enqueue(s.q, id, seg, flags, pkt);
    s.(q := q, log := s.log + [if ok then Queued(id) else Returned(id)])
  }

  function ToWire(s: Rx, id: bv32, len: bv32, off: bv32, room: bool): Rx {
    s.(log := s.log + [if room then Sent(id, len, off) else Returned(id)])
  }

  // ---------------------------------------------------------------- one descriptor

  /** A whole frame in one buffer. */
  function Whole(s: Rx, d: Desc, e: Env, info: bv32): Rx
    requires QueuesOk(s.q)
  {
    var id, err := IdOf(d), ErrOf(d.dw1, d.dw2);
    var excused := err & 3 != 0 && e.icv;
    var clean := excused || err == 0;
    var host := e.force || (!excused && ToCpu(d.dw2));
    var t := s.(heads := s.heads[id := info]);
    if clean && !host && ToWired(info) then
      ToWire(t, id, Past(SegOf(info), OffOf(info)), OffOf(info), e.room)
    else ToHost(t, id, SegOf(info), 2, SegOf(info))
  }

  function Zeros(): (z: seq<bv32>)
    ensures |z| == MSEG_MAX
  {
    [0, 0, 0, 0, 0, 0, 0]
  }

  /** The first buffer of a chain. */
  function Begin(s: Rx, id: bv32, info: bv32): Rx {
    s.(abort := false, segs := 0, segLen := 0, chaining := true,
       ids := Zeros(), lens := Zeros(), heads := s.heads[id := info])
  }

  function Plus(a: bv32, b: bv32): bv32 {
    a + b
  }

  function Store(s: Rx, id: bv32, info: bv32): Rx
    requires s.segs < |s.ids| == |s.lens|
  {
    s.(lens := s.lens[s.segs := SegOf(info)], ids := s.ids[s.segs := id],
       segLen := Plus(s.segLen, SegOf(info)), segs := s.segs + 1)
  }

  /** The segment flags the host wants: last, number from 1, count. */
  function Flags(i: nat, count: nat): bv32
    requires i < count <= MSEG_MAX
  {
    (((if i == count - 1 then 2 else 0) | ((count as bv32) << 5) | (((i + 1) as bv32) << 2)) as bv32) & 0xFF
  }

  /** Segments i and on to the host. */
  function Queue(s: Rx, i: nat, count: nat): (r: Rx)
    requires i <= count <= MSEG_MAX && |s.ids| == |s.lens| == MSEG_MAX && QueuesOk(s.q)
    ensures r == s.(q := r.q, log := r.log) && QueuesOk(r.q)
    decreases count - i
  {
    if i == count then s
    else Queue(ToHost(s, s.ids[i], Low16(s.segLen), Flags(i, count), s.lens[i]), i + 1, count)
  }

  /** All stored buffers back. */
  function GiveBack(ids: seq<bv32>): (r: seq<Event>)
    ensures |r| == |ids| && forall i :: 0 <= i < |r| ==> r[i] == Returned(ids[i])
  {
    seq(|ids|, i requires 0 <= i < |ids| => Returned(ids[i]))
  }

  /** The first buffer's word with the whole frame's length. */
  function HeadWord(was: bv32, len: bv32): bv32 {
    (was & 0xFFFE_0007) | (8 * len)
  }

  function Low16(len: bv32): bv32 {
    len & 0xFFFF
  }

  function HeadOf(s: Rx, id: bv32): bv32 {
    if id in s.heads then s.heads[id] else 0
  }

  /** A chain's buffer: the chain goes on, is given up, or is complete. */
  function Link(s: Rx, id: bv32, info: bv32): Rx
    requires s.segs < MSEG_MAX && |s.ids| == |s.lens| == MSEG_MAX && QueuesOk(s.q)
  {
    var t := Store(s, id, info);
    if More(info) then
      if t.segs > MSEG_MAX - 1 then t.(abort := true, log := t.log + GiveBack(t.ids)) else t
    else Complete(t)
  }

  /** The last buffer is there: the frame's length into the first, all to the host. */
  function Complete(t: Rx): Rx
    requires t.segs <= MSEG_MAX && |t.ids| == |t.lens| == MSEG_MAX && QueuesOk(t.q)
  {
    var head := t.ids[0];
    var u := t.(heads := t.heads[head := HeadWord(HeadOf(t, head), t.segLen)]);
    Queue(u, 0, u.segs).(chaining := false)
  }

  function Body(s: Rx, d: Desc, e: Env): Rx
    requires Valid(s)
  {
    var id, info := IdOf(d), InfoOf(d.dw1, d.dw2);
    if !More(info) && !s.chaining then Whole(s, d, e, info)
    else if !More(info) && s.abort then
      s.(chaining := false, abort := false, log := s.log + [Returned(id)])
    else
      var t := if s.chaining then s else Begin(s, id, info);
      if t.abort then t.(log := t.log + [Returned(id)]) else Link(t, id, info)
  }

  /** The ring moves on; the chip gets its slots back every 128 descriptors. */
  function Advance(s: Rx): Rx {
    var next := if s.ridx + 1 >= 1536 then 0 else s.ridx + 1;
    var kick := if s.kick == 127 then -128 else s.kick + 1;
    if kick < 0 then s.(ridx := next, kick := 0, cidx := if next != 0 then next - 1 else LAST)
    else s.(ridx := next, kick := kick)
  }

  function Turned(s: Rx): Rx {
    if s.ridx == LAST then s.(gen := (s.gen + 1) % 16) else s
  }

  /** eagle_rxdmad_handle: nothing while the descriptor is not new. */
  function Handled(s: Rx, d: Desc, e: Env): Rx
    requires Valid(s)
  {
    if d.gen != s.gen then s else Advance(Body(Turned(s), d, e))
  }

  /** Descriptors the fast form takes itself. */
  predicate Common(d: Desc, e: Env) {
    && d.dw1 & 0x4000_2000 == 0x4000_0000 && d.dw2 & 0xF000 != 0x1000 && d.dw2 & 0xF000 != 0x2000
    && !e.printing
  }

  /** The fast form's words: length and top bits, and the header offset. */
  function FastInfo(dw1: bv32, dw2: bv32): bv32 {
    (LenOf(dw1) << 3) | ((dw2 >> 12) << 28)
  }

  function FastOff(dw1: bv32): bv32 {
    (dw1 & 0x7F) << 1
  }

  /** eagle_rxdmad_fast on such a descriptor. */
  function FastBody(s: Rx, d: Desc, e: Env): Rx
    requires QueuesOk(s.q)
  {
    var id, len := IdOf(d), LenOf(d.dw1);
    var host := e.force || ToCpu(d.dw2);
    if Wired(d.dw1) then
      var off := FastOff(d.dw1);
      var t := s.(heads := s.heads[id := WithWire(FastInfo(d.dw1, d.dw2), d.dw1)]);
      if !host then ToWire(t, id, Past(len, off), off, e.room) else Put(t, id, len)
    else Put(s.(heads := s.heads[id := FastInfo(d.dw1, d.dw2)]), id, len)
  }

  /** eagle_txq1_put, or the buffer back. */
  function Put(s: Rx, id: bv32, len: bv32): Rx
    requires QueuesOk(s.q)
  {
    if s.q.txq[s.q.txw].Full? then s.(log := s.log + [Returned(id)])
    else
      s.(q := s.q.(txq := s.q.txq[s.q.txw := Full(id, len, len, 3)], txw := Bump(s.q.txw, |s.q.txq|)),
         log := s.log + [Queued(id)])
  }

  function Fast(s: Rx, d: Desc, e: Env): Rx
    requires Valid(s)
  {
    if d.gen != s.gen then s else Advance(FastBody(Turned(s), d, e))
  }

  // ---------------------------------------------------------------- the fast form refines

  lemma CommonBits(dw1: bv32)
    requires dw1 & 0x4000_2000 == 0x4000_0000
    ensures !Failed(dw1) && Base(dw1) == LenOf(dw1) << 3 && LenOf(dw1) <= 0x3FFF
  {
  }

  /** The word of a frame for the host. */
  lemma PlainWord(dw1: bv32, dw2: bv32)
    requires Base(dw1) == LenOf(dw1) << 3 && LenOf(dw1) <= 0x3FFF
    ensures var i := WithTop(Base(dw1), dw2);
            i == FastInfo(dw1, dw2) && !More(i) && !ToWired(i) && SegOf(i) == LenOf(dw1)
  {
    hide LenOf, Base;
  }

  /** The word of a frame for the wired side. */
  lemma WiredWord(dw1: bv32, dw2: bv32)
    requires Base(dw1) == LenOf(dw1) << 3 && LenOf(dw1) <= 0x3FFF
    ensures var i := WithTop(WithWire(Base(dw1), dw1), dw2);
            && i == WithWire(FastInfo(dw1, dw2), dw1)
            && !More(i) && ToWired(i) && SegOf(i) == LenOf(dw1) && OffOf(i) == FastOff(dw1)
  {
    hide LenOf, Base;
  }

  lemma NoError(dw1: bv32, dw2: bv32)
    requires !Failed(dw1) && dw2 & 0xF000 != 0x1000 && dw2 & 0xF000 != 0x2000
    ensures ErrOf(dw1, dw2) == 0
  {
  }

  lemma CommonParts(d: Desc, e: Env)
    requires Common(d, e)
    ensures !Failed(d.dw1) && ErrOf(d.dw1, d.dw2) == 0
    ensures Base(d.dw1) == LenOf(d.dw1) << 3 && LenOf(d.dw1) <= 0x3FFF
  {
    hide Failed, ErrOf, Base, LenOf;
    CommonBits(d.dw1);
    NoError(d.dw1, d.dw2);
  }

  /** On a common descriptor the words come out alike. */
  lemma CommonWords(d: Desc, e: Env)
    requires Common(d, e)
    ensures var info := InfoOf(d.dw1, d.dw2);
            && !More(info) && ErrOf(d.dw1, d.dw2) == 0 && SegOf(info) == LenOf(d.dw1)
            && (Wired(d.dw1) <==> ToWired(info))
            && info == (if Wired(d.dw1) then WithWire(FastInfo(d.dw1, d.dw2), d.dw1) else FastInfo(d.dw1, d.dw2))
            && (Wired(d.dw1) ==> OffOf(info) == FastOff(d.dw1))
  {
    hide Base, LenOf, Failed, Wired, WithWire, WithTop, ErrOf, More, ToWired, SegOf, OffOf, FastOff, FastInfo, Common;
    CommonParts(d, e);
    PlainWord(d.dw1, d.dw2);
    WiredWord(d.dw1, d.dw2);
  }

  /** The general form on a clean whole frame. */
  lemma WholeClean(s: Rx, d: Desc, e: Env, info: bv32)
    requires QueuesOk(s.q) && ErrOf(d.dw1, d.dw2) == 0
    ensures var id, host, t := IdOf(d), e.force || ToCpu(d.dw2), s.(heads := s.heads[IdOf(d) := info]);
            Whole(s, d, e, info) ==
              if !host && ToWired(info) then ToWire(t, id, Past(SegOf(info), OffOf(info)), OffOf(info), e.room)
              else Put(t, id, SegOf(info))
  {
    hide ErrOf, SegOf, OffOf, IdOf, ToWired, ToCpu, Past;
    Excused(ErrOf(d.dw1, d.dw2));
    var t := s.(heads := s.heads[IdOf(d) := info]);
    assert ToHost(t, IdOf(d), SegOf(info), 2, SegOf(info)) == Put(t, IdOf(d), SegOf(info)) by { WholeFlags(); }
  }

  lemma Excused(err: bv32)
    requires err == 0
    ensures err & 3 == 0
  {
  }

  lemma WholeFlags()
    ensures 2 as bv32 | 1 == 3
  {
  }

  /** Outside a chain, whenever the fast form takes a descriptor it leaves what
      the general one would: same queues, buffer words, ring state, and the same
      send or return. */
  lemma FastAgrees(s: Rx, d: Desc, e: Env)
    requires Valid(s) && !s.chaining && Common(d, e)
    ensures Fast(s, d, e) == Handled(s, d, e)
  {
    hide InfoOf, ErrOf, More, SegOf, OffOf, LenOf, Whole, Link, Begin, Put, ToWire, Advance, IdOf, Queue,
         GiveBack, Wired, ToWired, ToCpu, WithWire, FastInfo, FastOff, Past, FastBody, Common, Store;
    CommonWords(d, e);
    FastIsWhole(Turned(s), d, e);
  }

  lemma FastIsWhole(s: Rx, d: Desc, e: Env)
    requires QueuesOk(s.q) && Common(d, e)
    ensures FastBody(s, d, e) == Whole(s, d, e, InfoOf(d.dw1, d.dw2))
  {
    hide InfoOf, ErrOf, More, SegOf, OffOf, LenOf, Whole, Put, ToWire, IdOf,
         Wired, ToWired, ToCpu, WithWire, FastInfo, FastOff, Past, Common;
    CommonWords(d, e);
    WholeClean(s, d, e, InfoOf(d.dw1, d.dw2));
  }

  // ---------------------------------------------------------------- from the descriptor's bits

  predicate Faulted(info: bv32) {
    info & 0x200_0000 != 0
  }

  /** The info word says what the descriptor's bits do: more from bit 30, the wired
      side from dst_sel, the length, the error, and the chip's top bits. */
  lemma InfoBits(dw1: bv32, dw2: bv32)
    ensures var i := InfoOf(dw1, dw2);
            && (More(i) <==> dw1 & 0x4000_0000 == 0) && (ToWired(i) <==> dw1 & 0x1800 == 0x800)
            && SegOf(i) == (dw1 >> 16) & 0x3FFF
            && (dw1 & 0x1800 == 0x800 ==> OffOf(i) == (dw1 & 0x7F) << 1)
            && (Faulted(i) <==> dw1 & 0x2000 != 0) && i >> 28 == (dw2 >> 12) & 0xF
  {
    BaseBits(dw1);
    LenIs(dw1);
    hide LenOf, Base;
    var b, len := Base(dw1), LenOf(dw1);
    var w := if Wired(dw1) then WithWire(b, dw1) else b;
    WireBits(b, dw1);
    hide WithWire, WithTop, WithErr, More, ToWired, SegOf, OffOf, Faulted;
    ErrBits(w);
    TopBits(w, dw2);
    TopBits(WithErr(w), dw2);
  }

  lemma LenIs(dw1: bv32)
    ensures LenOf(dw1) == (dw1 >> 16) & 0x3FFF
  {
  }

  lemma BaseBits(dw1: bv32)
    ensures var b := Base(dw1);
            && (More(b) <==> dw1 & 0x4000_0000 == 0) && !ToWired(b) && SegOf(b) == LenOf(dw1) && b & 0xFFFE_0000 == 0
            && !Faulted(b)
  {
  }

  lemma WireBits(b: bv32, dw1: bv32)
    requires b & 0xFFFE_0000 == 0
    ensures var w := WithWire(b, dw1);
            && (More(w) <==> More(b)) && ToWired(w) && SegOf(w) == SegOf(b) && OffOf(w) == (dw1 & 0x7F) << 1
            && !Faulted(w)
  {
  }

  lemma ErrBits(w: bv32)
    ensures var i := WithErr(w);
            && (More(i) <==> More(w)) && (ToWired(i) <==> ToWired(w)) && SegOf(i) == SegOf(w) && OffOf(i) == OffOf(w)
            && Faulted(i)
  {
  }

  lemma TopBits(w: bv32, dw2: bv32)
    ensures var i := WithTop(w, dw2);
            && (More(i) <==> More(w)) && (ToWired(i) <==> ToWired(w)) && SegOf(i) == SegOf(w) && OffOf(i) == OffOf(w)
            && (Faulted(i) <==> Faulted(w)) && i >> 28 == (dw2 >> 12) & 0xF
  {
  }

  /** An error is flagged, and one the ICV table may excuse. */
  predicate Flagged(d: Desc) {
    d.dw1 & 0x2000 != 0 || d.dw2 & 0xF000 == 0x1000 || d.dw2 & 0xF000 == 0x2000
  }

  predicate Excusable(d: Desc) {
    d.dw1 & 0x2000 != 0 || d.dw2 & 0xF000 == 0x2000
  }

  /** The frame is for the wired side: dst_sel is 1, the force switch is off, and
      it has no error and the chip's host bit is clear, or its error is excused. */
  predicate ForWired(d: Desc, e: Env) {
    && d.dw1 & 0x1800 == 0x800 && !e.force
    && ((Excusable(d) && e.icv) || (!Flagged(d) && d.dw2 & 0x80 == 0))
  }

  lemma ErrIs(d: Desc)
    ensures ErrOf(d.dw1, d.dw2) == 0 <==> !Flagged(d)
    ensures ErrOf(d.dw1, d.dw2) & 3 != 0 <==> Excusable(d)
  {
    var a: bv32 := if Failed(d.dw1) then 1 else 0;
    ErrValues(a);
  }

  lemma ErrValues(a: bv32)
    requires a == 0 || a == 1
    ensures a | 4 != 0 && a | 2 != 0 && (a | 2) & 3 != 0 && ((a | 4) & 3 != 0 <==> a == 1) && (a & 3 != 0 <==> a == 1)
  {
  }

  /** The buffer was queued for the host: the slot at the queue's write index is
      filled and the index moved on; or given back, if that slot was not free. A
      buffer as long as its frame takes the whole-frame queue. */
  predicate HostTook(q: Queues, r: Queues, ev: Event, id: bv32, seg: bv32, flags: bv32, pkt: bv32)
    requires QueuesOk(q)
  {
    var slot := if pkt == seg then q.txq[q.txw] else q.mseg[q.msw];
    if slot.Full? then ev == Returned(id) && r == q
    else
      && ev == Queued(id)
      && if pkt == seg then
           && r.txq == q.txq[q.txw := Full(id, seg, pkt, flags)] && r.txw == (q.txw + 1) % |q.txq|
           && r.mseg == q.mseg && r.msw == q.msw
         else
           && r.mseg == q.mseg[q.msw := Full(id, seg, pkt, flags)] && r.msw == (q.msw + 1) % |q.mseg|
           && r.txq == q.txq && r.txw == q.txw
  }

  lemma BumpIs(w: nat, n: nat)
    requires w < n
    ensures Bump(w, n) == (w + 1) % n
  {
    if w + 1 == n { assert n % n == 0; } else { assert (w + 1) % n == w + 1; }
  }

  lemma ToHostTook(s: Rx, id: bv32, seg: bv32, flags: bv32, pkt: bv32)
    requires QueuesOk(s.q)
    ensures var t := ToHost(s, id, seg, flags, pkt);
            && |t.log| == |s.log| + 1 && t.log[..|s.log|] == s.log && t == s.(q := t.q, log := t.log)
            && HostTook(s.q, t.q, t.log[|s.log|], id, seg, flags | 1, pkt)
  {
    BumpIs(s.q.txw, |s.q.txq|);
    BumpIs(s.q.msw, |s.q.mseg|);
  }

  /** What one whole frame adds to the log and the queues. */
  predicate WholeTo(s: Rx, t: Rx, d: Desc, e: Env, id: bv32, len: bv32, off: bv32)
    requires QueuesOk(s.q)
  {
    && |t.log| == |s.log| + 1 && t.log[..|s.log|] == s.log
    && if ForWired(d, e) then
         t.q == s.q && t.log[|s.log|] == if e.room then Sent(id, Past(len, off), off) else Returned(id)
       else HostTook(s.q, t.q, t.log[|s.log|], id, len, 3, len)
  }

  lemma TestsAre(d: Desc, e: Env, info: bv32)
    requires ToWired(info) <==> Wired(d.dw1)
    ensures var err := ErrOf(d.dw1, d.dw2);
            var excused := err & 3 != 0 && e.icv;
            (excused || err == 0) && !(e.force || (!excused && ToCpu(d.dw2))) && ToWired(info) <==> ForWired(d, e)
  {
    hide ErrOf, ToWired;
    ErrIs(d);
  }

  lemma WholeExactly(s: Rx, d: Desc, e: Env, info: bv32)
    requires QueuesOk(s.q) && (ToWired(info) <==> Wired(d.dw1))
    ensures WholeTo(s, Whole(s, d, e, info), d, e, IdOf(d), SegOf(info), OffOf(info))
  {
    TestsAre(d, e, info);
    WholeFlags();
    ToHostTook(s.(heads := s.heads[IdOf(d) := info]), IdOf(d), SegOf(info), 2, SegOf(info));
    hide ErrOf, ToWired, SegOf, OffOf, ToHost, HostTook, ForWired, IdOf, Past, Wired, ToCpu;
  }

  lemma HandledWhole(s: Rx, d: Desc, e: Env, info: bv32)
    requires Valid(s) && !s.chaining && d.gen == s.gen && info == InfoOf(d.dw1, d.dw2) && !More(info)
    requires ToWired(info) <==> Wired(d.dw1)
    ensures WholeTo(s, Handled(s, d, e), d, e, IdOf(d), SegOf(info), OffOf(info))
  {
    WholeExactly(Turned(s), d, e, info);
    hide InfoOf, More, ToWired, SegOf, OffOf, Link, Begin, Whole, WholeTo, Advance, IdOf, Wired;
    AdvanceKeeps(Whole(Turned(s), d, e, info));
    WholeToMoves(s, Turned(s), Whole(Turned(s), d, e, info), Handled(s, d, e), d, e, IdOf(d), SegOf(info), OffOf(info));
  }

  lemma WholeToMoves(s: Rx, u: Rx, v: Rx, t: Rx, d: Desc, e: Env, id: bv32, len: bv32, off: bv32)
    requires QueuesOk(s.q) && u.q == s.q && u.log == s.log && t.q == v.q && t.log == v.log
    requires WholeTo(u, v, d, e, id, len, off)
    ensures WholeTo(s, t, d, e, id, len, off)
  {
    hide HostTook, ForWired, Past;
  }

  lemma ForWiredIs(d: Desc, e: Env)
    ensures ForWired(d, e) ==> d.dw1 & 0x1800 == 0x800
  {
    hide Flagged, Excusable;
  }

  lemma WiredIs(dw1: bv32)
    ensures Wired(dw1) <==> dw1 & 0x1800 == 0x800
  {
  }

  lemma IdIs(dw1: bv32, dw2: bv32, gen: nat)
    ensures IdOf(Desc(dw1, dw2, gen)) == dw2 >> 16
  {
  }

  /** A whole frame, from the descriptor's bits: offered to the wired side from its
      ethernet header on, or else queued for the host, whole. */
  lemma WiredExactly(s: Rx, dw1: bv32, dw2: bv32, e: Env)
    requires Valid(s) && !s.chaining && dw1 & 0x4000_0000 != 0
    ensures var d := Desc(dw1, dw2, s.gen);
            var t, id, len := Handled(s, d, e), dw2 >> 16, (dw1 >> 16) & 0x3FFF;
            && |t.log| == |s.log| + 1 && t.log[..|s.log|] == s.log
            && if ForWired(d, e) then
                 var off := (dw1 & 0x7F) << 1;
                 t.q == s.q && t.log[|s.log|] == if e.room then Sent(id, (len - off) & 0xFFFF, off) else Returned(id)
               else HostTook(s.q, t.q, t.log[|s.log|], id, len, 3, len)
  {
    var d := Desc(dw1, dw2, s.gen);
    hide *;
    InfoBits(dw1, dw2);
    ForWiredIs(d, e);
    WiredIs(dw1);
    IdIs(dw1, dw2, s.gen);
    WiredParts(s, d, e, InfoOf(dw1, dw2), dw2 >> 16, (dw1 >> 16) & 0x3FFF, (dw1 & 0x7F) << 1);
  }

  lemma WiredParts(s: Rx, d: Desc, e: Env, info: bv32, id: bv32, len: bv32, off: bv32)
    requires Valid(s) && !s.chaining && d.gen == s.gen && info == InfoOf(d.dw1, d.dw2) && !More(info)
    requires (ToWired(info) <==> Wired(d.dw1)) && IdOf(d) == id && SegOf(info) == len
    requires ForWired(d, e) ==> OffOf(info) == off
    ensures var t := Handled(s, d, e);
            && |t.log| == |s.log| + 1 && t.log[..|s.log|] == s.log
            && if ForWired(d, e) then
                 t.q == s.q && t.log[|s.log|] == if e.room then Sent(id, (len - off) & 0xFFFF, off) else Returned(id)
               else HostTook(s.q, t.q, t.log[|s.log|], id, len, 3, len)
  {
    assert QueuesOk(s.q);
    hide *;
    HandledWhole(s, d, e, info);
    WholeToIs(s, Handled(s, d, e), d, e, id, len, OffOf(info));
  }

  lemma WholeToIs(s: Rx, t: Rx, d: Desc, e: Env, id: bv32, len: bv32, off: bv32)
    requires QueuesOk(s.q) && WholeTo(s, t, d, e, id, len, off)
    ensures |t.log| == |s.log| + 1 && t.log[..|s.log|] == s.log
    ensures if ForWired(d, e) then
              t.q == s.q && t.log[|s.log|] == if e.room then Sent(id, (len - off) & 0xFFFF, off) else Returned(id)
            else HostTook(s.q, t.q, t.log[|s.log|], id, len, 3, len)
  {
    hide ForWired, HostTook, Past;
    PastIs(len, off);
  }

  lemma PastIs(len: bv32, off: bv32)
    ensures Past(len, off) == (len - off) & 0xFFFF
  {
  }

  lemma AdvanceKeeps(s: Rx)
    ensures var t := Advance(s); t.q == s.q && t.log == s.log
  {
  }

  /** What the host reads of segment i of a frame of count: last from bit 1, the
      number from 1 on, and the count. */
  lemma FlagsRead(i: nat, count: nat)
    requires i < count <= MSEG_MAX
    ensures var f := Flags(i, count);
            && (f & 2 != 0 <==> i + 1 == count) && f & 1 == 0
            && (f >> 2) & 7 == (i + 1) as bv32 && f >> 5 == count as bv32
  {
    var c, n := count as bv32, (i + 1) as bv32;
    FlagBits(if i == count - 1 then 2 else 0, c, n);
  }

  lemma FlagBits(l: bv32, c: bv32, n: bv32)
    requires (l == 0 || l == 2) && c <= 7 && n <= 7
    ensures var f := (l | (c << 5) | (n << 2)) & 0xFF;
            (f & 2 != 0 <==> l == 2) && f & 1 == 0 && (f >> 2) & 7 == n && f >> 5 == c
  {
  }

  // ---------------------------------------------------------------- a chain, exactly

  function SumLens(lens: seq<bv32>): bv32 {
    if lens == [] then 0 else Plus(SumLens(lens[..|lens| - 1]), lens[|lens| - 1])
  }

  /** An unfinished chain of these buffers and lengths. */
  predicate Holding(s: Rx, ids: seq<bv32>, lens: seq<bv32>) {
    && s.chaining && !s.abort && s.segs == |ids| == |lens| <= MSEG_MAX == |s.ids| == |s.lens|
    && s.ids[..s.segs] == ids && s.lens[..s.segs] == lens && s.segLen == SumLens(lens)
  }

  lemma StoreHolds(s: Rx, id: bv32, info: bv32, ids: seq<bv32>, lens: seq<bv32>)
    requires Holding(s, ids, lens) && s.segs < MSEG_MAX
    ensures Holding(Store(s, id, info), ids + [id], lens + [SegOf(info)])
  {
    hide SegOf, Plus;
    assert (lens + [SegOf(info)])[..|lens|] == lens;
  }

  /** A buffer with more to come joins the chain, or begins one; the seventh gives
      the chain up. */
  lemma ChainGrows(s: Rx, d: Desc, e: Env, ids: seq<bv32>, lens: seq<bv32>)
    requires Valid(s) && d.gen == s.gen && More(InfoOf(d.dw1, d.dw2))
    requires if s.chaining then Holding(s, ids, lens) else ids == lens == []
    ensures var t, len := Handled(s, d, e), SegOf(InfoOf(d.dw1, d.dw2));
            if |ids| < MSEG_MAX - 1 then Holding(t, ids + [IdOf(d)], lens + [len]) && t.log == s.log && t.q == s.q
            else t.chaining && t.abort && t.log == s.log + GiveBack(ids + [IdOf(d)]) && t.q == s.q
  {
    hide InfoOf, More, IdOf, SegOf, Plus, Advance, Link, Store, GiveBack, Zeros, SumLens;
    var u, id, info := Turned(s), IdOf(d), InfoOf(d.dw1, d.dw2);
    var b := if u.chaining then u else Begin(u, id, info);
    assert Holding(b, ids, lens) by { BeginHolds(u, id, info); }
    LinkGrows(b, id, info, ids, lens);
    AdvanceHolds(Body(u, d, e));
  }

  lemma BeginHolds(s: Rx, id: bv32, info: bv32)
    ensures Holding(Begin(s, id, info), [], [])
  {
  }

  lemma LinkGrows(b: Rx, id: bv32, info: bv32, ids: seq<bv32>, lens: seq<bv32>)
    requires Holding(b, ids, lens) && More(info) && b.segs < MSEG_MAX && QueuesOk(b.q)
    ensures var t := Link(b, id, info);
            if |ids| < MSEG_MAX - 1 then
              Holding(t, ids + [id], lens + [SegOf(info)]) && t.log == b.log && t.q == b.q
            else t.chaining && t.abort && t.log == b.log + GiveBack(ids + [id]) && t.q == b.q
  {
    hide More, SegOf, Plus, SumLens;
    StoreHolds(b, id, info, ids, lens);
    var t := Store(b, id, info);
    if t.segs > MSEG_MAX - 1 { assert t.ids == t.ids[..t.segs] == ids + [id]; }
  }

  lemma AdvanceHolds(s: Rx)
    ensures var t := Advance(s);
            && t.q == s.q && t.log == s.log && t.chaining == s.chaining && t.abort == s.abort && t.segs == s.segs
            && t.ids == s.ids && t.lens == s.lens && t.segLen == s.segLen && t.heads == s.heads
  {
  }

  /** Queues qs[i] to qs[i + 1] took segment i of a frame of length len, as event i. */
  predicate AllTook(qs: seq<Queues>, evs: seq<Event>, ids: seq<bv32>, lens: seq<bv32>, from: nat, count: nat,
                    len: bv32) {
    && count <= MSEG_MAX && from <= count <= |ids| && count <= |lens| && |evs| == count - from == |qs| - 1
    && forall i :: 0 <= i < count - from ==>
         && QueuesOk(qs[i])
         && HostTook(qs[i], qs[i + 1], evs[i], ids[from + i], len, Flags(from + i, count) | 1, lens[from + i])
  }

  lemma {:induction false} QueueTook(s: Rx, i: nat, count: nat) returns (qs: seq<Queues>, evs: seq<Event>)
    requires i <= count <= MSEG_MAX && |s.ids| == |s.lens| == MSEG_MAX && QueuesOk(s.q)
    ensures var t := Queue(s, i, count);
            && t.log == s.log + evs && AllTook(qs, evs, s.ids, s.lens, i, count, Low16(s.segLen))
            && qs != [] && qs[0] == s.q && qs[|qs| - 1] == t.q
    decreases count - i
  {
    hide Flags, Low16, HostTook, ToHost, AllTook;
    if i == count {
      qs, evs := [s.q], [];
      NoneTook(s, i);
    } else {
      var t := ToHost(s, s.ids[i], Low16(s.segLen), Flags(i, count), s.lens[i]);
      ToHostTook(s, s.ids[i], Low16(s.segLen), Flags(i, count), s.lens[i]);
      var rest, more := QueueTook(t, i + 1, count);
      var ev := t.log[|s.log|];
      assert t.log == s.log + [ev];
      qs, evs := [s.q] + rest, [ev] + more;
      assert s.log + [ev] + more == s.log + evs;
      TookFirst(s, t, i, count, ev, rest, more);
    }
  }

  lemma NoneTook(s: Rx, i: nat)
    requires i <= MSEG_MAX == |s.ids| == |s.lens|
    ensures AllTook([s.q], [], s.ids, s.lens, i, i, Low16(s.segLen)) && s.log + [] == s.log
  {
  }

  lemma TookFirst(s: Rx, t: Rx, i: nat, count: nat, ev: Event, rest: seq<Queues>, more: seq<Event>)
    requires i < count <= MSEG_MAX && |s.ids| == |s.lens| == MSEG_MAX && QueuesOk(s.q)
    requires t.ids == s.ids && t.lens == s.lens
    requires HostTook(s.q, t.q, ev, s.ids[i], Low16(s.segLen), Flags(i, count) | 1, s.lens[i])
    requires rest != [] && rest[0] == t.q && AllTook(rest, more, s.ids, s.lens, i + 1, count, Low16(s.segLen))
    ensures AllTook([s.q] + rest, [ev] + more, s.ids, s.lens, i, count, Low16(s.segLen))
  {
    hide Flags, Low16, HostTook;
    var qs, evs := [s.q] + rest, [ev] + more;
    forall j | 0 <= j < count - i
      ensures QueuesOk(qs[j])
      ensures HostTook(qs[j], qs[j + 1], evs[j], s.ids[i + j], Low16(s.segLen), Flags(i + j, count) | 1, s.lens[i + j])
    {
      if j > 0 {
        assert qs[j] == rest[j - 1] && qs[j + 1] == rest[j] && evs[j] == more[j - 1] && i + j == i + 1 + (j - 1);
      }
    }
  }

  /** The buffer without more to come ends the chain: every buffer, in order, to the
      host, each with the whole frame's length, its own, and its flags; and the whole
      length into the first one's word. */
  lemma ChainEnds(s: Rx, d: Desc, e: Env, ids: seq<bv32>, lens: seq<bv32>) returns (qs: seq<Queues>, evs: seq<Event>)
    requires Valid(s) && d.gen == s.gen && !More(InfoOf(d.dw1, d.dw2)) && Holding(s, ids, lens) && |ids| < MSEG_MAX
    ensures var t, len := Handled(s, d, e), SegOf(InfoOf(d.dw1, d.dw2));
            var all, sizes := ids + [IdOf(d)], lens + [len];
            && !t.chaining && t.log == s.log + evs && qs != [] && qs[0] == s.q && qs[|qs| - 1] == t.q
            && AllTook(qs, evs, all, sizes, 0, |all|, Low16(SumLens(sizes)))
            && t.heads == s.heads[all[0] := HeadWord(HeadOf(s, all[0]), SumLens(sizes))]
  {
    hide InfoOf, More, IdOf, SegOf, Plus, Advance, Flags, Low16, HeadWord, HostTook, ToHost, Queue, SumLens;
    var u, id, info := Turned(s), IdOf(d), InfoOf(d.dw1, d.dw2);
    StoreHolds(u, id, info, ids, lens);
    var t := Store(u, id, info);
    var all, sizes := ids + [id], lens + [SegOf(info)];
    assert t.ids[0] == t.ids[..t.segs][0] == all[0];
    var v := t.(heads := t.heads[all[0] := HeadWord(HeadOf(t, all[0]), t.segLen)]);
    qs, evs := QueueTook(v, 0, v.segs);
    AllTookPrefix(qs, evs, v.ids, v.lens, all, sizes, Low16(v.segLen));
    AdvanceHolds(Body(u, d, e));
  }

  lemma AllTookPrefix(qs: seq<Queues>, evs: seq<Event>, ids: seq<bv32>, lens: seq<bv32>, all: seq<bv32>,
                      sizes: seq<bv32>, len: bv32)
    requires |all| == |sizes| && AllTook(qs, evs, ids, lens, 0, |all|, len)
    requires ids[..|all|] == all && lens[..|all|] == sizes
    ensures AllTook(qs, evs, all, sizes, 0, |all|, len)
  {
    hide HostTook, Flags;
    assert forall i :: 0 <= i < |all| ==> all[i] == ids[..|all|][i] == ids[i];
    assert forall i :: 0 <= i < |all| ==> sizes[i] == lens[..|all|][i] == lens[i];
  }

  /** The word then says the whole frame's length, below 2^14. */
  lemma HeadSays(was: bv32, len: bv32)
    requires len <= 0x3FFF
    ensures SegOf(HeadWord(was, len)) == len && (More(HeadWord(was, len)) <==> More(was))
  {
  }

  /** The ring: one descriptor further, the generation on with each lap, and every
      128 descriptors the chip is told of all it may fill again. */
  lemma RingMoves(s: Rx, d: Desc, e: Env)
    requires Valid(s) && d.gen == s.gen < 16
    ensures var t := Handled(s, d, e);
            && t.ridx == (s.ridx + 1) % 1536 && t.gen == (if t.ridx == 0 then (s.gen + 1) % 16 else s.gen)
            && t.kick == (s.kick + 1) % 128 && t.cidx == if t.kick == 0 then s.ridx else s.cidx
  {
    hide InfoOf, More, Whole, Link, IdOf;
    var u := Turned(s);
    BodyRing(u, d, e);
  }

  lemma BodyRing(s: Rx, d: Desc, e: Env)
    requires Valid(s)
    ensures var t := Body(s, d, e); t.ridx == s.ridx && t.gen == s.gen && t.kick == s.kick && t.cidx == s.cidx
  {
    hide InfoOf, More, IdOf, ErrOf, SegOf, OffOf, ToHost, Queue, HeadOf, HeadWord;
    var id, info := IdOf(d), InfoOf(d.dw1, d.dw2);
    var t := s.(heads := s.heads[id := info]);
    if !More(info) && !s.chaining { ToHostTook(t, id, SegOf(info), 2, SegOf(info)); }
  }

  // ---------------------------------------------------------------- every buffer once

  /** Times buffer x was sent, queued or returned. */
  function Times(log: seq<Event>, x: bv32): nat {
    if log == [] then 0 else Times(log[..|log| - 1], x) + if log[|log| - 1].id == x then 1 else 0
  }

  /** Buffers of an unfinished chain. */
  function Held(s: Rx): seq<bv32>
    requires Valid(s)
  {
    if s.chaining && !s.abort then s.ids[..s.segs] else []
  }

  function Settled(s: Rx, x: bv32): nat
    requires Valid(s)
  {
    Times(s.log, x) + Count(Held(s), x)
  }

  lemma TimesSnoc(log: seq<Event>, e: Event, x: bv32)
    ensures Times(log + [e], x) == Times(log, x) + if e.id == x then 1 else 0
  {
    assert (log + [e])[..|log|] == log;
  }

  lemma {:induction false} TimesBack(log: seq<Event>, ids: seq<bv32>, x: bv32)
    ensures Times(log + GiveBack(ids), x) == Times(log, x) + Count(ids, x)
    decreases |ids|
  {
    if ids == [] {
      assert log + GiveBack(ids) == log;
    } else {
      hide Times, GiveBack;
      var n := |ids| - 1;
      TimesBack(log, ids[..n], x);
      TimesSnoc(log + GiveBack(ids[..n]), Returned(ids[n]), x);
      assert GiveBack(ids) == GiveBack(ids[..n]) + [Returned(ids[n])];
      assert log + GiveBack(ids) == log + GiveBack(ids[..n]) + [Returned(ids[n])];
    }
  }

  lemma {:induction false} CountFront(ids: seq<bv32>, x: bv32)
    requires ids != []
    ensures Count(ids, x) == (if ids[0] == x then 1 else 0) + Count(ids[1..], x)
  {
    var n := |ids| - 1;
    if n > 0 {
      CountFront(ids[..n], x);
      assert ids[..n][1..] == ids[1..][..n - 1];
    } else {
      assert ids[1..] == [] && ids[..0] == [];
    }
  }

  /** Queuing a chain settles each of its buffers once. */
  lemma {:induction false} QueueOnce(s: Rx, i: nat, count: nat, x: bv32)
    requires i <= count <= MSEG_MAX && |s.ids| == |s.lens| == MSEG_MAX && QueuesOk(s.q)
    ensures Times(Queue(s, i, count).log, x) == Times(s.log, x) + Count(s.ids[i..count], x)
    decreases count - i
  {
    hide Flags, ToHost, Count, Times, Low16;
    if i == count {
      assert s.ids[i..count] == [];
      NoneCount(x);
    } else {
      var t := ToHost(s, s.ids[i], Low16(s.segLen), Flags(i, count), s.lens[i]);
      ToHostOnce(s, s.ids[i], Low16(s.segLen), Flags(i, count), s.lens[i], x);
      QueueOnce(t, i + 1, count, x);
      CountFront(s.ids[i..count], x);
      assert s.ids[i..count][1..] == s.ids[i + 1..count];
    }
  }

  lemma NoneCount(x: bv32)
    ensures Count([], x) == 0
  {
  }

  lemma ToHostOnce(s: Rx, id: bv32, seg: bv32, flags: bv32, pkt: bv32, x: bv32)
    requires QueuesOk(s.q)
    ensures var t := ToHost(s, id, seg, flags, pkt);
            && t == s.(q := t.q, log := t.log) && QueuesOk(t.q)
            && Times(t.log, x) == Times(s.log, x) + if id == x then 1 else 0
  {
    TimesSnoc(s.log, Queued(id), x);
    TimesSnoc(s.log, Returned(id), x);
  }

  lemma WholeOnce(s: Rx, d: Desc, e: Env, info: bv32, x: bv32)
    requires Valid(s) && !s.chaining
    ensures var t := Whole(s, d, e, info);
            Valid(t) && Settled(t, x) == Settled(s, x) + if IdOf(d) == x then 1 else 0
  {
    hide ErrOf, Enqueue, IdOf, SegOf, OffOf, Past, ToHost, Times, ToWired, ToCpu;
    var id, t := IdOf(d), s.(heads := s.heads[IdOf(d) := info]);
    ToHostOnce(t, id, SegOf(info), 2, SegOf(info), x);
    TimesSnoc(s.log, Sent(id, Past(SegOf(info), OffOf(info)), OffOf(info)), x);
    TimesSnoc(s.log, Returned(id), x);
  }

  /** A chain's buffer is held with the others, or all are settled: a chain never
      holds more than six, so no store passes the seven places. */
  lemma LinkOnce(s: Rx, id: bv32, info: bv32, x: bv32)
    requires s.chaining && !s.abort && s.segs < MSEG_MAX && |s.ids| == |s.lens| == MSEG_MAX && QueuesOk(s.q)
    requires s.ridx <= LAST && 0 <= s.kick <= 127
    ensures var t := Link(s, id, info);
            Valid(t) && Settled(t, x) == Times(s.log, x) + Count(s.ids[..s.segs], x) + if id == x then 1 else 0
  {
    hide More, SegOf, Times, Count, Complete, Plus, GiveBack;
    var t := Store(s, id, info);
    assert t.ids[..t.segs] == s.ids[..s.segs] + [id];
    CountSnoc(s.ids[..s.segs], id, x);
    NoneCount(x);
    if More(info) {
      if t.segs > MSEG_MAX - 1 {
        assert t.ids[..t.segs] == t.ids;
        TimesBack(t.log, t.ids, x);
      }
    } else {
      CompleteOnce(t, x);
    }
  }

  /** A complete chain settles each of its buffers once, and is over. */
  lemma CompleteOnce(t: Rx, x: bv32)
    requires t.segs <= MSEG_MAX && |t.ids| == |t.lens| == MSEG_MAX && QueuesOk(t.q)
    requires t.ridx <= LAST && 0 <= t.kick <= 127
    ensures var u := Complete(t);
            Valid(u) && !u.chaining && Times(u.log, x) == Times(t.log, x) + Count(t.ids[..t.segs], x)
  {
    hide Times, Count, Queue, HeadOf, HeadWord, Low16, Flags, ToHost;
    var head := t.ids[0];
    var u := t.(heads := t.heads[head := HeadWord(HeadOf(t, head), t.segLen)]);
    QueueOnce(u, 0, u.segs, x);
    assert u.ids[0..u.segs] == t.ids[..t.segs];
  }

  lemma BodyOnce(s: Rx, d: Desc, e: Env, x: bv32)
    requires Valid(s)
    ensures var t := Body(s, d, e);
            Valid(t) && Settled(t, x) == Settled(s, x) + if IdOf(d) == x then 1 else 0
  {
    hide InfoOf, IdOf, More, Times, Count, Whole, Link;
    var id, info := IdOf(d), InfoOf(d.dw1, d.dw2);
    TimesSnoc(s.log, Returned(id), x);
    NoneCount(x);
    if !More(info) && !s.chaining {
      WholeOnce(s, d, e, info, x);
    } else if s.chaining && !s.abort {
      LinkOnce(s, id, info, x);
    } else if !s.chaining {
      var t := Begin(s, id, info);
      assert t.ids[..t.segs] == [];
      LinkOnce(t, id, info, x);
    }
  }

  /** One descriptor settles or holds its buffer, once, and nothing else's. */
  lemma HandledOnce(s: Rx, d: Desc, e: Env, x: bv32)
    requires Valid(s)
    ensures var t := Handled(s, d, e);
            Valid(t) && Settled(t, x) == Settled(s, x) + if d.gen == s.gen && IdOf(d) == x then 1 else 0
  {
    hide Body, IdOf, Times, Count;
    BodyOnce(Turned(s), d, e, x);
  }

  /** One round of the hart: the queues as their consumers left them, then a descriptor. */
  datatype Round = Round(q: Queues, d: Desc, e: Env)

  function After(s: Rx, rounds: seq<Round>): (t: Rx)
    requires Valid(s) && forall i :: 0 <= i < |rounds| ==> QueuesOk(rounds[i].q)
    ensures Valid(t)
  {
    if rounds == [] then s
    else
      var r, t := rounds[|rounds| - 1], After(s, rounds[..|rounds| - 1]);
      HandledOnce(t.(q := r.q), r.d, r.e, 0);
      Handled(t.(q := r.q), r.d, r.e)
  }

  /** The buffers of the descriptors that were new when their turn came. */
  function Arrived(s: Rx, rounds: seq<Round>): seq<bv32>
    requires Valid(s) && forall i :: 0 <= i < |rounds| ==> QueuesOk(rounds[i].q)
  {
    if rounds == [] then []
    else
      var r, before := rounds[|rounds| - 1], rounds[..|rounds| - 1];
      Arrived(s, before) + if r.d.gen == After(s, before).gen then [IdOf(r.d)] else []
  }

  /** Over any run of descriptors and queue states, each buffer is sent to the
      wired side, queued for the host, returned, or held by the unfinished chain
      exactly as often as it arrived. */
  lemma {:induction false} EveryBufferOnce(s: Rx, rounds: seq<Round>, x: bv32)
    requires Valid(s) && (forall i :: 0 <= i < |rounds| ==> QueuesOk(rounds[i].q)) && s.log == [] && !s.chaining
    ensures Times(After(s, rounds).log, x) + Count(Held(After(s, rounds)), x) == Count(Arrived(s, rounds), x)
  {
    hide Handled, IdOf, Times, Count;
    if rounds == [] {
      NoneCount(x);
      assert Times([], x) == 0 by { NoneTimes(x); }
    } else {
      var r, before := rounds[|rounds| - 1], rounds[..|rounds| - 1];
      EveryBufferOnce(s, before, x);
      var t := After(s, before);
      HandledOnce(t.(q := r.q), r.d, r.e, x);
      CountSnoc(Arrived(s, before), IdOf(r.d), x);
      assert Arrived(s, before) + [] == Arrived(s, before);
    }
  }

  lemma NoneTimes(x: bv32)
    ensures Times([], x) == 0
  {
  }

  // ---------------------------------------------------------------- the firmware

  /** The rxdmad hart's state; the queues it shares with the host adaptor. */
  class Rxd {
    var chaining: bool
    var abort: bool
    var segs: nat
    var segLen: bv32
    var ids: seq<bv32>
    var lens: seq<bv32>
    var gen: nat
    var ridx: nat
    var kick: int
    var cidx: int
    var heads: map<bv32, bv32>
    var q: Queues
    var log: seq<Event>

    function View(): Rx
      reads this
    {
      Rx(chaining, abort, segs, segLen, ids, lens, gen, ridx, kick, cidx, heads, q, log)
    }

    constructor (queues: Queues, g: nat)
      requires QueuesOk(queues)
      ensures Valid(View()) && !chaining && log == [] && q == queues && gen == g && ridx == 0
    {
      chaining, abort, segs, segLen := false, false, 0, 0;
      ids, lens := Zeros(), Zeros();
      gen, ridx, kick, cidx, heads, q, log := g, 0, 0, 0, map[], queues, [];
    }

    /** eagle_pkt_enqueue, or the buffer back. */
    method PktEnqueue(id: bv32, seg: bv32, flags: bv32, pkt: bv32)
      requires QueuesOk(q)
      modifies this`q, this`log
      ensures View() == ToHost(old(View()), id, seg, flags, pkt)
    {
      if pkt == seg {
        if q.txq[q.txw].Full? {
          log := log + [Returned(id)];
          return;
        }
        q := q.(txq := q.txq[q.txw := Full(id, seg, pkt, flags | 1)], txw := Bump(q.txw, |q.txq|));
      } else {
        if q.mseg[q.msw].Full? {
          log := log + [Returned(id)];
          return;
        }
        q := q.(mseg := q.mseg[q.msw := Full(id, seg, pkt, flags | 1)], msw := Bump(q.msw, |q.mseg|));
      }
      log := log + [Queued(id)];
    }

    /** tdma_tx_submit, or the buffer back. */
    method TdmaSubmit(id: bv32, len: bv32, off: bv32, room: bool)
      modifies this`log
      ensures View() == ToWire(old(View()), id, len, off, room)
    {
      log := log + [if room then Sent(id, len, off) else Returned(id)];
    }

    /** The whole-frame branch. */
    method WholeFrame(d: Desc, e: Env, info: bv32)
      requires QueuesOk(q)
      modifies this`heads, this`q, this`log
      ensures View() == Whole(old(View()), d, e, info)
    {
      hide ErrOf, SegOf, OffOf, Past, ToWired, ToCpu, ToHost, ToWire, IdOf;
      var id, err, cpu := IdOf(d), ErrOf(d.dw1, d.dw2), ToCpu(d.dw2);
      var ok := err == 0;
      if err & 3 != 0 && e.icv {
        ok := true;
        cpu := false;
      }
      heads := heads[id := info];
      if ok && !e.force && !cpu {
        if ToWired(info) {
          TdmaSubmit(id, Past(SegOf(info), OffOf(info)), OffOf(info), e.room);
        } else {
          PktEnqueue(id, SegOf(info), 2, SegOf(info));
        }
      } else {
        PktEnqueue(id, SegOf(info), 2, SegOf(info));
      }
    }

    /** Too many buffers: all stored ones go back. */
    method GiveUp()
      requires |ids| == MSEG_MAX
      modifies this`abort, this`log
      ensures View() == old(View()).(abort := true, log := old(log) + GiveBack(ids))
    {
      abort := true;
      for i := 0 to MSEG_MAX
        modifies this`log
        invariant log == old(log) + GiveBack(ids[..i])
      {
        assert GiveBack(ids[..i + 1]) == GiveBack(ids[..i]) + [Returned(ids[i])];
        log := log + [Returned(ids[i])];
      }
      assert ids[..MSEG_MAX] == ids;
    }

    /** The last buffer is there. */
    method Finish()
      requires segs <= MSEG_MAX && |ids| == |lens| == MSEG_MAX && QueuesOk(q)
      modifies this`heads, this`q, this`log, this`chaining
      ensures View() == Complete(old(View()))
    {
      hide Flags, ToHost, HeadWord, Low16, HeadOf, Queue;
      var count := if segs > MSEG_MAX then MSEG_MAX else segs;
      heads := heads[ids[0] := HeadWord(HeadOf(View(), ids[0]), segLen)];
      ghost var full := View();
      for i := 0 to count
        modifies this`q, this`log
        invariant View() == full.(q := q, log := log) && QueuesOk(q)
        invariant Queue(View(), i, count) == Queue(full, 0, count)
      {
        QueueStep(View(), i, count);
        PktEnqueue(ids[i], Low16(segLen), Flags(i, count), lens[i]);
      }
      QueueEnd(View(), count);
      chaining := false;
    }

    method StoreSeg(id: bv32, info: bv32)
      requires segs < MSEG_MAX && |ids| == |lens| == MSEG_MAX
      modifies this`lens, this`ids, this`segLen, this`segs
      ensures View() == Store(old(View()), id, info)
    {
      hide SegOf, Plus;
      lens := lens[segs := SegOf(info)];
      ids := ids[segs := id];
      segLen := Plus(segLen, SegOf(info));
      segs := segs + 1;
    }

    /** The chain branch, once the buffer belongs to a chain not given up. */
    method LinkFrame(id: bv32, info: bv32)
      requires segs < MSEG_MAX && |ids| == |lens| == MSEG_MAX && QueuesOk(q)
      modifies this`lens, this`ids, this`segLen, this`segs, this`abort, this`heads, this`q, this`log, this`chaining
      ensures View() == Link(old(View()), id, info)
    {
      hide SegOf, More, Complete, GiveBack, Store;
      StoreShape(View(), id, info);
      StoreSeg(id, info);
      if More(info) {
        if segs > MSEG_MAX - 1 {
          GiveUp();
        }
      } else {
        Finish();
      }
    }

    /** The descriptor's frame or segment. */
    method Take(d: Desc, e: Env)
      requires Valid(View())
      modifies this
      ensures View() == Body(old(View()), d, e)
    {
      hide InfoOf, IdOf, More, Whole, Link, Begin;
      BeginShape(View(), IdOf(d), InfoOf(d.dw1, d.dw2));
      var id, info := IdOf(d), InfoOf(d.dw1, d.dw2);
      if !More(info) && !chaining {
        WholeFrame(d, e, info);
        return;
      }
      if !More(info) && abort {
        log := log + [Returned(id)];
        chaining, abort := false, false;
        return;
      }
      if !chaining {
        BeginChain(id, info);
      }
      if abort {
        log := log + [Returned(id)];
        return;
      }
      LinkFrame(id, info);
    }

    method BeginChain(id: bv32, info: bv32)
      modifies this`abort, this`segs, this`segLen, this`chaining, this`ids, this`lens, this`heads
      ensures View() == Begin(old(View()), id, info)
    {
      hide Zeros;
      abort, segs, segLen, chaining := false, 0, 0, true;
      ids, lens := Zeros(), Zeros();
      heads := heads[id := info];
    }

    /** eagle_rxdmad_handle; true while the descriptor is not new. */
    method Handle(d: Desc, e: Env) returns (empty: bool)
      requires Valid(View())
      modifies this
      ensures View() == Handled(old(View()), d, e) && empty == (d.gen != old(gen))
    {
      hide Body, Advance;
      if d.gen != gen {
        return true;
      }
      if ridx == LAST {
        gen := (gen + 1) % 16;
      }
      Take(d, e);
      Move();
      empty := false;
    }

    /** The fast form's whole turn; false when the general one must take it. */
    method FastHandle(d: Desc, e: Env) returns (done: bool, empty: bool)
      requires Valid(View()) && !chaining
      modifies this
      ensures done == (d.gen != old(gen) || Common(d, e)) && (done ==> empty == (d.gen != old(gen)))
      ensures done ==> View() == Handled(old(View()), d, e)
      ensures !done ==> View() == old(View())
    {
      hide Common, Handled, WithWire, FastInfo, FastOff, Past, LenOf, Wired, ToCpu, IdOf, FastBody;
      ghost var was := View();
      if d.gen != gen {
        NotNew(was, d, e);
        return true, true;
      }
      if !Common(d, e) {
        return false, false;
      }
      FastTurn(was, d, e);
      if ridx == LAST {
        gen := (gen + 1) % 16;
      }
      FastFrame(d, e);
      Move();
      done, empty := true, false;
    }

    method FastFrame(d: Desc, e: Env)
      requires QueuesOk(q)
      modifies this`heads, this`q, this`log
      ensures View() == FastBody(old(View()), d, e)
    {
      hide WithWire, FastInfo, FastOff, Past, LenOf, Wired, ToCpu, IdOf, ToWire;
      var id, len := IdOf(d), LenOf(d.dw1);
      if Wired(d.dw1) {
        heads := heads[id := WithWire(FastInfo(d.dw1, d.dw2), d.dw1)];
        if !e.force && !ToCpu(d.dw2) {
          TdmaSubmit(id, Past(len, FastOff(d.dw1)), FastOff(d.dw1), e.room);
          return;
        }
      } else {
        heads := heads[id := FastInfo(d.dw1, d.dw2)];
      }
      if q.txq[q.txw].Full? {
        log := log + [Returned(id)];
      } else {
        q := q.(txq := q.txq[q.txw := Full(id, len, len, 3)], txw := Bump(q.txw, |q.txq|));
        log := log + [Queued(id)];
      }
    }

    /** The next descriptor, and the chip's slots back every 128. */
    method Move()
      modifies this`ridx, this`kick, this`cidx
      ensures View() == Advance(old(View()))
    {
      var next := ridx + 1;
      if next >= 1536 {
        next := 0;
      }
      ridx := next;
      kick := if kick == 127 then -128 else kick + 1;
      if kick < 0 {
        cidx := if next != 0 then next - 1 else LAST;
        kick := 0;
      }
    }
  }

  lemma BeginShape(s: Rx, id: bv32, info: bv32)
    ensures var t := Begin(s, id, info);
            && !t.abort && t.segs == 0 && |t.ids| == |t.lens| == MSEG_MAX
            && t.q == s.q && t.ridx == s.ridx && t.kick == s.kick
  {
  }

  lemma StoreShape(s: Rx, id: bv32, info: bv32)
    requires s.segs < MSEG_MAX && |s.ids| == |s.lens| == MSEG_MAX
    ensures var t := Store(s, id, info); t.segs == s.segs + 1 && |t.ids| == |t.lens| == MSEG_MAX && t.q == s.q
  {
    hide SegOf;
  }

  lemma QueueStep(s: Rx, i: nat, count: nat)
    requires i < count <= MSEG_MAX && |s.ids| == |s.lens| == MSEG_MAX && QueuesOk(s.q)
    ensures var t := ToHost(s, s.ids[i], Low16(s.segLen), Flags(i, count), s.lens[i]);
            && Queue(s, i, count) == Queue(t, i + 1, count)
            && t == s.(q := t.q, log := t.log) && QueuesOk(t.q)
  {
    hide Low16, Flags;
  }

  lemma QueueEnd(s: Rx, count: nat)
    requires count <= MSEG_MAX && |s.ids| == |s.lens| == MSEG_MAX && QueuesOk(s.q)
    ensures Queue(s, count, count) == s
  {
  }

  lemma NotNew(s: Rx, d: Desc, e: Env)
    requires Valid(s) && d.gen != s.gen
    ensures Handled(s, d, e) == s
  {
  }

  lemma FastTurn(s: Rx, d: Desc, e: Env)
    requires Valid(s) && !s.chaining && Common(d, e) && d.gen == s.gen
    ensures Handled(s, d, e) == Advance(FastBody(Turned(s), d, e))
  {
    hide Handled, Advance, FastBody, Common;
    FastAgrees(s, d, e);
  }
}
