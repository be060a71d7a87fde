/** The TDMA tx ring towards the wired side: the hot and the slow submit, the
    free count they cache between reads of the engine's index, and the engine
    that takes descriptors beside them at any time. */
module TdmaRoom {

  const N := 1024

  /** A descriptor's two words. */
  datatype Desc = Desc(w0: bv32, w1: bv32)

  /** The sender's side: the ring, its index, the index it published, the cache. */
  datatype Tx = Tx(slots: seq<Desc>, sw: nat, pub: nat, free: nat)

  function Next(i: nat): nat {
    if i > 0x3FE then 0 else i + 1
  }

  /** Free slots for the engine's index hw, one kept open. */
  function FreeAt(sw: nat, hw: nat): nat
    requires sw < N && hw < N
  {
    if sw < hw then hw - sw - 1 else 1023 - sw + hw
  }

  // ---------------------------------------------------------------- words

  /** Word 0 as the hot form builds it whole. */
  function HotWord(token: bv32, len: bv32): bv32 {
    0x4000_0000 | (token << 14) | (len & 0x1FFF)
  }

  /** Word 0 as the slow form patches it into what the slot held. */
  function SlowWord(was: bv32, token: bv32, len: bv32): bv32 {
    var w := (was & 0x3FFF_FFFF) | 0x4000_0000;
    var v := (w & 0xC000_1FFF) | (token << 14);
    (v & 0xFFFF_E000) | (len & 0x1FFF)
  }

  /** The patch leaves nothing of the old word: both forms write the same. */
  lemma SameWord(was: bv32, token: bv32, len: bv32)
    ensures SlowWord(was, token, len) == HotWord(token, len)
  {
  }

  function BufWord(buf: bv32): bv32 {
    (buf & 0x3FFF_FFFF) | 0x8000_0000
  }

  /** A short frame goes out with 60 bytes, zeros behind its own. */
  function PaddedLen(len: nat): nat {
    if len < 60 then 60 else len
  }

  function Padded(mem: seq<bv8>, len: nat): (r: seq<bv8>)
    requires |mem| >= 60
    ensures |r| == |mem|
  {
    if len < 60 then mem[..len] + seq(60 - len, i => 0) + mem[60..] else mem
  }

  function LenBits(n: nat): bv32
    requires n < 0x1_0000
  {
    n as bv32
  }

  function DescOf(token: bv32, len: nat, buf: bv32): Desc
    requires len < 0x1_0000
  {
    Desc(HotWord(token, LenBits(PaddedLen(len))), BufWord(buf))
  }

  /** What the engine reads of a descriptor: token, 13 bits of the padded length, buffer
      address, and the marks in the top two bits of both words. */
  lemma DescReads(token: bv32, len: nat, buf: bv32)
    requires token <= 0xFFFF && len < 0x1_0000
    ensures var d := DescOf(token, len, buf);
            && d.w0 >> 30 == 1 && (d.w0 >> 14) & 0xFFFF == token
            && d.w0 & 0x1FFF == ((if len < 60 then 60 else len) as bv32) & 0x1FFF
            && d.w1 >> 30 == 2 && d.w1 & 0x3FFF_FFFF == buf & 0x3FFF_FFFF
  {
    HotReads(token, LenBits(PaddedLen(len)));
    BufReads(buf);
  }

  lemma HotReads(token: bv32, len: bv32)
    requires token <= 0xFFFF
    ensures var w := HotWord(token, len); w >> 30 == 1 && (w >> 14) & 0xFFFF == token && w & 0x1FFF == len & 0x1FFF
  {
  }

  lemma BufReads(buf: bv32)
    ensures BufWord(buf) >> 30 == 2 && BufWord(buf) & 0x3FFF_FFFF == buf & 0x3FFF_FFFF
  {
  }

  // ---------------------------------------------------------------- one submit

  /** The count tdma_tx_room gets from up to five reads of the engine's index. */
  function RoomOf(sw: nat, hws: seq<nat>): (n: nat)
    requires sw < N && forall i :: 0 <= i < |hws| ==> hws[i] < N
    ensures n == 0 || n > 4
  {
    if hws == [] then 0
    else if FreeAt(sw, hws[0]) > 4 then FreeAt(sw, hws[0])
    else RoomOf(sw, hws[1..])
  }

  /** One submit: the new state, and whether the frame went into the ring. */
  function Submitted(t: Tx, d: Desc, hws: seq<nat>): (Tx, bool)
    requires |t.slots| == N && t.sw < N && forall i :: 0 <= i < |hws| ==> hws[i] < N
  {
    var free := if t.free <= 4 then RoomOf(t.sw, hws) else t.free;
    if free == 0 then (t.(free := 0), false)
    else (Tx(t.slots[t.sw := d], Next(t.sw), Next(t.sw), free - 1), true)
  }

  class Ring {
    var slots: seq<Desc>
    var sw: nat
    var pub: nat
    var free: nat
    /** The frame buffer at hand. */
    var mem: seq<bv8>

    predicate Valid()
      reads this
    {
      |slots| == N && sw < N && pub < N && |mem| >= 60
    }

    function View(): Tx
      reads this
    {
      Tx(slots, sw, pub, free)
    }

    constructor (s: seq<Desc>, at: nat, m: seq<bv8>)
      requires |s| == N && at < N && |m| >= 60
      ensures Valid() && View() == Tx(s, at, at, 0) && mem == m
    {
      slots, sw, pub, free, mem := s, at, at, 0, m;
    }

    /** tdma_tx_room. */
    method Room(hws: seq<nat>) returns (n: nat)
      requires Valid() && |hws| == 5 && forall i :: 0 <= i < |hws| ==> hws[i] < N
      ensures n == RoomOf(sw, hws)
    {
      var retries := 5;
      while true
        invariant 1 <= retries <= 5 && RoomOf(sw, hws) == RoomOf(sw, hws[5 - retries..])
        decreases retries
      {
        var hw := hws[5 - retries];
        n := if sw < hw then hw - sw - 1 else 1023 - sw + hw;
        assert hws[5 - retries..][1..] == hws[5 - retries + 1..];
        if n > 4 {
          return;
        }
        retries := retries - 1;
        if retries == 0 {
          return 0;
        }
      }
    }

    /** tdma_tx_submit_slow: waits for room, patches word 0. */
    method SubmitSlow(token: bv32, len: nat, buf: bv32, hws: seq<nat>) returns (ok: bool)
      requires Valid() && |hws| == 5 && (forall i :: 0 <= i < |hws| ==> hws[i] < N) && len < 0x1_0000
      modifies this
      ensures Valid() && (View(), ok) == Submitted(old(View()), DescOf(token, len, buf), hws)
      ensures mem == if ok then Padded(old(mem), len) else old(mem)
    {
      hide SlowWord, HotWord, BufWord, LenBits, RoomOf;
      if free <= 4 {
        free := Room(hws);
        if free == 0 {
          return false;
        }
      }
      free := free - 1;
      var n := len;
      if n < 60 {
        mem := Padded(mem, n);
        n := 60;
      }
      var next := if sw > 0x3FE then 0 else sw + 1;
      SameWord(slots[sw].w0, token, LenBits(n));
      slots := slots[sw := Desc(SlowWord(slots[sw].w0, token, LenBits(n)), BufWord(buf))];
      sw := next;
      pub := next;
      ok := true;
    }

    /** tdma_tx_submit: takes its own path while the cache says there is room. */
    method Submit(token: bv32, len: nat, buf: bv32, counting: bool, hws: seq<nat>) returns (ok: bool)
      requires Valid() && |hws| == 5 && (forall i :: 0 <= i < |hws| ==> hws[i] < N) && len < 0x1_0000
      modifies this
      ensures Valid() && (View(), ok) == Submitted(old(View()), DescOf(token, len, buf), hws)
      ensures mem == if ok then Padded(old(mem), len) else old(mem)
    {
      hide SlowWord, HotWord, BufWord, LenBits, RoomOf;
      if counting || free <= 4 {
        ok := SubmitSlow(token, len, buf, hws);
        return;
      }
      free := free - 1;
      var n := len;
      while n < 60
        modifies this`mem
        invariant n <= PaddedLen(len) && len <= n && |mem| >= 60
        invariant mem == if len < 60 then old(mem)[..len] + seq(n - len, i => 0) + old(mem)[n..] else old(mem)
      {
        mem := mem[n := 0];
        n := n + 1;
      }
      var next := if sw > 0x3FE then 0 else sw + 1;
      slots := slots[sw := Desc(HotWord(token, LenBits(n)), BufWord(buf))];
      sw := next;
      pub := next;
      ok := true;
    }
  }

  // ---------------------------------------------------------------- beside the engine

  /** The sender inside its lock, between two accesses. */
  datatype Phase =
    | Idle
    | Chosen(d: Desc, tries: nat)     // about to look at the cache, or read the engine's index
    | Room(d: Desc)                   // about to write word 1
    | Half(d: Desc)                   // about to move the index
    | Moved(d: Desc, at: nat)         // about to write word 0
    | Ready(d: Desc)                  // about to publish

  /** hw: the engine's index. sent: what was published, taken: what it took. */
  datatype State = State(t: Tx, hw: nat, phase: Phase, sent: seq<Desc>, taken: seq<Desc>)

  predicate Shaped(s: State) {
    |s.t.slots| == N && s.t.sw < N && s.t.pub < N && s.hw < N && (s.phase.Moved? ==> s.phase.at < N)
  }

  predicate SendStep(s: State, s': State)
    requires Shaped(s)
  {
    var t := s.t;
    match s.phase
    case Idle => s'.phase.Chosen? && s'.phase.tries == 5 && s' == s.(phase := s'.phase)
    case Chosen(d, tries) =>
      if t.free > 4 then s' == s.(t := t.(free := t.free - 1), phase := Room(d))
      else if FreeAt(t.sw, s.hw) > 4 then s' == s.(t := t.(free := FreeAt(t.sw, s.hw) - 1), phase := Room(d))
      else if tries > 1 then s' == s.(phase := Chosen(d, tries - 1))
      else s' == s.(t := t.(free := 0), phase := Idle)
    case Room(d) =>
      s' == s.(t := t.(slots := t.slots[t.sw := t.slots[t.sw].(w1 := d.w1)]), phase := Half(d))
    case Half(d) => s' == s.(t := t.(sw := Next(t.sw)), phase := Moved(d, t.sw))
    case Moved(d, at) => s' == s.(t := t.(slots := t.slots[at := t.slots[at].(w0 := d.w0)]), phase := Ready(d))
    case Ready(d) => s' == s.(t := t.(pub := t.sw), phase := Idle, sent := s.sent + [d])
  }

  /** The engine takes the next published descriptor. */
  predicate EngineStep(s: State, s': State)
    requires Shaped(s)
  {
    s.hw != s.t.pub && s' == s.(hw := Next(s.hw), taken := s.taken + [s.t.slots[s.hw]])
  }

  predicate Step(s: State, s': State) {
    Shaped(s) && (SendStep(s, s') || EngineStep(s, s'))
  }

  /** The slot k places after i. */
  function Slot(i: nat, k: nat): nat {
    if i + k < N then i + k else i + k - N
  }

  /** Descriptors published and not yet taken sit in order from the engine's index. */
  predicate Holds(s: State)
    requires Shaped(s)
  {
    var n := |s.sent| - |s.taken|;
    && 0 <= n < N && s.taken == s.sent[..|s.taken|] && s.t.pub == Slot(s.hw, n)
    && forall k :: 0 <= k < n ==> s.t.slots[Slot(s.hw, k)] == s.sent[|s.taken| + k]
  }

  /** The cache counts no slot that is not free, the one being filled aside. */
  predicate Counts(s: State) {
    var n := |s.sent| - |s.taken|;
    match s.phase
    case Idle => s.t.sw == s.t.pub && s.t.free + n < N
    case Chosen(_, tries) => s.t.sw == s.t.pub && s.t.free + n < N && tries >= 1
    case Room(_) => s.t.sw == s.t.pub && s.t.free + n + 1 < N
    case Half(d) => s.t.sw == s.t.pub && s.t.free + n + 1 < N && s.t.sw < |s.t.slots| && s.t.slots[s.t.sw].w1 == d.w1
    case Moved(d, at) =>
      && at == s.t.pub && s.t.sw == Next(s.t.pub) && s.t.free + n + 1 < N
      && at < |s.t.slots| && s.t.slots[at].w1 == d.w1
    case Ready(d) =>
      && s.t.sw == Next(s.t.pub) && s.t.free + n + 1 < N && s.t.pub < |s.t.slots| && s.t.slots[s.t.pub] == d
  }

  predicate Inv(s: State) {
    Shaped(s) && Holds(s) && Counts(s)
  }

  predicate Init(s: State) {
    Shaped(s) && s.sent == s.taken == [] && s.hw == s.t.sw == s.t.pub && s.t.free == 0 && s.phase == Idle
  }

  lemma SendKeeps(s: State, s': State)
    requires Inv(s) && SendStep(s, s')
    ensures Inv(s')
  {
    hide Holds;
    var t := s.t;
    match s.phase
    case Room(d) => HoldsApart(s, s', t.slots[t.sw].(w1 := d.w1));
    case Moved(d, at) => HoldsApart(s, s', t.slots[at].(w0 := d.w0));
    case Ready(d) => HoldsMore(s, s');
    case _ => HoldsSame(s, s');
  }

  /** Writing the slot behind the published ones touches none of them. */
  lemma HoldsApart(s: State, s': State, x: Desc)
    requires Shaped(s) && Holds(s) && s'.t.slots == s.t.slots[s.t.pub := x]
    requires s'.t.pub == s.t.pub && s'.hw == s.hw && s'.sent == s.sent && s'.taken == s.taken && Shaped(s')
    ensures Holds(s')
  {
    SlotsApart(s.hw, |s.sent| - |s.taken|);
  }

  lemma HoldsSame(s: State, s': State)
    requires Shaped(s) && Shaped(s') && s'.t.slots == s.t.slots && s'.t.pub == s.t.pub && s'.hw == s.hw
    requires s'.sent == s.sent && s'.taken == s.taken
    ensures |s.sent| - |s.taken| == |s'.sent| - |s'.taken| && (Holds(s) ==> Holds(s'))
    ensures Holds(s) ==> 0 <= |s.sent| - |s.taken| < N && s.t.pub == Slot(s.hw, |s.sent| - |s.taken|)
  {
  }

  lemma HoldsMore(s: State, s': State)
    requires Inv(s) && s.phase.Ready? && SendStep(s, s')
    ensures Holds(s')
  {
    var n := |s.sent| - |s.taken|;
    assert Slot(s.hw, n + 1) == Next(Slot(s.hw, n));
    assert s'.sent[..|s.taken|] == s.sent[..|s.taken|];
  }

  lemma SlotsApart(h: nat, n: nat)
    requires h < N && n < N
    ensures forall k :: 0 <= k < n ==> Slot(h, k) != Slot(h, n)
  {
  }

  lemma EngineKeeps(s: State, s': State)
    requires Inv(s) && EngineStep(s, s')
    ensures Inv(s')
  {
    var n := |s.sent| - |s.taken|;
    assert s.t.slots[Slot(s.hw, 0)] == s.sent[|s.taken|];
    assert s'.taken == s.sent[..|s.taken| + 1];
    forall k | 0 <= k < n - 1 ensures Slot(s'.hw, k) == Slot(s.hw, k + 1) {
    }
    assert Slot(s'.hw, n - 1) == Slot(s.hw, n);
  }

  predicate IsRun(run: seq<State>) {
    run != [] && Init(run[0]) && forall i :: 0 < i < |run| ==> Step(run[i - 1], run[i])
  }

  lemma {:induction false} RunInv(run: seq<State>, k: nat)
    requires IsRun(run) && k < |run|
    ensures Inv(run[k])
  {
    hide Inv, SendStep, EngineStep;
    if k == 0 {
      InitInv(run[0]);
    } else {
      RunInv(run, k - 1);
      assert Step(run[k - 1], run[k]);
      if SendStep(run[k - 1], run[k]) { SendKeeps(run[k - 1], run[k]); } else { EngineKeeps(run[k - 1], run[k]); }
    }
  }

  lemma InitInv(s: State)
    requires Init(s)
    ensures Inv(s)
  {
  }

  /** On every run the cached count never exceeds the slots truly free, and the
      engine takes exactly the descriptors submitted, in their order: none is
      overwritten before it is taken, and none taken twice. */
  lemma NoneOverwritten(run: seq<State>, k: nat)
    requires IsRun(run) && k < |run|
    ensures Shaped(run[k]) && run[k].taken <= run[k].sent && |run[k].sent| - |run[k].taken| < N
    ensures run[k].phase == Idle ==>
              run[k].t.free <= FreeAt(run[k].t.sw, run[k].hw) == N - 1 - (|run[k].sent| - |run[k].taken|)
    ensures var n := |run[k].sent| - |run[k].taken|;
            forall j :: 0 <= j < n ==> run[k].t.slots[Slot(run[k].hw, j)] == run[k].sent[|run[k].taken| + j]
  {
    RunInv(run, k);
  }

  /** With the engine standing still the steps of one submit are Submitted. */
  lemma SubmitIsSteps(s: State, d: Desc) returns (path: seq<State>)
    requires Inv(s) && s.phase == Idle
    ensures |path| >= 2 && path[0] == s && path[|path| - 1].phase == Idle
    ensures forall i :: 0 < i < |path| ==> Step(path[i - 1], path[i])
    ensures var (t, ok) := Submitted(s.t, d, [s.hw, s.hw, s.hw, s.hw, s.hw]);
            path[|path| - 1] == s.(t := t, sent := if ok then s.sent + [d] else s.sent)
  {
    hide Holds, Counts, HotWord, BufWord;
    var s1 := s.(phase := Chosen(d, 5));
    var free := if s.t.free > 4 then s.t.free else FreeAt(s.t.sw, s.hw);
    SameReads(s.t.sw, s.hw);
    if free > 4 {
      var s2 := s1.(t := s.t.(free := free - 1), phase := Room(d));
      var s3 := s2.(t := s2.t.(slots := s.t.slots[s.t.sw := s.t.slots[s.t.sw].(w1 := d.w1)]), phase := Half(d));
      var s4 := s3.(t := s3.t.(sw := Next(s.t.sw)), phase := Moved(d, s.t.sw));
      var s5 := s4.(t := s4.t.(slots := s4.t.slots[s.t.sw := s4.t.slots[s.t.sw].(w0 := d.w0)]), phase := Ready(d));
      var s6 := s5.(t := s5.t.(pub := s5.t.sw), phase := Idle, sent := s.sent + [d]);
      assert s5.t.slots == s.t.slots[s.t.sw := d];
      path := [s, s1, s2, s3, s4, s5, s6];
    } else {
      path := [s, s1, s1.(phase := Chosen(d, 4)), s1.(phase := Chosen(d, 3)), s1.(phase := Chosen(d, 2)),
               s1.(phase := Chosen(d, 1)), s.(t := s.t.(free := 0))];
    }
  }

  /** In any state of a run with the sender at rest and the engine standing still, a
      frame goes into the ring exactly when the cache counts more than four slots or
      more than four are free. */
  lemma GoesExactly(run: seq<State>, k: nat, d: Desc)
    requires IsRun(run) && k < |run| && run[k].phase == Idle
    ensures var s := run[k];
            && Shaped(s)
            && (Submitted(s.t, d, [s.hw, s.hw, s.hw, s.hw, s.hw]).1
                <==> s.t.free > 4 || N - 1 - (|s.sent| - |s.taken|) > 4)
  {
    NoneOverwritten(run, k);
    SameReads(run[k].t.sw, run[k].hw);
  }

  lemma SameReads(sw: nat, hw: nat)
    requires sw < N && hw < N
    ensures RoomOf(sw, [hw, hw, hw, hw, hw]) == if FreeAt(sw, hw) > 4 then FreeAt(sw, hw) else 0
  {
    var one := [hw];
    assert one[1..] == [];
    assert RoomOf(sw, one) == if FreeAt(sw, hw) > 4 then FreeAt(sw, hw) else RoomOf(sw, []);
    assert RoomOf(sw, [hw, hw]) == RoomOf(sw, one) by { assert [hw, hw][1..] == one; }
    assert RoomOf(sw, [hw, hw, hw]) == RoomOf(sw, one) by { assert [hw, hw, hw][1..] == [hw, hw]; }
    assert RoomOf(sw, [hw, hw, hw, hw]) == RoomOf(sw, one) by { assert [hw, hw, hw, hw][1..] == [hw, hw, hw]; }
    assert [hw, hw, hw, hw, hw][1..] == [hw, hw, hw, hw];
  }
}
