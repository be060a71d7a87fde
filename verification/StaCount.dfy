/** Frames per station in the chip: the sending hart counts sent, the tx done
    hart counts done, each in 16 bits, and the token map ties the two. Every
    single load and store of the map and the counts is a step of its own. */
module StaCount {
  import opened Basics
  import CoDel

  const TOKENS := 13312
  const STAS := 1024
  const NONE := 0xFFFF
  const W := 0x1_0000

  /** The sending hart between two accesses; a token or station past the tables
      is carried but never counted. */
  datatype Sender =
    | Idle                                       // about to read the counts of a station
    | Passed(sta: nat)                           // about to take a token and write the map
    | Mapped(tok: nat, sta: nat)                 // about to load sent
    | Adding(tok: nat, sta: nat, v: int)         // about to store sent
    | Filling(tok: nat, sta: nat)                // about to hand the frame to the chip
    | Unmapped(tok: nat, sta: nat)               // not handed over: about to load sent
    | Taking(tok: nat, sta: nat, v: int)         // about to store sent

  /** The tx done hart between two accesses. */
  datatype Done =
    | Waiting                                    // about to take a report
    | Reported(tok: nat)                         // about to read the map
    | Found(tok: nat, sta: nat)                  // about to clear the map
    | Cleared(tok: nat, sta: nat)                // about to load done
    | Closing(tok: nat, sta: nat, v: int)        // about to store done

  /** The tables, the tokens in the chip, and the two harts. */
  datatype State = State(
    tokens: seq<int>, sent: seq<int>, done: seq<int>, chip: set<nat>, sender: Sender, doer: Done)

  function Inc16(x: int): int {
    if x == W - 1 then 0 else x + 1
  }

  function Dec16(x: int): int {
    if x == 0 then W - 1 else x - 1
  }

  /** (s16)(a - b). */
  function Behind(a: int, b: int): int {
    var d := if a >= b then a - b else a - b + W;
    if d >= 0x8000 then d - W else d
  }

  predicate Tracked(tok: nat, sta: nat) {
    tok < TOKENS && sta < STAS
  }

  predicate Shaped(s: State) {
    && |s.tokens| == TOKENS && |s.sent| == |s.done| == STAS
    && (forall i :: 0 <= i < TOKENS ==> s.tokens[i] == NONE || 0 <= s.tokens[i] < STAS)
    && (forall i :: 0 <= i < STAS ==> 0 <= s.sent[i] < W && 0 <= s.done[i] < W)
  }

  // ---------------------------------------------------------------- steps

  /** The queue the hard limit sees: never negative. */
  function Queue(s: State, sta: nat): nat
    requires Shaped(s) && sta < STAS
  {
    var d := Behind(s.sent[sta], s.done[sta]);
    if d > 0 then d else 0
  }

  /** Tokens a new frame can carry: not in the chip, not being reported. */
  predicate Free(s: State, tok: nat) {
    tok !in s.chip && (s.doer.Waiting? || s.doer.tok != tok)
  }

  /** A limit of 0 is off. A frame below it may still be dropped for a standing
      queue, or for want of a token. */
  predicate SendStep(s: State, s': State, limit: nat)
    requires Shaped(s)
  {
    match s.sender
    case Idle =>
      && s'.sender.Passed? && s' == s.(sender := s'.sender)
      && (s'.sender.sta < STAS && limit > 0 ==> Queue(s, s'.sender.sta) < limit)
    case Passed(sta) =>
      || s' == s.(sender := Idle)
      || (&& (s'.sender.Mapped? || s'.sender.Filling?) && s'.sender.sta == sta && Free(s, s'.sender.tok)
          && var tok := s'.sender.tok;
             s' == if Tracked(tok, sta) then s.(tokens := s.tokens[tok := sta], sender := Mapped(tok, sta))
                   else s.(sender := Filling(tok, sta)))
    case Mapped(tok, sta) =>
      sta < STAS && s' == s.(sender := Adding(tok, sta, s.sent[sta]))
    case Adding(tok, sta, v) =>
      sta < STAS && s' == s.(sent := s.sent[sta := Inc16(v)], sender := Filling(tok, sta))
    case Filling(tok, sta) =>
      || s' == s.(chip := s.chip + {tok}, sender := Idle)
      || s' == (if Tracked(tok, sta) then s.(tokens := s.tokens[tok := NONE], sender := Unmapped(tok, sta))
                else s.(sender := Idle))
    case Unmapped(tok, sta) =>
      sta < STAS && s' == s.(sender := Taking(tok, sta, s.sent[sta]))
    case Taking(tok, sta, v) =>
      sta < STAS && s' == s.(sent := s.sent[sta := Dec16(v)], sender := Idle)
  }

  predicate DoneStep(s: State, s': State)
    requires Shaped(s)
  {
    match s.doer
    case Waiting =>
      s'.doer.Reported? && s'.doer.tok in s.chip && s' == s.(chip := s.chip - {s'.doer.tok}, doer := s'.doer)
    case Reported(tok) =>
      s' == if tok < TOKENS && s.tokens[tok] != NONE then s.(doer := Found(tok, s.tokens[tok]))
            else s.(doer := Waiting)
    case Found(tok, sta) =>
      tok < TOKENS && s' == s.(tokens := s.tokens[tok := NONE], doer := Cleared(tok, sta))
    case Cleared(tok, sta) =>
      sta < STAS && s' == s.(doer := Closing(tok, sta, s.done[sta]))
    case Closing(tok, sta, v) =>
      sta < STAS && s' == s.(done := s.done[sta := Inc16(v)], doer := Waiting)
  }

  predicate Step(s: State, s': State, limit: nat) {
    Shaped(s) && (SendStep(s, s', limit) || DoneStep(s, s'))
  }

  // ---------------------------------------------------------------- counting

  /** Counted minus mapped: what the harts are in the middle of. */
  function Pending(s: State, sta: nat): int {
    (match s.sender
     case Mapped(_, x) => if x == sta then -1 else 0
     case Adding(_, x, _) => if x == sta then -1 else 0
     case Unmapped(_, x) => if x == sta then 1 else 0
     case Taking(_, x, _) => if x == sta then 1 else 0
     case _ => 0)
    + (match s.doer
       case Cleared(_, x) => if x == sta then 1 else 0
       case Closing(_, x, _) => if x == sta then 1 else 0
       case _ => 0)
  }

  function InChip(s: State, sta: nat): int {
    Count(s.tokens, sta) + Pending(s, sta)
  }

  /** Sent less done, on the 16-bit circle, is the number of frames counted. */
  predicate Exact(s: State)
    requires Shaped(s)
  {
    forall sta :: 0 <= sta < STAS ==> ExactAt(s, sta)
  }

  predicate ExactAt(s: State, sta: nat)
    requires Shaped(s) && sta < STAS
  {
    Behind(s.sent[sta], s.done[sta]) == InChip(s, sta)
  }

  predicate SenderHas(s: State, tok: nat) {
    match s.sender
    case Idle => false
    case Passed(_) => false
    case _ => s.sender.tok == tok
  }

  predicate DoerHas(s: State, tok: nat) {
    !s.doer.Waiting? && s.doer.tok == tok
  }

  /** A token is with the sender, in the chip, or being reported, and is mapped
      to a station only there. */
  ghost predicate Owned(s: State)
    requires Shaped(s)
  {
    forall t: nat :: OwnedAt(s, t)
  }

  predicate OwnedAt(s: State, t: nat)
    requires Shaped(s)
  {
    && (SenderHas(s, t) ==> t !in s.chip && !DoerHas(s, t))
    && (DoerHas(s, t) ==> t !in s.chip)
    && (t < TOKENS && s.tokens[t] != NONE ==> SenderHas(s, t) || t in s.chip || DoerHas(s, t))
  }

  predicate SenderOk(s: State)
    requires Shaped(s)
  {
    match s.sender
    case Mapped(tok, sta) => Tracked(tok, sta) && s.tokens[tok] == sta
    case Adding(tok, sta, v) => Tracked(tok, sta) && s.tokens[tok] == sta && v == s.sent[sta]
    case Filling(tok, sta) => tok < TOKENS ==> s.tokens[tok] == if sta < STAS then sta else NONE
    case Unmapped(tok, sta) => Tracked(tok, sta) && s.tokens[tok] == NONE
    case Taking(tok, sta, v) => Tracked(tok, sta) && s.tokens[tok] == NONE && v == s.sent[sta]
    case _ => true
  }

  predicate DoerOk(s: State)
    requires Shaped(s)
  {
    match s.doer
    case Found(tok, sta) => Tracked(tok, sta) && s.tokens[tok] == sta
    case Cleared(tok, sta) => Tracked(tok, sta) && s.tokens[tok] == NONE
    case Closing(tok, sta, v) => Tracked(tok, sta) && s.tokens[tok] == NONE && v == s.done[sta]
    case _ => true
  }

  /** The hard limit: mapped tokens, and one more once a frame has passed it. */
  predicate Limited(s: State, limit: nat) {
    limit > 0 ==>
    && (forall sta :: 0 <= sta < STAS ==> Count(s.tokens, sta) <= limit)
    && (s.sender.Passed? && s.sender.sta < STAS ==> Count(s.tokens, s.sender.sta) < limit)
  }

  ghost predicate Inv(s: State, limit: nat) {
    Shaped(s) && Exact(s) && Owned(s) && SenderOk(s) && DoerOk(s) && Limited(s, limit)
  }

  /** sta_q_init: nothing mapped, nothing counted, nothing in the chip. */
  predicate Init(s: State) {
    && Shaped(s) && s.chip == {} && s.sender == Idle && s.doer == Waiting
    && (forall i :: 0 <= i < TOKENS ==> s.tokens[i] == NONE)
    && (forall i :: 0 <= i < STAS ==> s.sent[i] == s.done[i] == 0)
  }

  lemma {:induction false} CountNone(tokens: seq<int>, sta: int)
    requires forall i :: 0 <= i < |tokens| ==> tokens[i] != sta
    ensures Count(tokens, sta) == 0
  {
    if tokens != [] { CountNone(tokens[..|tokens| - 1], sta); }
  }

  lemma InitInv(s: State, limit: nat)
    requires Init(s)
    ensures Inv(s, limit)
  {
    forall sta | 0 <= sta < STAS ensures Count(s.tokens, sta) == 0 {
      CountNone(s.tokens, sta);
    }
  }

  function CountAfter(s: State, tok: nat, x: int, sta: nat): int
    requires tok < |s.tokens|
  {
    Count(s.tokens, sta) - (if s.tokens[tok] == sta then 1 else 0) + if x == sta then 1 else 0
  }

  /** What a write to one map slot does to the counts of all stations. */
  lemma SlotWritten(s: State, s': State, tok: nat, x: int)
    requires Shaped(s) && tok < TOKENS && s'.tokens == s.tokens[tok := x]
    ensures forall sta :: 0 <= sta < STAS ==> Count(s'.tokens, sta) == CountAfter(s, tok, x, sta)
  {
    forall sta | 0 <= sta < STAS ensures Count(s'.tokens, sta) == CountAfter(s, tok, x, sta) {
      CountUpdate(s.tokens, tok, x, sta);
    }
  }

  lemma SendShaped(s: State, s': State, limit: nat)
    requires Inv(s, limit) && SendStep(s, s', limit)
    ensures Shaped(s')
  {
    hide Count, Owned, DoerOk, Exact, Limited, Queue;
  }

  /** A step of the sending hart changes map and counts alike. */
  lemma SendExact(s: State, s': State, limit: nat, sta: nat)
    requires Inv(s, limit) && SendStep(s, s', limit) && Shaped(s') && sta < STAS
    ensures ExactAt(s', sta)
  {
    hide Count, Owned, DoerOk, Limited, Queue, Exact;
    assert ExactAt(s, sta) by { ExactFor(s, sta); }
    match s.sender
    case Passed(x) =>
      if s'.sender.Mapped? {
        var tok := s'.sender.tok;
        Unclaimed(s, tok);
        CountUpdate(s.tokens, tok, x, sta);
      }
    case Filling(tok, _) =>
      if s'.sender.Unmapped? { CountUpdate(s.tokens, tok, NONE, sta); }
    case _ =>
  }

  lemma ExactFor(s: State, sta: nat)
    requires Shaped(s) && Exact(s) && sta < STAS
    ensures ExactAt(s, sta)
  {
  }

  lemma Unclaimed(s: State, tok: nat)
    requires Shaped(s) && Owned(s) && s.sender.Passed? && Free(s, tok) && tok < TOKENS
    ensures s.tokens[tok] == NONE
  {
    assert OwnedAt(s, tok);
  }

  lemma SendOwned(s: State, s': State, limit: nat)
    requires Inv(s, limit) && SendStep(s, s', limit) && Shaped(s')
    ensures Owned(s')
  {
    hide Count, Exact, Limited, Queue;
    forall t: nat ensures OwnedAt(s', t) {
      assert OwnedAt(s, t);
    }
  }

  lemma SendLimited(s: State, s': State, limit: nat)
    requires Inv(s, limit) && SendStep(s, s', limit) && Shaped(s')
    ensures SenderOk(s') && DoerOk(s') && Limited(s', limit)
  {
    hide Count;
    match s.sender
    case Idle =>
      if s'.sender.sta < STAS { ExactFor(s, s'.sender.sta); }
    case Passed(sta) =>
      if s'.sender != Idle {
        var tok := s'.sender.tok;
        if tok < TOKENS { Unclaimed(s, tok); }
        if Tracked(tok, sta) { SlotWritten(s, s', tok, sta); }
      }
    case Filling(tok, sta) =>
      assert OwnedAt(s, tok);
      if s'.sender.Unmapped? { SlotWritten(s, s', tok, NONE); }
    case _ =>
  }

  lemma SendKeeps(s: State, s': State, limit: nat)
    requires Inv(s, limit) && SendStep(s, s', limit)
    ensures Inv(s', limit)
  {
    hide SendStep, Owned, SenderOk, DoerOk, Limited, ExactAt, Shaped;
    SendShaped(s, s', limit);
    forall sta | 0 <= sta < STAS ensures ExactAt(s', sta) {
      SendExact(s, s', limit, sta);
    }
    SendOwned(s, s', limit);
    SendLimited(s, s', limit);
  }

  lemma DoneShaped(s: State, s': State, limit: nat)
    requires Inv(s, limit) && DoneStep(s, s')
    ensures Shaped(s')
  {
    hide Count, Owned, SenderOk, Exact, Limited;
  }

  lemma DoneExact(s: State, s': State, limit: nat, sta: nat)
    requires Inv(s, limit) && DoneStep(s, s') && Shaped(s') && sta < STAS
    ensures ExactAt(s', sta)
  {
    hide Count, Owned, SenderOk, Limited, Exact;
    assert ExactAt(s, sta) by { ExactFor(s, sta); }
    match s.doer
    case Found(tok, _) => CountUpdate(s.tokens, tok, NONE, sta);
    case _ =>
  }

  lemma DoneOwned(s: State, s': State, limit: nat)
    requires Inv(s, limit) && DoneStep(s, s') && Shaped(s')
    ensures Owned(s')
  {
    hide Count, Exact, Limited, Queue;
    forall t: nat ensures OwnedAt(s', t) {
      assert OwnedAt(s, t);
    }
  }

  lemma DoneLimited(s: State, s': State, limit: nat)
    requires Inv(s, limit) && DoneStep(s, s') && Shaped(s')
    ensures SenderOk(s') && DoerOk(s') && Limited(s', limit)
  {
    hide Count, Exact;
    match s.doer
    case Found(tok, sta) =>
      assert OwnedAt(s, tok);
      SlotWritten(s, s', tok, NONE);
    case _ =>
  }

  lemma DoneKeeps(s: State, s': State, limit: nat)
    requires Inv(s, limit) && DoneStep(s, s')
    ensures Inv(s', limit)
  {
    hide DoneStep, Owned, SenderOk, DoerOk, Limited, ExactAt, Shaped;
    DoneShaped(s, s', limit);
    forall sta | 0 <= sta < STAS ensures ExactAt(s', sta) {
      DoneExact(s, s', limit, sta);
    }
    DoneOwned(s, s', limit);
    DoneLimited(s, s', limit);
  }

  // ---------------------------------------------------------------- runs

  ghost predicate IsRun(run: seq<State>, limit: nat) {
    && run != [] && Init(run[0])
    && forall i :: 0 < i < |run| ==> Step(run[i - 1], run[i], limit)
  }

  lemma {:induction false} RunInv(run: seq<State>, limit: nat, k: nat)
    requires IsRun(run, limit) && k < |run|
    ensures Inv(run[k], limit)
  {
    hide Inv, SendStep, DoneStep;
    if k == 0 {
      InitInv(run[0], limit);
    } else {
      RunInv(run, limit, k - 1);
      assert Step(run[k - 1], run[k], limit);
      if SendStep(run[k - 1], run[k], limit) {
        SendKeeps(run[k - 1], run[k], limit);
      } else {
        DoneKeeps(run[k - 1], run[k], limit);
      }
    }
  }

  /** On every run, whatever the interleaving and however often the counts
      wrap: sent less done is the number of tokens mapped to the station, up to
      the one frame each hart has half counted, and the hard limit, if set, holds. */
  lemma CountExact(run: seq<State>, limit: nat, k: nat, sta: nat)
    requires IsRun(run, limit) && k < |run| && sta < STAS
    ensures Shaped(run[k])
    ensures Behind(run[k].sent[sta], run[k].done[sta]) == Count(run[k].tokens, sta) + Pending(run[k], sta)
    ensures -1 <= Pending(run[k], sta) <= 2
    ensures run[k].sender == Idle && run[k].doer == Waiting ==>
      (run[k].sent[sta] - run[k].done[sta]) % W == Count(run[k].tokens, sta)
    ensures limit > 0 ==> Count(run[k].tokens, sta) <= limit
  {
    hide Owned, SenderOk, DoerOk, Count;
    RunInv(run, limit, k);
    assert ExactAt(run[k], sta);
  }

  /** A token is mapped to a station only while the sender hands it over, the
      chip holds it, or its report is being read. */
  lemma MappedInChip(run: seq<State>, limit: nat, k: nat, tok: nat)
    requires IsRun(run, limit) && k < |run| && tok < |run[k].tokens| && run[k].tokens[tok] != NONE
    ensures SenderHas(run[k], tok) || tok in run[k].chip || DoerHas(run[k], tok)
  {
    hide Exact, SenderOk, DoerOk, Limited;
    RunInv(run, limit, k);
    assert OwnedAt(run[k], tok);
  }

  // ---------------------------------------------------------------- the timed frame

  /** What touches a station's timing probe: the three hooks, and the drop law
      asking for the delay. */
  datatype Hook =
    | SentHook(tok: nat, now: int)
    | UnsentHook(tok: nat)
    | DoneHook(tok: nat, tick: int)
    | Asked(now: int)

  function Hooked(p: CoDel.Probe, h: Hook): CoDel.Probe {
    match h
    case SentHook(tok, now) => if p.tok == NONE then CoDel.Probe(tok, now / W, p.delay) else p
    case UnsentHook(tok) => if p.tok == tok then p.(tok := NONE) else p
    case DoneHook(tok, tick) => if p.tok == tok then CoDel.Probe(NONE, p.tick, (tick - p.tick) % W) else p
    case Asked(now) => CoDel.DelayOf(p, now).1
  }

  function AfterHooks(p: CoDel.Probe, hs: seq<Hook>): CoDel.Probe
    decreases |hs|
  {
    if hs == [] then p else Hooked(AfterHooks(p, hs[..|hs| - 1]), hs[|hs| - 1])
  }

  /** Nothing that ends the timing of tok: no report of it, and no question that
      finds it so old that its report must be lost. */
  predicate Beside(hs: seq<Hook>, tok: nat, tick: int) {
    forall i :: 0 <= i < |hs| ==>
      match hs[i]
      case SentHook(_, _) => true
      case UnsentHook(t) => t != tok
      case DoneHook(t, _) => t != tok
      case Asked(now) => (now / W - tick) % W <= 11000
  }

  lemma {:induction false} StaysTimed(p: CoDel.Probe, tok: nat, hs: seq<Hook>)
    requires p.tok == tok != NONE && Beside(hs, tok, p.tick)
    ensures AfterHooks(p, hs) == p
    decreases |hs|
  {
    if hs != [] { StaysTimed(p, tok, hs[..|hs| - 1]); }
  }

  /** A frame that did not reach the chip is no longer timed, and the last delay
      stands. */
  lemma UnsentForgotten(p: CoDel.Probe, tok: nat, sent: nat, hs: seq<Hook>)
    requires p.tok == NONE && tok < TOKENS && Beside(hs, tok, CoDel.U32(sent) / W)
    ensures var all := [SentHook(tok, CoDel.U32(sent))] + hs + [UnsentHook(tok)];
            AfterHooks(p, all).tok == NONE && AfterHooks(p, all).delay == p.delay
  {
    var h, u := SentHook(tok, CoDel.U32(sent)), UnsentHook(tok);
    StaysTimed(Hooked(p, h), tok, hs);
    HooksThen(p, h, hs);
    var all := [h] + hs + [u];
    assert all[..|all| - 1] == [h] + hs;
  }

  /** A frame passes the drop law only on a step of the protocol, and the limit
      alone keeps one from being such a step. */
  lemma PassesExactly(s: State, sta: nat, c: CoDel.Config, a: CoDel.Aqm, now: int, len: nat, ticks: nat)
    requires Shaped(s) && s.sender == Idle && sta < STAS
    ensures SendStep(s, s.(sender := Passed(sta)), c.limit)
            <==> CoDel.Decided(c, a, now, len, Queue(s, sta), ticks).1 != CoDel.HardDrop
  {
    hide CoDel.Later, CoDel.First, CoDel.S32, CoDel.U32;
    FullIs(c, a, now, len, Queue(s, sta), ticks);
  }

  lemma FullIs(c: CoDel.Config, a: CoDel.Aqm, now: int, len: nat, q: nat, ticks: nat)
    ensures CoDel.Decided(c, a, now, len, q, ticks).1 == CoDel.HardDrop <==> CoDel.Full(c, q)
  {
    hide CoDel.S32, CoDel.U32, CoDel.Gap, CoDel.Below;
  }

  /** One frame at a time: with none timed, the next frame sent is, and whatever
      else is sent, reported or asked before its own report, that leaves its time
      in the chip, in real ticks, when it is less than the 16 bits hold. */
  lemma FrameTimed(p: CoDel.Probe, tok: nat, sent: nat, hs: seq<Hook>, done: nat)
    requires p.tok == NONE && tok < TOKENS && Beside(hs, tok, CoDel.U32(sent) / W)
    requires 0 <= done / W - sent / W < W
    ensures var all := [SentHook(tok, CoDel.U32(sent))] + hs + [DoneHook(tok, CoDel.U32(done) / W)];
            var r := AfterHooks(p, all);
            r.tok == NONE && r.delay == done / W - sent / W
  {
    var h, d := SentHook(tok, CoDel.U32(sent)), DoneHook(tok, CoDel.U32(done) / W);
    var p1 := Hooked(p, h);
    StaysTimed(p1, tok, hs);
    HooksThen(p, h, hs);
    var all := [h] + hs + [d];
    assert all[..|all| - 1] == [h] + hs;
    TicksApart(sent, done);
  }

  lemma {:induction false} HooksThen(p: CoDel.Probe, h: Hook, hs: seq<Hook>)
    ensures AfterHooks(p, [h] + hs) == AfterHooks(Hooked(p, h), hs)
    decreases |hs|
  {
    var all := [h] + hs;
    if hs == [] {
      assert all[..0] == [];
      assert AfterHooks(p, all) == Hooked(AfterHooks(p, all[..0]), all[0]);
    } else {
      HooksThen(p, h, hs[..|hs| - 1]);
      assert all[..|all| - 1] == [h] + hs[..|hs| - 1];
    }
  }

  lemma TicksApart(sent: nat, done: nat)
    requires 0 <= done / W - sent / W < W
    ensures (CoDel.U32(done) / W - CoDel.U32(sent) / W) % W == done / W - sent / W
  {
    CoDel.TickIs(sent);
    CoDel.TickIs(done);
    var a, b := sent / W, done / W;
    assert a == W * (a / W) + a % W && b == W * (b / W) + b % W;
    assert b % W - a % W == b - a + W * (a / W - b / W);
  }

  // ---------------------------------------------------------------- the hooks

  /** The tables as the harts share them; each hook is three steps of its hart on
      map and counts, then what it does to the timing probe. */
  class Tables {
    var tokens: seq<int>
    var sent: seq<int>
    var done: seq<int>
    var probe: seq<CoDel.Probe>

    constructor ()
      ensures forall chip: set<nat> :: chip == {} ==> Init(State(tokens, sent, done, chip, Idle, Waiting))
      ensures probe == seq(STAS, i => CoDel.Probe(NONE, 0, 0))
    {
      tokens := seq(TOKENS, i => NONE);
      sent := seq(STAS, i => 0);
      done := seq(STAS, i => 0);
      probe := seq(STAS, i => CoDel.Probe(NONE, 0, 0));
    }

    function Of(chip: set<nat>, sender: Sender, doer: Done): State
      reads this
    {
      State(tokens, sent, done, chip, sender, doer)
    }

    /** sta_q_drop: unless it says to drop the frame, the sender has taken the step
        that the limit of the counts rests on. */
    method Drop(c: CoDel.Config, on: bool, sta: nat, now: int, len: nat, st: CoDel.Station,
                ghost chip: set<nat>, ghost doer: Done)
        returns (drop: bool)
      requires Shaped(Of(chip, Idle, doer)) && st.Sound() && 0 <= now < CoDel.W && c.interval < CoDel.W
      modifies st
      ensures st.Sound()
      ensures !drop ==> SendStep(Of(chip, Idle, doer), Of(chip, Passed(sta), doer), if on then c.limit else 0)
      ensures !on || sta >= STAS ==> !drop && st.Law() == old(st.Law())
      ensures on && sta < STAS && CoDel.Full(c, Queue(Of(chip, Idle, doer), sta)) ==> drop && st.Law() == old(st.Law())
    {
      if !on || sta >= STAS {
        return false;
      }
      var d := Behind(sent[sta], done[sta]);
      var v := st.Decide(c, now, len, if d > 0 then d else 0);
      return v != CoDel.Pass;
    }

    /** sta_q_sent_tok. */
    method SentTok(tok: nat, sta: nat, now: int, ghost chip: set<nat>, ghost doer: Done, ghost limit: nat)
      requires Shaped(Of(chip, Passed(sta), doer)) && Free(Of(chip, Passed(sta), doer), tok) && |probe| == STAS
      modifies this`tokens, this`sent, this`probe
      ensures Tracked(tok, sta) ==>
        && tokens == old(tokens)[tok := sta] && sent == old(sent)[sta := Inc16(old(sent)[sta])]
        && probe == old(probe)[sta := Hooked(old(probe)[sta], SentHook(tok, now))]
      ensures !Tracked(tok, sta) ==> tokens == old(tokens) && sent == old(sent) && probe == old(probe)
      ensures Reaches(old(Of(chip, Passed(sta), doer)), Of(chip, Filling(tok, sta), doer), limit)
    {
      ghost var s := Of(chip, Passed(sta), doer);
      if tok < TOKENS && sta < STAS {
        tokens := tokens[tok := sta];
        ghost var s1 := Of(chip, Mapped(tok, sta), doer);
        ghost var s2 := Of(chip, Adding(tok, sta, sent[sta]), doer);
        sent := sent[sta := Inc16(sent[sta])];
        ghost var s3 := Of(chip, Filling(tok, sta), doer);
        assert SendStep(s, s1, limit) && SendStep(s1, s2, limit) && SendStep(s2, s3, limit);
        ReachedIn3(s, s1, s2, s3, limit);
        if probe[sta].tok == NONE {
          probe := probe[sta := CoDel.Probe(tok, now / W, probe[sta].delay)];
        }
      } else {
        assert SendStep(s, Of(chip, Filling(tok, sta), doer), limit);
        ReachedIn1(s, Of(chip, Filling(tok, sta), doer), limit);
      }
    }

    /** sta_q_unsent_tok. */
    method UnsentTok(tok: nat, sta: nat, ghost chip: set<nat>, ghost doer: Done, ghost limit: nat)
      requires Shaped(Of(chip, Filling(tok, sta), doer)) && |probe| == STAS
      modifies this`tokens, this`sent, this`probe
      ensures Tracked(tok, sta) ==>
        && tokens == old(tokens)[tok := NONE] && sent == old(sent)[sta := Dec16(old(sent)[sta])]
        && probe == old(probe)[sta := Hooked(old(probe)[sta], UnsentHook(tok))]
      ensures !Tracked(tok, sta) ==> tokens == old(tokens) && sent == old(sent) && probe == old(probe)
      ensures Reaches(old(Of(chip, Filling(tok, sta), doer)), Of(chip, Idle, doer), limit)
    {
      ghost var s := Of(chip, Filling(tok, sta), doer);
      if sta < STAS && tok < TOKENS {
        tokens := tokens[tok := NONE];
        ghost var s1 := Of(chip, Unmapped(tok, sta), doer);
        ghost var s2 := Of(chip, Taking(tok, sta, sent[sta]), doer);
        sent := sent[sta := Dec16(sent[sta])];
        assert SendStep(s, s1, limit) && SendStep(s1, s2, limit) && SendStep(s2, Of(chip, Idle, doer), limit);
        ReachedIn3(s, s1, s2, Of(chip, Idle, doer), limit);
        if probe[sta].tok == tok {
          probe := probe[sta := probe[sta].(tok := NONE)];
        }
      } else {
        assert SendStep(s, Of(chip, Idle, doer), limit);
        ReachedIn1(s, Of(chip, Idle, doer), limit);
      }
    }

    /** sta_q_done_tok: a token nobody mapped changes nothing. */
    method DoneTok(tok: nat, tick: int, ghost chip: set<nat>, ghost sender: Sender, ghost limit: nat)
      requires Shaped(Of(chip, sender, Reported(tok))) && |probe| == STAS
      modifies this`tokens, this`done, this`probe
      ensures Reaches(old(Of(chip, sender, Reported(tok))), Of(chip, sender, Waiting), limit)
      ensures tok < TOKENS && old(tokens)[tok] != NONE ==>
        var sta := old(tokens)[tok];
        && tokens == old(tokens)[tok := NONE] && done == old(done)[sta := Inc16(old(done)[sta])]
        && probe == old(probe)[sta := Hooked(old(probe)[sta], DoneHook(tok, tick))]
      ensures tok >= TOKENS || old(tokens)[tok] == NONE ==>
        tokens == old(tokens) && done == old(done) && probe == old(probe)
    {
      ghost var s := Of(chip, sender, Reported(tok));
      if tok >= TOKENS || tokens[tok] == NONE {
        assert DoneStep(s, Of(chip, sender, Waiting));
        ReachedIn1(s, Of(chip, sender, Waiting), limit);
        return;
      }
      var sta := tokens[tok];
      ghost var s1 := Of(chip, sender, Found(tok, sta));
      tokens := tokens[tok := NONE];
      ghost var s2 := Of(chip, sender, Cleared(tok, sta));
      ghost var s3 := Of(chip, sender, Closing(tok, sta, done[sta]));
      done := done[sta := Inc16(done[sta])];
      ghost var s4 := Of(chip, sender, Waiting);
      assert DoneStep(s, s1) && DoneStep(s1, s2) && DoneStep(s2, s3) && DoneStep(s3, s4);
      ReachedIn3(s1, s2, s3, s4, limit);
      ReachedThen(s, s1, s4, limit);
      if probe[sta].tok == tok {
        probe := probe[sta := CoDel.Probe(NONE, probe[sta].tick, (tick - probe[sta].tick) % W)];
      }
    }
  }

  /** Steps lead from s to t. */
  ghost predicate Reaches(s: State, t: State, limit: nat) {
    exists path: seq<State> :: IsPath(path, s, t, limit)
  }

  predicate IsPath(path: seq<State>, s: State, t: State, limit: nat) {
    && |path| >= 2 && path[0] == s && path[|path| - 1] == t
    && forall i :: 0 < i < |path| ==> Step(path[i - 1], path[i], limit)
  }

  lemma ReachedIn1(s: State, t: State, limit: nat)
    requires Step(s, t, limit)
    ensures Reaches(s, t, limit)
  {
    hide Step;
    assert IsPath([s, t], s, t, limit);
  }

  lemma ReachedIn3(s: State, a: State, b: State, t: State, limit: nat)
    requires Step(s, a, limit) && Step(a, b, limit) && Step(b, t, limit)
    ensures Reaches(s, t, limit)
  {
    hide Step;
    assert IsPath([s, a, b, t], s, t, limit);
  }

  lemma ReachedThen(s: State, a: State, t: State, limit: nat)
    requires Step(s, a, limit) && Reaches(a, t, limit)
    ensures Reaches(s, t, limit)
  {
    hide Step;
    var path :| IsPath(path, a, t, limit);
    assert IsPath([s] + path, s, t, limit);
  }
}
