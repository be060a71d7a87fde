/** The life of a tx token on the Eagle build: from the free ring into an rx
    slot, with the slot's frame to the WiFi chip, and back to the ring when the
    chip reports it. The ring is its content, as IdRing proves it kept. */
module TokenFlow {
  import opened Basics
  import opened IdRing

  /** Free ids, the tokens under one rx ring's slots, which slots hold a frame,
      the read index, and the tokens in the chip in the order they went. */
  datatype Flow = Flow(ring: seq<Id>, slot: seq<Id>, full: seq<bool>, ridx: nat, chip: seq<Id>)

  /** What a turn of the drain meets: the slots the PPE has filled and the tokens
      the chip has reported since the last one, whether the station queue drops
      the frame, and else whether the tx ring takes it. */
  datatype Answer = Answer(fills: seq<bool>, reports: seq<Id>, drop: bool, fits: bool)

  /** tx_token_alloc_n asks for at most this many. */
  const BATCH := 8

  predicate Valid(s: Flow) {
    |s.slot| == |s.full| && s.ridx < |s.slot|
  }

  // ---------------------------------------------------------------- the drain

  /** Filled slots from i on, at most max. */
  function Ready(s: Flow, i: nat, max: nat): (n: nat)
    requires Valid(s) && i < |s.slot|
    ensures n <= max
    decreases max
  {
    if max == 0 || !s.full[i] then 0 else 1 + Ready(s, Next(i, |s.slot|), max - 1)
  }

  /** The slot read and armed again, its frame done with. */
  function Rearmed(s: Flow): (t: Flow)
    requires Valid(s)
    ensures Valid(t)
  {
    s.(full := s.full[s.ridx := false], ridx := Next(s.ridx, |s.slot|))
  }

  /** Tokens in hand for the slots ahead: one batch when none is left. */
  function Refilled(s: Flow, hand: seq<Id>, budget: nat): (Flow, seq<Id>)
    requires Valid(s)
  {
    if hand != [] then (s, hand)
    else
      var k := Taken(s.ring, Ready(s, s.ridx, if budget < BATCH then budget else BATCH));
      (s.(ring := s.ring[k..]), s.ring[..k])
  }

  /** One filled slot: the state, the tokens left in hand, and whether to stop. */
  function Turn(s: Flow, hand: seq<Id>, budget: nat, a: Answer): (r: (Flow, seq<Id>, bool))
    requires Valid(s)
    ensures Valid(r.0)
  {
    if a.drop then (Rearmed(s), hand, false)
    else
      var (t, h) := Refilled(s, hand, budget);
      if h == [] then (Rearmed(t), h, true)
      else
        var tok, u := t.slot[t.ridx], t.(slot := t.slot[t.ridx := h[0]]);
        if a.fits then (Rearmed(u.(chip := u.chip + [tok])), h[1..], false)
        else (Rearmed(u.(ring := u.ring + [tok])), h[1..], true)
  }

  /** A report: the chip is done with a token, and the poll frees it. */
  function Reported(s: Flow, tok: Id): Flow {
    s.(chip := Without(s.chip, tok), ring := s.ring + [tok])
  }

  function Without(ids: seq<Id>, x: Id): (r: seq<Id>)
    ensures |r| <= |ids|
  {
    if ids == [] then []
    else if ids[|ids| - 1] == x then ids[..|ids| - 1]
    else Without(ids[..|ids| - 1], x) + [ids[|ids| - 1]]
  }

  /** What the PPE and the chip do between two turns: slots fill, never empty,
      and tokens in the chip come back. */
  function Arrived(s: Flow, fills: seq<bool>, reports: seq<Id>): (t: Flow)
    requires Valid(s)
    ensures Valid(t) && t.ridx == s.ridx && t.slot == s.slot
    ensures forall i :: 0 <= i < |s.full| && s.full[i] ==> t.full[i]
    decreases |reports|
  {
    if reports == [] then
      s.(full := seq(|s.full|, i requires 0 <= i < |s.full| => s.full[i] || (i < |fills| && fills[i])))
    else
      var n := |reports| - 1;
      var t := Arrived(s, fills, reports[..n]);
      if reports[n] in t.chip then Reported(t, reports[n]) else t
  }

  /** The whole call: up to budget filled slots, then what is in hand goes back. */
  function Drained(s: Flow, hand: seq<Id>, budget: nat, answers: seq<Answer>): (t: Flow)
    requires Valid(s) && budget <= |answers|
    ensures Valid(t)
    decreases budget
  {
    if budget == 0 then s.(ring := s.ring + hand)
    else
      var u := Arrived(s, answers[0].fills, answers[0].reports);
      if !u.full[u.ridx] then u.(ring := u.ring + hand)
      else
        var (t, h, stop) := Turn(u, hand, budget, answers[0]);
        if stop then t.(ring := t.ring + h) else Drained(t, h, budget - 1, answers[1..])
  }

  class TxPath {
    var ring: seq<Id>
    var slot: seq<Id>
    var full: seq<bool>
    var ridx: nat
    var chip: seq<Id>

    constructor (r: seq<Id>, s: seq<Id>)
      requires |s| > 0
      ensures Valid(View()) && View() == Flow(r, s, seq(|s|, i => false), 0, [])
    {
      ring, slot, full, ridx, chip := r, s, seq(|s|, i => false), 0, [];
    }

    function View(): Flow
      reads this
    {
      Flow(ring, slot, full, ridx, chip)
    }

    /** eagle_tdma_ready. */
    method CountReady(max: nat) returns (n: nat)
      requires Valid(View())
      ensures n == Ready(View(), ridx, max)
    {
      n := 0;
      var i: nat := ridx;
      while n < max && full[i]
        invariant n <= max && i < |slot| && Ready(View(), ridx, max) == n + Ready(View(), i, max - n)
      {
        n := n + 1;
        i := if i > |slot| - 2 then 0 else i + 1;
      }
    }

    /** One filled slot of the loop: toks[used..] are the tokens in hand. */
    method Slot(a: Answer, toks0: seq<Id>, used0: nat, budget: nat) returns (toks: seq<Id>, used: nat, stop: bool)
      requires Valid(View()) && used0 <= |toks0|
      modifies this
      ensures Valid(View()) && used <= |toks|
      ensures (View(), toks[used..], stop) == Turn(old(View()), toks0[used0..], budget, a)
    {
      hide Ready;
      toks, used, stop := toks0, used0, false;
      if !a.drop {
        if used == |toks| {
          var want := CountReady(if budget < BATCH then budget else BATCH);
          var n := Taken(ring, want);
          toks, used, ring := ring[..n], 0, ring[n..];
        }
        if used == |toks| {
          stop := true;
        } else {
          var tok := slot[ridx];
          slot := slot[ridx := toks[used]];
          used := used + 1;
          if a.fits {
            chip := chip + [tok];
          } else {
            ring := ring + [tok];
            stop := true;
          }
        }
      }
      full := full[ridx := false];
      ridx := if ridx > |slot| - 2 then 0 else ridx + 1;
    }

    /** The other harts' work between two turns. */
    method Arrive(fills: seq<bool>, reports: seq<Id>)
      requires Valid(View())
      modifies this`ring, this`full, this`chip
      ensures View() == Arrived(old(View()), fills, reports)
    {
      var t := Arrived(View(), fills, reports);
      ArrivedFrame(View(), fills, reports);
      ring, full, chip := t.ring, t.full, t.chip;
    }

    /** eagle_tdma_to_wifi, budget at least 1 and already cut to 128. */
    method Drain(budget0: nat, answers: seq<Answer>)
      requires Valid(View()) && 1 <= budget0 <= |answers|
      modifies this
      ensures View() == Drained(old(View()), [], budget0, answers)
    {
      hide Turn, Arrived;
      var toks: seq<Id>, used: nat, budget: nat, i: nat := [], 0, budget0, 0;
      ghost var goal := Drained(View(), [], budget0, answers);
      assert answers[0..] == answers;
      while budget > 0
        invariant Valid(View()) && i + budget == budget0 && used <= |toks|
        invariant goal == Drained(View(), toks[used..], budget, answers[i..])
      {
        Arrive(answers[i].fills, answers[i].reports);
        if !full[ridx] {
          break;
        }
        var stop;
        toks, used, stop := Slot(answers[i], toks, used, budget);
        assert answers[i..][1..] == answers[i + 1..];
        i := i + 1;
        budget := budget - 1;
        if stop {
          break;
        }
      }
      if used != |toks| {
        ring := ring + toks[used..];
      }
    }

    /** eagle_txdone_poll's frees: one hold of the mutex for 32 tokens. */
    method FreeReported(done: seq<Id>)
      modifies this`ring
      ensures ring == old(ring) + done
    {
      var batch: seq<Id> := [];
      for i := 0 to |done|
        invariant |batch| < 32 && ring + batch == old(ring) + done[..i]
      {
        assert ring + (batch + [done[i]]) == ring + batch + [done[i]];
        assert done[..i + 1] == done[..i] + [done[i]];
        batch := batch + [done[i]];
        if |batch| == 32 {
          ring := ring + batch;
          batch := [];
        }
      }
      if batch != [] {
        ring := ring + batch;
      }
      assert done[..|done|] == done;
    }
  }

  lemma {:induction false} ArrivedFrame(s: Flow, fills: seq<bool>, reports: seq<Id>)
    requires Valid(s)
    ensures var t := Arrived(s, fills, reports); t == s.(ring := t.ring, full := t.full, chip := t.chip)
    decreases |reports|
  {
    if reports != [] { ArrivedFrame(s, fills, reports[..|reports| - 1]); }
  }

  // ---------------------------------------------------------------- every token once

  /** Places a token is at: ring, rx slots, chip, the drain's hand. */
  function Places(s: Flow, hand: seq<Id>, x: Id): nat {
    Count(s.ring, x) + Count(s.slot, x) + Count(s.chip, x) + Count(hand, x)
  }

  lemma RefillKeeps(s: Flow, hand: seq<Id>, budget: nat, x: Id)
    requires Valid(s)
    ensures var (t, h) := Refilled(s, hand, budget); Valid(t) && Places(t, h, x) == Places(s, hand, x)
  {
    hide Count, Ready;
    if hand == [] {
      var k := Taken(s.ring, Ready(s, s.ridx, if budget < BATCH then budget else BATCH));
      CountConcat(s.ring[..k], s.ring[k..], x);
      assert s.ring[..k] + s.ring[k..] == s.ring;
      NoneCounted(x);
    }
  }

  lemma NoneCounted(x: Id)
    ensures Count([], x) == 0
  {
  }

  lemma HeadCounted(hand: seq<Id>, x: Id)
    requires hand != []
    ensures Count(hand, x) == (if hand[0] == x then 1 else 0) + Count(hand[1..], x)
  {
    assert hand == [hand[0]] + hand[1..];
    CountConcat([hand[0]], hand[1..], x);
    assert Count([hand[0]], x) == if hand[0] == x then 1 else 0 by { assert [hand[0]][..0] == []; }
  }

  /** A frame's turn trades its slot's token for a fresh one; the old one goes to
      the chip or back to the ring. */
  lemma TurnKeeps(s: Flow, hand: seq<Id>, budget: nat, a: Answer, x: Id)
    requires Valid(s)
    ensures var (t, h, stop) := Turn(s, hand, budget, a); Places(t, h, x) == Places(s, hand, x)
  {
    hide Count, Refilled;
    if !a.drop {
      var (t, h) := Refilled(s, hand, budget);
      RefillKeeps(s, hand, budget, x);
      if h != [] {
        var tok := t.slot[t.ridx];
        CountUpdate(t.slot, t.ridx, h[0], x);
        HeadCounted(h, x);
        CountSnoc(t.chip, tok, x);
        CountSnoc(t.ring, tok, x);
      }
    }
  }

  lemma {:induction false} WithoutCount(ids: seq<Id>, y: Id, x: Id)
    requires y in ids
    ensures Count(Without(ids, y), x) == Count(ids, x) - if x == y then 1 else 0
  {
    var n := |ids| - 1;
    if ids[n] != y {
      assert ids == ids[..n] + [ids[n]];
      WithoutCount(ids[..n], y, x);
      CountSnoc(Without(ids[..n], y), ids[n], x);
    }
  }

  lemma ReportKeeps(s: Flow, tok: Id, hand: seq<Id>, x: Id)
    requires tok in s.chip
    ensures Places(Reported(s, tok), hand, x) == Places(s, hand, x)
  {
    hide Count;
    WithoutCount(s.chip, tok, x);
    CountSnoc(s.ring, tok, x);
  }

  lemma {:induction false} ArrivedKeeps(s: Flow, fills: seq<bool>, reports: seq<Id>, hand: seq<Id>, x: Id)
    requires Valid(s)
    ensures Places(Arrived(s, fills, reports), hand, x) == Places(s, hand, x)
    decreases |reports|
  {
    hide Count, Reported;
    if reports != [] {
      var n := |reports| - 1;
      var t := Arrived(s, fills, reports[..n]);
      ArrivedKeeps(s, fills, reports[..n], hand, x);
      if reports[n] in t.chip { ReportKeeps(t, reports[n], hand, x); }
    }
  }

  /** Whatever is dropped, refused or left in hand, and whatever slots fill and
      tokens come back meanwhile, a whole drain neither loses nor doubles one. */
  lemma {:induction false} DrainKeeps(s: Flow, hand: seq<Id>, budget: nat, answers: seq<Answer>, x: Id)
    requires Valid(s) && budget <= |answers|
    ensures Places(Drained(s, hand, budget, answers), [], x) == Places(s, hand, x)
    decreases budget
  {
    hide Count, Turn, Arrived;
    NoneCounted(x);
    CountConcat(s.ring, hand, x);
    if budget > 0 {
      var u := Arrived(s, answers[0].fills, answers[0].reports);
      ArrivedKeeps(s, answers[0].fills, answers[0].reports, hand, x);
      CountConcat(u.ring, hand, x);
      if u.full[u.ridx] {
        var (t, h, stop) := Turn(u, hand, budget, answers[0]);
        TurnKeeps(u, hand, budget, answers[0], x);
        CountConcat(t.ring, h, x);
        if !stop { DrainKeeps(t, h, budget - 1, answers[1..], x); }
      }
    }
  }

  /** What happens to the path: the PPE fills slots, the hart drains, the chip reports. */
  datatype Move = Fill(full: seq<bool>) | Drain(budget: nat, answers: seq<Answer>) | Report(tok: Id)

  predicate Enabled(s: Flow, m: Move) {
    match m
    case Fill(full) => |full| == |s.slot|
    case Drain(budget, answers) => 1 <= budget <= |answers|
    case Report(tok) => tok in s.chip
  }

  function Moved(s: Flow, m: Move): (t: Flow)
    requires Valid(s) && Enabled(s, m)
    ensures Valid(t)
  {
    match m
    case Fill(full) => s.(full := full)
    case Drain(budget, answers) => Drained(s, [], budget, answers)
    case Report(tok) => Reported(s, tok)
  }

  lemma MoveKeeps(s: Flow, m: Move, x: Id)
    requires Valid(s) && Enabled(s, m)
    ensures Places(Moved(s, m), [], x) == Places(s, [], x)
  {
    hide Count, Drained;
    match m
    case Fill(_) =>
    case Drain(budget, answers) => DrainKeeps(s, [], budget, answers, x);
    case Report(tok) => ReportKeeps(s, tok, [], x);
  }

  predicate IsRun(run: seq<Flow>, moves: seq<Move>) {
    && |run| == |moves| + 1 && (forall i :: 0 <= i < |run| ==> Valid(run[i]))
    && forall i :: 0 <= i < |moves| ==> Enabled(run[i], moves[i]) && run[i + 1] == Moved(run[i], moves[i])
  }

  /** No id is at two places. */
  ghost predicate Apart(s: Flow, hand: seq<Id>) {
    forall x: Id :: Places(s, hand, x) <= 1
  }

  /** On every run each token stays at exactly the one place it has. */
  lemma {:induction false} TokensKept(run: seq<Flow>, moves: seq<Move>, k: nat, x: Id)
    requires IsRun(run, moves) && k < |run|
    ensures Places(run[k], [], x) == Places(run[0], [], x)
  {
    hide Moved, Enabled;
    if k > 0 {
      TokensKept(run, moves, k - 1, x);
      assert run[k - 1 + 1] == Moved(run[k - 1], moves[k - 1]);
      MoveKeeps(run[k - 1], moves[k - 1], x);
    }
  }

  /** From distinct tokens on, ring, slots and chip never share or repeat one. */
  lemma TokensApart(run: seq<Flow>, moves: seq<Move>, k: nat)
    requires IsRun(run, moves) && k < |run| && Apart(run[0], [])
    ensures Apart(run[k], []) && Distinct(run[k].chip) && Distinct(run[k].ring) && Distinct(run[k].slot)
    ensures forall x: Id :: x in run[k].chip ==> x !in run[k].ring && x !in run[k].slot
  {
    hide Count, IsRun;
    var s := run[k];
    forall x: Id ensures Places(s, [], x) <= 1 {
      TokensKept(run, moves, k, x);
      assert Places(run[0], [], x) <= 1;
    }
    Separated(s);
  }

  lemma Separated(s: Flow)
    requires Apart(s, [])
    ensures Distinct(s.chip) && Distinct(s.ring) && Distinct(s.slot)
    ensures forall x: Id :: x in s.chip ==> x !in s.ring && x !in s.slot
  {
    hide Count, Distinct;
    assert forall x: Id :: Count(s.chip, x) <= Places(s, [], x);
    assert forall x: Id :: Count(s.ring, x) <= Places(s, [], x);
    assert forall x: Id :: Count(s.slot, x) <= Places(s, [], x);
    CountDistinct(s.chip);
    CountDistinct(s.ring);
    CountDistinct(s.slot);
    forall x: Id | x in s.chip ensures x !in s.ring && x !in s.slot {
      CountIn(s.chip, x);
      CountIn(s.ring, x);
      CountIn(s.slot, x);
      assert Places(s, [], x) <= 1;
    }
  }

  /** The token that carries a frame to the chip is not there yet: what the
      station counts take for granted. */
  lemma SentIsFree(s: Flow, hand: seq<Id>, budget: nat, a: Answer)
    requires Valid(s) && Apart(s, hand) && !a.drop && a.fits
    ensures var (t, h, stop) := Turn(s, hand, budget, a);
            var tok := s.slot[s.ridx];
            !stop ==> t.chip == s.chip + [tok] && tok !in s.chip
  {
    hide Count;
    var tok := s.slot[s.ridx];
    CountIn(s.slot, tok);
    CountIn(s.chip, tok);
    assert Places(s, hand, tok) <= 1;
  }

  // ---------------------------------------------------------------- what a drain sends

  /** The slot k places on. */
  function Ahead(i: nat, k: nat, n: nat): nat {
    if i + k < n then i + k else i + k - n
  }

  /** Ready counts the filled slots ahead up to the first empty one. */
  lemma {:induction false} ReadyExactly(s: Flow, i: nat, max: nat)
    requires Valid(s) && i < |s.slot| && max <= |s.slot|
    ensures var n := Ready(s, i, max);
            && (forall k :: 0 <= k < n ==> s.full[Ahead(i, k, |s.slot|)])
            && (n < max ==> !s.full[Ahead(i, n, |s.slot|)])
    decreases max
  {
    var n, j := |s.slot|, Next(i, |s.slot|);
    if max > 0 && s.full[i] {
      ReadyExactly(s, j, max - 1);
      assert forall k :: 0 < k < n ==> Ahead(i, k, n) == Ahead(j, k - 1, n);
    }
  }

  /** The tokens under the m slots from i on. */
  function Under(slot: seq<Id>, i: nat, m: nat): (r: seq<Id>)
    requires i < |slot|
    ensures |r| == m
    decreases m
  {
    if m == 0 then [] else [slot[i]] + Under(slot, Next(i, |slot|), m - 1)
  }

  /** Slots the count does not reach do not matter to it. */
  lemma {:induction false} ReadyApart(s: Flow, t: Flow, i: nat, max: nat)
    requires Valid(s) && Valid(t) && |s.slot| == |t.slot| && i < |s.slot| && max <= |s.slot|
    requires forall k :: 0 <= k < max ==> t.full[Ahead(i, k, |s.slot|)] == s.full[Ahead(i, k, |s.slot|)]
    ensures Ready(t, i, max) == Ready(s, i, max)
    decreases max
  {
    var n, j := |s.slot|, Next(i, |s.slot|);
    if max > 0 {
      assert Ahead(i, 0, n) == i;
      forall k | 0 <= k < max - 1 ensures t.full[Ahead(j, k, n)] == s.full[Ahead(j, k, n)] {
        assert Ahead(j, k, n) == Ahead(i, k + 1, n);
      }
      ReadyApart(s, t, j, max - 1);
    }
  }

  lemma {:induction false} UnderApart(a: seq<Id>, b: seq<Id>, i: nat, m: nat)
    requires |a| == |b| && i < |a| && m <= |a|
    requires forall k :: 0 <= k < m ==> b[Ahead(i, k, |a|)] == a[Ahead(i, k, |a|)]
    ensures Under(b, i, m) == Under(a, i, m)
    decreases m
  {
    var n, j := |a|, Next(i, |a|);
    if m > 0 {
      assert Ahead(i, 0, n) == i;
      forall k | 0 <= k < m - 1 ensures b[Ahead(j, k, n)] == a[Ahead(j, k, n)] {
        assert Ahead(j, k, n) == Ahead(i, k + 1, n);
      }
      UnderApart(a, b, j, m - 1);
    }
  }

  /** Nothing else happens, and every frame is taken. */
  predicate AllTaken(answers: seq<Answer>) {
    forall i :: 0 <= i < |answers| ==>
      answers[i].fills == [] && answers[i].reports == [] && !answers[i].drop && answers[i].fits
  }

  lemma NothingArrives(s: Flow)
    requires Valid(s)
    ensures Arrived(s, [], []) == s
  {
    var t := Arrived(s, [], []);
    assert t.full == s.full;
  }

  lemma RefillGives(s: Flow, hand: seq<Id>, budget: nat)
    requires Valid(s) && s.full[s.ridx] && budget >= 1 && |hand| + |s.ring| > budget
    ensures var (t, h) := Refilled(s, hand, budget);
            t == s.(ring := t.ring) && h != [] && |h| + |t.ring| == |hand| + |s.ring|
  {
    assert Ready(s, s.ridx, if budget < BATCH then budget else BATCH) >= 1;
  }

  /** One such turn. */
  lemma TurnSends(s: Flow, hand: seq<Id>, budget: nat, a: Answer)
    requires Valid(s) && s.full[s.ridx] && budget >= 1 && |hand| + |s.ring| > budget && !a.drop && a.fits
    ensures var (t, h, stop) := Turn(s, hand, budget, a);
            && !stop && t.chip == s.chip + [s.slot[s.ridx]] && |h| + |t.ring| == |hand| + |s.ring| - 1
            && t.ridx == Next(s.ridx, |s.slot|) && t.full == s.full[s.ridx := false]
            && |t.slot| == |s.slot| && forall i :: 0 <= i < |s.slot| && i != s.ridx ==> t.slot[i] == s.slot[i]
  {
    hide Refilled;
    RefillGives(s, hand, budget);
  }

  /** With tokens at hand and nothing refused, a drain hands the chip the tokens of
      exactly the filled slots ahead, in their order, up to its budget, and leaves
      those slots empty. */
  lemma {:induction false} DrainSends(s: Flow, hand: seq<Id>, budget: nat, answers: seq<Answer>)
    requires Valid(s) && budget <= |answers| && budget <= |s.slot| && |hand| + |s.ring| > budget && AllTaken(answers)
    ensures var t, m := Drained(s, hand, budget, answers), Ready(s, s.ridx, budget);
            && t.chip == s.chip + Under(s.slot, s.ridx, m)
            && |t.full| == |s.full| && t.ridx == (if m == |s.slot| then s.ridx else Ahead(s.ridx, m, |s.slot|))
            && (forall k :: 0 <= k < m ==> !t.full[Ahead(s.ridx, k, |s.slot|)])
            && forall j :: 0 <= j < |s.full| && !s.full[j] ==> !t.full[j]
    decreases budget
  {
    hide Turn, Arrived;
    assert s.chip + [] == s.chip;
    if budget > 0 {
      NothingArrives(s);
      if s.full[s.ridx] {
        var (t, h, stop) := Turn(s, hand, budget, answers[0]);
        TurnSends(s, hand, budget, answers[0]);
        DrainSends(t, h, budget - 1, answers[1..]);
        SentOn(s, t, Drained(t, h, budget - 1, answers[1..]), budget);
      }
    }
  }

  lemma SentOn(s: Flow, t: Flow, u: Flow, budget: nat)
    requires Valid(s) && Valid(t) && s.full[s.ridx] && 1 <= budget <= |s.slot| == |t.slot|
    requires t.chip == s.chip + [s.slot[s.ridx]]
    requires t.ridx == Next(s.ridx, |s.slot|) && t.full == s.full[s.ridx := false]
    requires forall i :: 0 <= i < |s.slot| && i != s.ridx ==> t.slot[i] == s.slot[i]
    requires var m := Ready(t, t.ridx, budget - 1);
             && u.chip == t.chip + Under(t.slot, t.ridx, m)
             && |u.full| == |t.full| && u.ridx == (if m == |t.slot| then t.ridx else Ahead(t.ridx, m, |t.slot|))
             && forall k :: 0 <= k < m ==> !u.full[Ahead(t.ridx, k, |t.slot|)]
    requires !u.full[s.ridx]
    ensures var m := Ready(s, s.ridx, budget);
            && u.chip == s.chip + Under(s.slot, s.ridx, m)
            && u.ridx == (if m == |s.slot| then s.ridx else Ahead(s.ridx, m, |s.slot|))
            && forall k :: 0 <= k < m ==> !u.full[Ahead(s.ridx, k, |s.slot|)]
  {
    var n, i, m := |s.slot|, s.ridx, Ready(t, t.ridx, budget - 1);
    forall k: nat | k < n - 1 ensures Ahead(t.ridx, k, n) == Ahead(i, k + 1, n) && Ahead(i, k + 1, n) != i {
    }
    ReadyApart(s, t, t.ridx, budget - 1);
    UnderApart(s.slot, t.slot, t.ridx, m);
    assert Ready(s, i, budget) == 1 + m;
    assert s.chip + [s.slot[i]] + Under(s.slot, t.ridx, m) == s.chip + Under(s.slot, i, m + 1);
    forall k | 0 <= k < m + 1 ensures !u.full[Ahead(i, k, n)] {
      if k > 0 { assert !u.full[Ahead(t.ridx, k - 1, n)]; }
    }
  }
}
