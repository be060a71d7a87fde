/** The id rings under concurrency: one hart inside the alloc mutex, one inside
    the free mutex, interleaved at every single read or write of an index or a
    slot. The two sides share no mutex. */
module IdRingRace {
  import opened Basics
  import opened IdRing

  /** id_ring_take between two accesses; a single alloc is a take of one. */
  datatype Taker =
    | Out                                              // mutex free
    | Locked(max: nat)                                 // about to read ridx
    | HasRidx(max: nat, r: nat)                        // about to read widx
    | Reading(max: nat, r: nat, w: nat, got: seq<Id>)  // about to read slot r, or store ridx

  /** id_ring_put between two accesses. */
  datatype Putter =
    | Away
    | Entered(b: seq<Id>)                              // about to read widx
    | Writing(b: seq<Id>, w: nat, i: nat)              // about to write slot w, or store widx

  /** The ring and the two harts. out: the ids harts hold, those being put back
      included until widx covers them. ids: the ring's content, kept beside it to
      tell full from empty; no step reads it. */
  datatype State = State(
    slots: seq<Id>, ridx: nat, widx: nat, taker: Taker, putter: Putter,
    ids: seq<Id>, out: set<Id>)

  function SetOf(s: seq<Id>): set<Id> {
    set x | x in s
  }

  // ---------------------------------------------------------------- steps

  predicate TakeStep(s: State, s': State) {
    var n := |s.slots|;
    match s.taker
    case Out => s'.taker.Locked? && s' == s.(taker := s'.taker)
    case Locked(max) => s' == s.(taker := HasRidx(max, s.ridx))
    case HasRidx(max, r) => s' == s.(taker := Reading(max, r, s.widx, []))
    case Reading(max, r, w, got) =>
      r < n && if |got| < max && Next(r, n) != w
               then s' == s.(taker := Reading(max, Next(r, n), w, got + [s.slots[r]]))
               else s' == s.(ridx := r, taker := Out, out := s.out + SetOf(got),
                             ids := if |got| <= |s.ids| then s.ids[|got|..] else [])
  }

  predicate PutStep(s: State, s': State) {
    var n := |s.slots|;
    match s.putter
    case Away =>
      && s'.putter.Entered? && s' == s.(putter := s'.putter)
      && Distinct(s'.putter.b) && SetOf(s'.putter.b) <= s.out
    case Entered(b) => s' == s.(putter := Writing(b, s.widx, 0))
    case Writing(b, w, i) =>
      w < n && if i < |b|
               then s' == s.(slots := s.slots[w := b[i]], putter := Writing(b, Next(w, n), i + 1))
               else s' == s.(widx := w, putter := Away, out := s.out - SetOf(b), ids := s.ids + b)
  }

  predicate Step(s: State, s': State) {
    TakeStep(s, s') || PutStep(s, s')
  }

  // ---------------------------------------------------------------- invariant

  /** Slots k places after ridx hold the content, then what is being put. */
  predicate RingHolds(s: State) {
    var n := |s.slots|;
    && s.ridx < n && 1 <= |s.ids| <= n
    && s.widx == Slot(s.ridx, |s.ids|, n)
    && forall k :: 0 <= k < |s.ids| ==> s.slots[Slot(s.ridx, k, n)] == s.ids[k]
  }

  /** Each id is in the ring once or out, never both. */
  predicate Partition(s: State, all: set<Id>) {
    && Distinct(s.ids) && SetOf(s.ids) !! s.out && SetOf(s.ids) + s.out == all
  }

  /** The taker may have read widx before a put: it then sees a shorter ring. */
  predicate TakerOk(s: State)
    requires RingHolds(s)
  {
    var n := |s.slots|;
    match s.taker
    case HasRidx(_, r) => r == s.ridx
    case Reading(_, r, w, got) =>
      && |got| < |s.ids| && r == Slot(s.ridx, |got|, n) && got == s.ids[..|got|]
      && exists c :: |got| < c <= |s.ids| && w == Slot(s.ridx, c, n)
    case _ => true
  }

  predicate PutterOk(s: State)
    requires RingHolds(s)
  {
    var n := |s.slots|;
    match s.putter
    case Away => true
    case Entered(b) => Distinct(b) && SetOf(b) <= s.out
    case Writing(b, w, i) =>
      && Distinct(b) && SetOf(b) <= s.out && i <= |b| && |s.ids| + |b| <= n
      && w == Slot(s.ridx, |s.ids| + i, n)
      && forall k :: 0 <= k < i ==> s.slots[Slot(s.ridx, |s.ids| + k, n)] == b[k]
  }

  predicate Inv(s: State, all: set<Id>) {
    RingHolds(s) && Partition(s, all) && |all| <= |s.slots| && TakerOk(s) && PutterOk(s)
  }

  /** All ids free, or those below n, with neither hart inside. */
  predicate Init(s: State) {
    && RingHolds(s) && Distinct(s.ids) && s.out == {}
    && s.taker == Out && s.putter == Away
  }

  // ---------------------------------------------------------------- counting

  lemma {:induction false} SetSize(s: seq<Id>)
    requires Distinct(s)
    ensures |SetOf(s)| == |s|
  {
    if s != [] {
      SetSize(s[1..]);
      assert s[0] !in s[1..];
      assert SetOf(s) == {s[0]} + SetOf(s[1..]);
    }
  }

  lemma SubsetSize(a: set<Id>, b: set<Id>)
    requires a <= b
    ensures |a| <= |b|
  {
    assert b == a + (b - a);
  }

  /** Distinct ids that are out always fit beside the ring's content. */
  lemma RoomToPut(s: State, all: set<Id>, b: seq<Id>)
    requires Partition(s, all) && |all| <= |s.slots| && Distinct(b) && SetOf(b) <= s.out
    ensures |s.ids| + |b| <= |s.slots|
  {
    SetSize(s.ids);
    SetSize(b);
    assert SetOf(s.ids) !! SetOf(b);
    SubsetSize(SetOf(s.ids) + SetOf(b), all);
  }

  // ---------------------------------------------------------------- preservation

  lemma TakeKeeps(s: State, s': State, all: set<Id>)
    requires Inv(s, all) && TakeStep(s, s')
    ensures Inv(s', all)
  {
    hide Partition, PutterOk, Distinct;
    if s.taker.Reading? {
      if s'.taker == Out { Handed(s, s', all); } else { ReadOne(s, s', all); }
    } else {
      SameRing(s, s', all);
      if s.taker.HasRidx? { assert s'.taker.w == Slot(s.ridx, |s.ids|, |s.slots|); }
    }
  }

  /** A step that leaves the ring, the ids that are out and the putter alone. */
  lemma SameRing(s: State, s': State, all: set<Id>)
    requires Inv(s, all) && s' == s.(taker := s'.taker)
    ensures RingHolds(s') && Partition(s', all) && PutterOk(s')
  {
  }

  lemma ReadOne(s: State, s': State, all: set<Id>)
    requires Inv(s, all) && TakeStep(s, s') && s.taker.Reading? && s'.taker != Out
    ensures Inv(s', all)
  {
    hide Partition, PutterOk, Distinct;
    var n, got := |s.slots|, s.taker.got;
    var c :| |got| < c <= |s.ids| && s.taker.w == Slot(s.ridx, c, n);
    NextReaches(s.ridx, n, c, |got|);
    SameRing(s, s', all);
    assert s'.taker.got == s.ids[..|got| + 1];
    assert |s'.taker.got| < c;
  }

  /** Storing ridx hands the ids out. */
  lemma Handed(s: State, s': State, all: set<Id>)
    requires Inv(s, all) && TakeStep(s, s') && s.taker.Reading? && s'.taker == Out
    ensures Inv(s', all)
    ensures var got := s.taker.got; Distinct(got) && SetOf(got) !! s.out && s'.out == s.out + SetOf(got)
  {
    hide Partition, PutterOk, Distinct, SetOf;
    assert s.ids == s.taker.got + s'.ids;
    TakePartition(s, s', all);
    HandedRing(s, s');
    HandedPutter(s, s');
  }

  lemma HandedRing(s: State, s': State)
    requires RingHolds(s) && TakerOk(s) && TakeStep(s, s') && s.taker.Reading? && s'.taker == Out
    ensures RingHolds(s') && s'.ridx == Slot(s.ridx, |s.taker.got|, |s.slots|)
  {
    hide SetOf;
    var n, d := |s.slots|, |s.taker.got|;
    ShiftSlotsBy(s.ridx, n, |s.ids|, d);
    forall k | 0 <= k < |s'.ids| ensures s'.slots[Slot(s'.ridx, k, n)] == s'.ids[k] {
      assert s'.ids[k] == s.ids[k + d] && Slot(s'.ridx, k, n) == Slot(s.ridx, k + d, n);
    }
  }

  lemma HandedPutter(s: State, s': State)
    requires RingHolds(s) && RingHolds(s') && PutterOk(s)
    requires s'.slots == s.slots && s'.putter == s.putter && s.out <= s'.out
    requires |s'.ids| <= |s.ids| && s'.ridx == Slot(s.ridx, |s.ids| - |s'.ids|, |s.slots|)
    ensures PutterOk(s')
  {
    hide Distinct;
    if s.putter.Writing? {
      var n, i := |s.slots|, s.putter.i;
      SlotShift(s.ridx, n, |s.ids|, |s.ids| - |s'.ids|, i);
      forall k | 0 <= k < i ensures s'.slots[Slot(s'.ridx, |s'.ids| + k, n)] == s.putter.b[k] {
        SlotShift(s.ridx, n, |s.ids|, |s.ids| - |s'.ids|, k);
      }
    }
  }

  lemma SlotShift(r: nat, n: nat, c: nat, d: nat, k: nat)
    requires r < n && d <= c && c + k <= n
    ensures Slot(Slot(r, d, n), c - d + k, n) == Slot(r, c + k, n)
  {
  }

  lemma TakePartition(s: State, s': State, all: set<Id>)
    requires Partition(s, all) && s.taker.Reading? && s.ids == s.taker.got + s'.ids
    requires s'.out == s.out + SetOf(s.taker.got)
    ensures Partition(s', all) && Distinct(s.taker.got) && SetOf(s.taker.got) !! s.out
  {
    var got := s.taker.got;
    assert forall i :: 0 <= i < |got| ==> got[i] == s.ids[i];
    assert forall i :: 0 <= i < |s'.ids| ==> s'.ids[i] == s.ids[|got| + i];
    assert SetOf(s.ids) == SetOf(got) + SetOf(s'.ids);
  }

  lemma PutKeeps(s: State, s': State, all: set<Id>)
    requires Inv(s, all) && PutStep(s, s')
    ensures Inv(s', all)
  {
    match s.putter
    case Away =>
    case Entered(b) => RoomToPut(s, all, b);
    case Writing(b, w, i) =>
      if i < |b| { Wrote(s, s', all); } else { Published(s, s', all); }
  }

  /** A slot past the content is written: neither the content nor what the taker
      has yet to read is touched. */
  lemma Wrote(s: State, s': State, all: set<Id>)
    requires Inv(s, all) && PutStep(s, s') && s.putter.Writing? && s.putter.i < |s.putter.b|
    ensures Inv(s', all)
  {
    hide Partition, Distinct, SetOf;
    assert Partition(s', all) by { SamePartition(s, s', all); }
    var n, c, i := |s.slots|, |s.ids|, s.putter.i;
    SlotsApart(s.ridx, n, c + i);
    NextReaches(s.ridx, n, c + i + 1, c + i);
    assert RingHolds(s');
    assert PutterOk(s');
  }

  lemma SamePartition(s: State, s': State, all: set<Id>)
    requires Partition(s, all) && s'.ids == s.ids && s'.out == s.out
    ensures Partition(s', all)
  {
  }

  lemma SlotsApart(r: nat, n: nat, k: nat)
    requires r < n && k < n
    ensures forall j :: 0 <= j < k ==> Slot(r, j, n) != Slot(r, k, n)
  {
  }

  /** Storing widx gives the ids back to the ring. */
  lemma Published(s: State, s': State, all: set<Id>)
    requires Inv(s, all) && PutStep(s, s') && s.putter.Writing? && s.putter.i == |s.putter.b|
    ensures Inv(s', all)
  {
    hide Partition, Distinct, SetOf;
    PutPartition(s, s', all);
    PublishedRing(s, s');
    if s.taker.Reading? {
      var got, n := s.taker.got, |s.slots|;
      assert s'.ids[..|got|] == s.ids[..|got|];
      var c :| |got| < c <= |s.ids| && s.taker.w == Slot(s.ridx, c, n);
      assert |got| < c <= |s'.ids|;
    }
  }

  lemma PublishedRing(s: State, s': State)
    requires RingHolds(s) && PutterOk(s) && PutStep(s, s') && s.putter.Writing? && s.putter.i == |s.putter.b|
    ensures RingHolds(s')
  {
    hide Distinct, SetOf;
    var b, n := s.putter.b, |s.slots|;
    forall k | 0 <= k < |s'.ids| ensures s'.slots[Slot(s'.ridx, k, n)] == s'.ids[k] {
      if k >= |s.ids| {
        assert s'.ids[k] == b[k - |s.ids|] && Slot(s.ridx, |s.ids| + (k - |s.ids|), n) == Slot(s.ridx, k, n);
      }
    }
  }

  lemma PutPartition(s: State, s': State, all: set<Id>)
    requires Partition(s, all) && s.putter.Writing? && Distinct(s.putter.b) && SetOf(s.putter.b) <= s.out
    requires s'.ids == s.ids + s.putter.b && s'.out == s.out - SetOf(s.putter.b)
    ensures Partition(s', all)
  {
    var b := s.putter.b;
    assert forall k :: 0 <= k < |s'.ids| ==> s'.ids[k] == if k < |s.ids| then s.ids[k] else b[k - |s.ids|];
    assert forall k :: 0 <= k < |b| ==> b[k] in SetOf(b);
    assert forall k :: 0 <= k < |s.ids| ==> s.ids[k] in SetOf(s.ids);
    assert SetOf(s'.ids) == SetOf(s.ids) + SetOf(b);
  }

  // ---------------------------------------------------------------- runs

  predicate IsRun(run: seq<State>) {
    && run != [] && Init(run[0]) && |SetOf(run[0].ids)| <= |run[0].slots|
    && forall i :: 0 < i < |run| ==> Step(run[i - 1], run[i])
  }

  /** Every reachable state: ids in the ring and ids out partition the ids the
      ring began with, and the ring's slots hold its part. */
  lemma {:induction false} RunSafe(run: seq<State>, k: nat)
    requires IsRun(run) && k < |run|
    ensures Inv(run[k], SetOf(run[0].ids))
  {
    if k > 0 {
      RunSafe(run, k - 1);
      assert Step(run[k - 1], run[k]);
      if TakeStep(run[k - 1], run[k]) {
        TakeKeeps(run[k - 1], run[k], SetOf(run[0].ids));
      } else {
        PutKeeps(run[k - 1], run[k], SetOf(run[0].ids));
      }
    }
  }

  /** No id is handed out twice: whatever a take hands over was in nobody's
      hands, each id once. */
  lemma NeverHandedTwice(run: seq<State>, k: nat)
    requires IsRun(run) && 0 < k < |run|
    requires run[k - 1].taker.Reading? && run[k].taker == Out && TakeStep(run[k - 1], run[k])
    ensures var got := run[k - 1].taker.got;
            && Distinct(got) && SetOf(got) !! run[k - 1].out
            && run[k].out == run[k - 1].out + SetOf(got)
  {
    hide Inv, TakeStep;
    RunSafe(run, k - 1);
    Handed(run[k - 1], run[k], SetOf(run[0].ids));
  }

  // ---------------------------------------------------------------- what a take hands over

  /** One step of a take that goes on reading: it reads the next id, or a put adds
      behind what it will read. */
  lemma StillReads(s: State, s': State, all: set<Id>)
    requires Inv(s, all) && Step(s, s') && s.taker.Reading? && s'.taker.Reading?
    ensures s.ids <= s'.ids && s'.ridx == s.ridx && |s'.slots| == |s.slots|
    ensures s'.taker.w == s.taker.w && s'.taker.max == s.taker.max
    ensures s'.taker.got == s.taker.got || (|s'.taker.got| == |s.taker.got| + 1 <= s.taker.max)
  {
    hide Partition, PutterOk, Distinct, SetOf;
  }

  /** Since it read widx, when the ring held ids. */
  lemma {:induction false} ReadsOn(run: seq<State>, j: nat, i: nat)
    requires IsRun(run) && 0 < j <= i < |run| && run[j - 1].taker.HasRidx?
    requires forall k :: j <= k <= i ==> run[k].taker.Reading?
    ensures run[j].ids <= run[i].ids && run[i].ridx == run[j].ridx && |run[i].slots| == |run[j].slots|
    ensures run[i].taker.max == run[j].taker.max && run[i].taker.w == run[j].widx
    ensures |run[i].taker.got| <= run[i].taker.max
  {
    hide Inv, SetOf;
    var all := SetOf(run[0].ids);
    assert Step(run[i - 1], run[i]);
    RunSafe(run, i - 1);
    if i == j {
      FirstReads(run[j - 1], run[j]);
    } else {
      ReadsOn(run, j, i - 1);
      StillReads(run[i - 1], run[i], all);
    }
  }

  lemma FirstReads(s: State, s': State)
    requires Step(s, s') && s.taker.HasRidx? && s'.taker.Reading?
    ensures s'.taker.w == s'.widx && s'.taker.got == []
  {
  }

  /** A take of max hands over exactly the ids that were in front when it read widx,
      as many as it asked for and one left behind, whatever puts do meanwhile. */
  lemma TakesExactly(run: seq<State>, j: nat, k: nat)
    requires IsRun(run) && 0 < j < k < |run| && run[j - 1].taker.HasRidx? && run[k].taker == Out
    requires forall i :: j <= i < k ==> run[i].taker.Reading?
    ensures var max, ids, got := run[j].taker.max, run[j].ids, run[k - 1].taker.got;
            && got == ids[..Taken(ids, max)] && run[k].out == run[k - 1].out + SetOf(got)
  {
    hide Partition, PutterOk, Distinct;
    var s, s' := run[k - 1], run[k];
    ReadsOn(run, j, k - 1);
    RunSafe(run, k - 1);
    RunSafe(run, j);
    assert Step(s, s');
    StopsAt(s, s', run[j].ids);
  }

  /** Where it stops: enough, or one id before the index it read. */
  lemma StopsAt(s: State, s': State, ids: seq<Id>)
    requires RingHolds(s) && TakerOk(s) && Step(s, s') && s.taker.Reading? && s'.taker == Out
    requires ids <= s.ids && ids != [] && s.taker.w == Slot(s.ridx, |ids|, |s.slots|) && |s.taker.got| <= s.taker.max
    ensures s.taker.got == ids[..Taken(ids, s.taker.max)] && s'.out == s.out + SetOf(s.taker.got)
  {
    hide SetOf, Distinct;
    var n, g := |s.slots|, |s.taker.got|;
    assert TakeStep(s, s');
    var c :| g < c <= |s.ids| && s.taker.w == Slot(s.ridx, c, n);
    assert c == |ids| by { SameSlot(s.ridx, n, c, |ids|); }
    NextReaches(s.ridx, n, c, g);
  }

  lemma SameSlot(r: nat, n: nat, a: nat, b: nat)
    requires r < n && 0 < a <= n && 0 < b <= n && Slot(r, a, n) == Slot(r, b, n)
    ensures a == b
  {
  }
}
