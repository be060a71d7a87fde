/** One reorder node pool under concurrency. Alloc and free hold different
    mutexes, and free keeps its index by an increment and, at the end of the
    ring, a second store: between the two an alloc reads the ring's size. */
module NodePoolRace {
  import opened Basics
  import opened IdRing
  import IdRingRace

  /** reorder_node_alloc between two accesses. */
  datatype Taker =
    | Idle                      // mutex free
    | Testing(at: nat)          // about to read the free side's index
    | Passed(at: nat)           // about to store its own
    | Moved(at: nat)            // about to read slot at
    | Handing(at: nat, id: Id)  // about to wrap its index and return

  /** reorder_node_free between two accesses. */
  datatype Putter =
    | Away
    | Entered(id: Id)           // about to write the slot
    | Written(id: Id)           // about to increment its index
    | Stepped                   // about to wrap it

  /** head: alloc's index, which free never reads. tail: free's, |slots| while an
      increment waits for its wrap. out and ids as in IdRingRace. */
  datatype State = State(
    slots: seq<Id>, head: nat, tail: nat, taker: Taker, putter: Putter, ids: seq<Id>, out: set<Id>)

  // ---------------------------------------------------------------- steps

  predicate TakeStep(s: State, s': State) {
    var n := |s.slots|;
    match s.taker
    case Idle => s' == s.(taker := Testing(s.head))
    case Testing(at) => at < n && s' == s.(taker := if s.tail == Next(at, n) then Idle else Passed(at))
    case Passed(at) => s' == s.(head := at + 1, taker := Moved(at))
    case Moved(at) => at < n && s' == s.(taker := Handing(at, s.slots[at]))
    case Handing(_, id) =>
      s' == s.(head := if s.head == n then 0 else s.head, taker := Idle,
               ids := if s.ids == [] then [] else s.ids[1..], out := s.out + {id})
  }

  predicate PutStep(s: State, s': State) {
    var n := |s.slots|;
    match s.putter
    case Away => s'.putter.Entered? && s'.putter.id in s.out && s' == s.(putter := s'.putter)
    case Entered(id) => s.tail < n && s' == s.(slots := s.slots[s.tail := id], putter := Written(id))
    case Written(id) =>
      s' == s.(tail := s.tail + 1, putter := Stepped, ids := s.ids + [id], out := s.out - {id})
    case Stepped => s' == s.(tail := if s.tail == n then 0 else s.tail, putter := Away)
  }

  predicate Step(s: State, s': State) {
    TakeStep(s, s') || PutStep(s, s')
  }

  /** The test passes on the last id, because the increment it sees has not
      wrapped yet. */
  predicate Slips(s: State, s': State) {
    var n := |s.slots|;
    TakeStep(s, s') && s.taker.Testing? && s.taker.at == n - 1 && s.tail == n
  }

  /** The increment of a free: its id is in the ring. */
  predicate Increments(s: State, s': State) {
    PutStep(s, s') && s.putter.Written?
  }

  /** An alloc hands over the last id. */
  predicate Empties(s: State, s': State) {
    TakeStep(s, s') && s.taker.Handing? && |s.ids| == 1
  }

  // ---------------------------------------------------------------- invariant

  /** Where the content begins: an alloc that moved on has not handed over yet. */
  function Base(s: State): nat {
    match s.taker
    case Moved(at) => at
    case Handing(at, _) => at
    case _ => s.head
  }

  predicate RingHolds(s: State) {
    var n, b := |s.slots|, Base(s);
    && b < n && s.tail <= n && 1 <= |s.ids| <= n
    && (if s.tail == n then 0 else s.tail) == Slot(b, |s.ids|, n)
    && forall k :: 0 <= k < |s.ids| ==> s.slots[Slot(b, k, n)] == s.ids[k]
  }

  predicate Partition(s: State, all: set<Id>) {
    && Distinct(s.ids) && IdRingRace.SetOf(s.ids) !! s.out && IdRingRace.SetOf(s.ids) + s.out == all
    && |all| <= |s.slots| && forall k :: 0 <= k < |s.slots| ==> s.slots[k] in all
  }

  /** The alloc is at the front of the content. */
  predicate TakerOk(s: State) {
    match s.taker
    case Idle => true
    case Testing(at) => at == s.head
    case Passed(at) => at == s.head
    case Moved(at) => s.head == at + 1
    case Handing(at, id) => s.head == at + 1 && s.ids != [] && id == s.ids[0]
  }

  predicate PutterOk(s: State) {
    match s.putter
    case Away => s.tail < |s.slots|
    case Entered(id) => s.tail < |s.slots| && id in s.out
    case Written(id) => s.tail < |s.slots| && id in s.out && s.slots[s.tail] == id
    case Stepped => true
  }

  predicate Inv(s: State, all: set<Id>) {
    RingHolds(s) && Partition(s, all) && TakerOk(s) && PutterOk(s)
  }

  /** wifi_ba_node_init: every id free, nobody inside. */
  predicate Init(s: State) {
    && RingHolds(s) && Distinct(s.ids) && |s.ids| == |s.slots| && s.out == {}
    && s.taker == Idle && s.putter == Away && s.tail < |s.slots|
  }

  // ---------------------------------------------------------------- preservation

  /** The test of an alloc: it passes exactly when an id would be left, but for
      the one case. */
  lemma TestIs(s: State, all: set<Id>)
    requires Inv(s, all) && s.taker.Testing?
    ensures var n, at := |s.slots|, s.taker.at;
            at < n && (s.tail == Next(at, n) <==> |s.ids| == 1 && !(s.tail == n && at == n - 1))
  {
  }

  lemma HandingKeeps(s: State, s': State, all: set<Id>)
    requires Inv(s, all) && TakeStep(s, s') && s.taker.Handing?
    ensures s.taker.id !in s.out
    ensures |s.ids| == 1 ==> !RingHolds(s')
    ensures |s.ids| != 1 ==> Inv(s', all)
  {
    hide Partition, Slot;
    HandedPartition(s, s', all);
    if |s.ids| >= 2 { HandedRing(s, s'); }
  }

  /** The slots behind the one handed over. */
  lemma HandedRing(s: State, s': State)
    requires RingHolds(s) && TakerOk(s) && TakeStep(s, s') && s.taker.Handing? && |s.ids| >= 2
    ensures RingHolds(s')
  {
    var n, at := |s.slots|, s.taker.at;
    ShiftSlots(at, n, |s.ids|);
    assert s'.head == Next(at, n);
    forall k | 0 <= k < |s'.ids| ensures s'.slots[Slot(s'.head, k, n)] == s'.ids[k] {
      assert s'.ids[k] == s.ids[k + 1] && Slot(s'.head, k, n) == Slot(at, k + 1, n);
    }
  }

  lemma HandedPartition(s: State, s': State, all: set<Id>)
    requires Partition(s, all) && s.ids != [] && s'.ids == s.ids[1..] && s'.slots == s.slots
    requires s'.out == s.out + {s.ids[0]}
    ensures Partition(s', all) && s.ids[0] !in s.out
  {
    hide Distinct, IdRingRace.SetOf;
    FirstApart(s.ids);
    MovesOver(s.ids[0], IdRingRace.SetOf(s'.ids), s.out);
  }

  lemma MovesOver(x: Id, rest: set<Id>, out: set<Id>)
    requires x !in rest && ({x} + rest) !! out
    ensures rest !! (out + {x}) && rest + (out + {x}) == ({x} + rest) + out
  {
  }

  lemma FirstApart(ids: seq<Id>)
    requires Distinct(ids) && ids != []
    ensures Distinct(ids[1..])
    ensures IdRingRace.SetOf(ids) == {ids[0]} + IdRingRace.SetOf(ids[1..])
    ensures ids[0] in IdRingRace.SetOf(ids) && ids[0] !in IdRingRace.SetOf(ids[1..])
  {
    assert forall i :: 0 <= i < |ids| - 1 ==> ids[1..][i] == ids[i + 1];
    assert ids == [ids[0]] + ids[1..];
  }

  /** Every access of an alloc keeps the ring, but for the last id handed over. */
  lemma TakeKeeps(s: State, s': State, all: set<Id>)
    requires Inv(s, all) && TakeStep(s, s')
    ensures Empties(s, s') ==> !RingHolds(s')
    ensures !Empties(s, s') ==> Inv(s', all)
  {
    hide Partition;
    assert s.taker.Handing? || Partition(s', all) by { SamePartition(s, s', all); }
    match s.taker
    case Moved(at) => assert s.slots[Slot(at, 0, |s.slots|)] == s.ids[0];
    case Handing(_, _) => HandingKeeps(s, s', all);
    case _ =>
  }

  lemma SamePartition(s: State, s': State, all: set<Id>)
    requires Partition(s, all) && TakeStep(s, s')
    ensures !s.taker.Handing? ==> Partition(s', all)
  {
  }

  lemma RoomToFree(s: State, all: set<Id>, id: Id)
    requires Partition(s, all) && id in s.out
    ensures |s.ids| < |s.slots|
  {
    IdRingRace.SetSize(s.ids);
    var inside := IdRingRace.SetOf(s.ids);
    assert id !in inside;
    IdRingRace.SubsetSize(inside + {id}, all);
  }

  lemma PutKeeps(s: State, s': State, all: set<Id>)
    requires Inv(s, all) && PutStep(s, s')
    ensures Inv(s', all)
  {
    hide Partition, RingHolds;
    match s.putter
    case Entered(id) =>
      RoomToFree(s, all, id);
      WroteRing(s, s');
      WrotePartition(s, s', all);
    case Written(id) =>
      RoomToFree(s, all, id);
      FreedPartition(s, s', all);
      FreedRing(s, s');
    case _ =>
      SameIds(s, s', all);
  }

  /** A slot behind the content is written. */
  lemma WroteRing(s: State, s': State)
    requires RingHolds(s) && s.putter.Entered? && PutStep(s, s') && |s.ids| < |s.slots|
    ensures RingHolds(s')
  {
    IdRingRace.SlotsApart(Base(s), |s.slots|, |s.ids|);
    NextReaches(Base(s), |s.slots|, |s.ids| + 1, |s.ids|);
  }

  lemma WrotePartition(s: State, s': State, all: set<Id>)
    requires Partition(s, all) && s.putter.Entered? && s.putter.id in s.out && PutStep(s, s')
    ensures Partition(s', all)
  {
  }

  lemma FreedRing(s: State, s': State)
    requires RingHolds(s) && PutterOk(s) && s.putter.Written? && PutStep(s, s') && |s.ids| < |s.slots|
    ensures RingHolds(s')
  {
    NextReaches(Base(s), |s.slots|, |s.ids| + 1, |s.ids|);
  }

  lemma SameIds(s: State, s': State, all: set<Id>)
    requires Partition(s, all) && RingHolds(s) && PutStep(s, s') && (s.putter.Away? || s.putter.Stepped?)
    ensures Partition(s', all) && RingHolds(s') && s'.tail <= |s'.slots| && (s.putter.Stepped? ==> s'.tail < |s'.slots|)
  {
  }

  lemma FreedPartition(s: State, s': State, all: set<Id>)
    requires Partition(s, all) && s.putter.Written? && s.putter.id in s.out && PutStep(s, s')
    ensures Partition(s', all)
  {
    var id := s.putter.id;
    assert forall i :: 0 <= i < |s.ids| ==> s.ids[i] in IdRingRace.SetOf(s.ids);
    assert forall i :: 0 <= i < |s'.ids| ==> s'.ids[i] == if i < |s.ids| then s.ids[i] else id;
    assert IdRingRace.SetOf(s'.ids) == IdRingRace.SetOf(s.ids) + {id};
  }

  /** A step is one of the two sides'. */
  lemma OneSide(s: State, s': State)
    ensures TakeStep(s, s') ==> s'.taker != s.taker && !PutStep(s, s')
    ensures PutStep(s, s') ==> s'.taker == s.taker
  {
  }

  /** Every single access keeps the pool a permutation, but for the hand-over of
      the last id. */
  lemma StepExactly(s: State, s': State, all: set<Id>)
    requires Inv(s, all) && Step(s, s')
    ensures RingHolds(s') && Partition(s', all) <==> !Empties(s, s')
    ensures !Empties(s, s') ==> Inv(s', all)
  {
    hide TakeStep, PutStep, RingHolds, Partition, TakerOk, PutterOk;
    if TakeStep(s, s') {
      TakeKeeps(s, s', all);
    } else {
      PutKeeps(s, s', all);
    }
  }

  // ---------------------------------------------------------------- runs

  predicate IsPath(p: seq<State>) {
    p != [] && forall i :: 0 < i < |p| ==> Step(p[i - 1], p[i])
  }

  predicate IsRun(run: seq<State>) {
    IsPath(run) && Init(run[0])
  }

  /** No step up to state k hands over the last id. */
  predicate Spares(p: seq<State>, k: nat)
    requires k < |p|
  {
    forall i :: 0 < i <= k ==> !Empties(p[i - 1], p[i])
  }

  lemma {:induction false} PathSafe(p: seq<State>, all: set<Id>, k: nat)
    requires IsPath(p) && k < |p| && Spares(p, k) && Inv(p[0], all)
    ensures Inv(p[k], all)
  {
    hide Inv, Empties, Step;
    if k > 0 {
      PathSafe(p, all, k - 1);
      StepExactly(p[k - 1], p[k], all);
    }
  }

  /** An alloc past its test. */
  predicate Takes(t: Taker) {
    t.Passed? || t.Moved? || t.Handing?
  }

  /** The test of the alloc still under way at state k slipped at step j, and no
      free has incremented its index since. */
  predicate SlipOpen(p: seq<State>, j: nat, k: nat)
    requires 0 < j <= k < |p|
  {
    && Slips(p[j - 1], p[j])
    && (forall i :: j <= i <= k ==> Takes(p[i].taker))
    && (forall i :: j < i <= k ==> !Increments(p[i - 1], p[i]))
  }

  /** Step k hands over the id of a test that slipped at step j, with no increment
      by a free in between. */
  predicate HandsLast(p: seq<State>, j: nat, k: nat) {
    0 < j < k < |p| && SlipOpen(p, j, k - 1) && TakeStep(p[k - 1], p[k]) && p[k - 1].taker.Handing?
  }

  predicate Holds(p: seq<State>, all: set<Id>, k: nat)
    requires k < |p|
  {
    forall i :: 0 <= i <= k ==> Inv(p[i], all)
  }

  /** What one step does to the number of ids before an alloc past its test. */
  lemma LastKept(s: State, s': State, all: set<Id>)
    requires Inv(s, all) && Step(s, s') && Takes(s'.taker)
    ensures Slips(s, s') ==> |s'.ids| == 1
    ensures Increments(s, s') ==> |s'.ids| >= 2
    ensures !Takes(s.taker) && !Slips(s, s') ==> |s'.ids| != 1
    ensures Takes(s.taker) && !Increments(s, s') ==> s'.ids == s.ids && !Slips(s, s')
  {
    hide Partition, TakeStep, PutStep;
    OneSide(s, s');
    if TakeStep(s, s') { LastTaken(s, s', all); } else { LastPut(s, s'); }
  }

  lemma LastTaken(s: State, s': State, all: set<Id>)
    requires Inv(s, all) && TakeStep(s, s') && Takes(s'.taker)
    ensures Slips(s, s') ==> |s'.ids| == 1
    ensures !Takes(s.taker) && !Slips(s, s') ==> |s'.ids| != 1
    ensures Takes(s.taker) ==> s'.ids == s.ids && !Slips(s, s')
  {
    hide Partition;
    if s.taker.Testing? { TestIs(s, all); }
  }

  lemma LastPut(s: State, s': State)
    requires RingHolds(s) && PutStep(s, s') && Takes(s'.taker)
    ensures s'.taker == s.taker && (Increments(s, s') ==> |s'.ids| >= 2)
    ensures !Increments(s, s') ==> s'.ids == s.ids
    ensures !Slips(s, s')
  {
  }

  lemma {:induction false} SlipIsLast(p: seq<State>, all: set<Id>, j: nat, k: nat)
    requires IsPath(p) && 0 < j <= k < |p| && Holds(p, all, k) && SlipOpen(p, j, k)
    ensures |p[k].ids| == 1
  {
    hide Inv, Slips, Increments, Step, Takes;
    assert Inv(p[k - 1], all) && Step(p[k - 1], p[k]) && Takes(p[k].taker);
    LastKept(p[k - 1], p[k], all);
    if j < k {
      SlipIsLast(p, all, j, k - 1);
      assert Takes(p[k - 1].taker) && !Increments(p[k - 1], p[k]);
    }
  }

  lemma {:induction false} LastHasSlip(p: seq<State>, all: set<Id>, k: nat) returns (j: nat)
    requires IsPath(p) && k < |p| && Holds(p, all, k)
    requires !Takes(p[0].taker) && Takes(p[k].taker) && |p[k].ids| == 1
    ensures 0 < j <= k && SlipOpen(p, j, k)
  {
    hide Inv, Slips, Increments, Step, Takes;
    j := k;
    assert Inv(p[k - 1], all) && Step(p[k - 1], p[k]);
    LastKept(p[k - 1], p[k], all);
    if Takes(p[k - 1].taker) && !Slips(p[k - 1], p[k]) {
      j := LastHasSlip(p, all, k - 1);
    }
  }

  /** In a run that has held so far the last id is handed over exactly by a test
      that slipped and met no increment. */
  lemma EmptiesExactly(run: seq<State>, all: set<Id>, k: nat)
    requires IsPath(run) && 0 < k < |run| && Holds(run, all, k - 1) && !Takes(run[0].taker)
    ensures Empties(run[k - 1], run[k]) <==> exists j: nat :: HandsLast(run, j, k)
  {
    hide Inv, Slips, Increments, TakeStep, PutStep;
    if Empties(run[k - 1], run[k]) {
      var j := LastHasSlip(run, all, k - 1);
      assert HandsLast(run, j, k);
    }
    if j: nat :| HandsLast(run, j, k) {
      SlipIsLast(run, all, j, k - 1);
    }
  }

  lemma InitInv(s: State)
    requires Init(s)
    ensures Inv(s, IdRingRace.SetOf(s.ids)) && !Takes(s.taker)
  {
    IdRingRace.SetSize(s.ids);
    var n := |s.slots|;
    forall k | 0 <= k < n ensures s.slots[k] in IdRingRace.SetOf(s.ids) {
      var j := if k >= s.head then k - s.head else k - s.head + n;
      assert Slot(s.head, j, n) == k && s.slots[Slot(s.head, j, n)] == s.ids[j];
    }
  }

  lemma {:induction false} HoldsUntil(run: seq<State>, k: nat)
    requires IsRun(run) && k < |run|
    requires forall j: nat, i: nat :: i <= k ==> !HandsLast(run, j, i)
    ensures Holds(run, IdRingRace.SetOf(run[0].ids), k)
  {
    hide Inv, Init, HandsLast;
    var all := IdRingRace.SetOf(run[0].ids);
    InitInv(run[0]);
    if k > 0 {
      HoldsUntil(run, k - 1);
      EmptiesExactly(run, all, k);
      StepExactly(run[k - 1], run[k], all);
    }
  }

  /** The pool stays a permutation of its ids in every state of a run if and only
      if no test that slips is followed by its hand-over with no increment by a
      free in between. */
  lemma RunExactly(run: seq<State>)
    requires IsRun(run)
    ensures var all := IdRingRace.SetOf(run[0].ids);
            (forall k :: 0 <= k < |run| ==> RingHolds(run[k]) && Partition(run[k], all))
            <==> (forall j: nat, k: nat :: !HandsLast(run, j, k))
  {
    hide HandsLast, Init, RingHolds, Partition, TakerOk, PutterOk;
    var all := IdRingRace.SetOf(run[0].ids);
    if forall j: nat, k: nat :: !HandsLast(run, j, k) {
      HoldsUntil(run, |run| - 1);
      assert forall k :: 0 <= k < |run| ==> Inv(run[k], all);
    }
    if j: nat, k: nat :| HandsLast(run, j, k) {
      var i := FirstBreak(run, j, k);
    }
  }

  /** The first such hand-over is where the ring breaks. */
  lemma {:induction false} FirstBreak(run: seq<State>, j: nat, k: nat) returns (i: nat)
    requires IsRun(run) && HandsLast(run, j, k)
    ensures i <= k && 0 < i < |run| && !RingHolds(run[i])
    decreases k
  {
    hide Inv, Init, RingHolds, Partition;
    if j': nat, k': nat :| k' < k && HandsLast(run, j', k') {
      i := FirstBreak(run, j', k');
    } else {
      var all := IdRingRace.SetOf(run[0].ids);
      i := k;
      InitInv(run[0]);
      HoldsUntil(run, k - 1);
      EmptiesExactly(run, all, k);
      TakeKeeps(run[k - 1], run[k], all);
    }
  }

  /** No alloc hands out an id that is out before the last id has been handed over
      in that way. */
  lemma DoubledAfterLast(run: seq<State>, k: nat)
    requires IsRun(run) && 0 < k < |run| && TakeStep(run[k - 1], run[k])
    requires run[k - 1].taker.Handing? && run[k - 1].taker.id in run[k - 1].out
    ensures exists j: nat, i: nat :: i < k && HandsLast(run, j, i)
  {
    hide Inv, Init, HandsLast, TakeStep;
    if forall j: nat, i: nat :: i <= k - 1 ==> !HandsLast(run, j, i) {
      HoldsUntil(run, k - 1);
      HandingKeeps(run[k - 1], run[k], IdRingRace.SetOf(run[0].ids));
    }
  }

  // ---------------------------------------------------------------- the slip is real

  /** The path p of single accesses takes s to t. */
  predicate Leads(p: seq<State>, s: State, t: State) {
    IsPath(p) && p[0] == s && p[|p| - 1] == t
  }

  /** The same, and no alloc on it hands over the last id. */
  predicate Safely(p: seq<State>, s: State, t: State) {
    Leads(p, s, t) && Spares(p, |p| - 1)
  }

  lemma Joined(p: seq<State>, q: seq<State>, s: State, t: State, u: State) returns (r: seq<State>)
    requires Leads(p, s, t) && Leads(q, t, u)
    ensures Leads(r, s, u) && r == p + q[1..]
    ensures Safely(p, s, t) && Safely(q, t, u) ==> Safely(r, s, u)
  {
    hide Step, Empties;
    r := p + q[1..];
    forall i | 0 < i < |r|
      ensures Step(r[i - 1], r[i])
      ensures Safely(p, s, t) && Safely(q, t, u) ==> !Empties(r[i - 1], r[i])
    {
      if i >= |p| {
        var j := i - |p| + 1;
        assert r[i] == q[j] && r[i - 1] == q[j - 1];
        assert Step(q[j - 1], q[j]);
      }
    }
  }

  /** One alloc, undisturbed. */
  function Alloced(s: State): State
    requires s.head < |s.slots|
  {
    s.(head := Next(s.head, |s.slots|), ids := if s.ids == [] then [] else s.ids[1..],
       out := s.out + {s.slots[s.head]})
  }

  lemma AllocPath(s: State) returns (p: seq<State>)
    requires s.taker == Idle && s.head < |s.slots| && s.tail != Next(s.head, |s.slots|)
    ensures Leads(p, s, Alloced(s)) && |p| == 6
    ensures p[1] == s.(taker := Testing(s.head)) && p[2] == s.(taker := Passed(s.head))
    ensures p[3] == s.(head := s.head + 1, taker := Moved(s.head))
    ensures p[4] == s.(head := s.head + 1, taker := Handing(s.head, s.slots[s.head]))
    ensures p[0] == s && p[5] == Alloced(s)
    ensures |s.ids| != 1 ==> Spares(p, 5)
  {
    var at := s.head;
    var moved := s.(head := at + 1, taker := Moved(at));
    p := [s, s.(taker := Testing(at)), s.(taker := Passed(at)), moved,
          moved.(taker := Handing(at, s.slots[at])), Alloced(s)];
    assert forall i :: 0 < i < |p| ==> TakeStep(p[i - 1], p[i]);
  }

  /** The free of id up to the increment, undisturbed, and its wrap. */
  function HalfFreed(s: State, id: Id): State
    requires s.tail < |s.slots|
  {
    s.(slots := s.slots[s.tail := id], tail := s.tail + 1, putter := Stepped, ids := s.ids + [id], out := s.out - {id})
  }

  function Wrapped(s: State): State {
    s.(tail := if s.tail == |s.slots| then 0 else s.tail, putter := Away)
  }

  lemma HalfFreeSteps(s: State, id: Id) returns (p: seq<State>)
    requires s.putter == Away && id in s.out && s.tail < |s.slots|
    ensures Safely(p, s, HalfFreed(s, id))
  {
    hide TakeStep;
    var put := s.slots[s.tail := id];
    p := [s, s.(putter := Entered(id)), s.(slots := put, putter := Written(id)), HalfFreed(s, id)];
    assert PutStep(p[0], p[1]) && PutStep(p[1], p[2]) && PutStep(p[2], p[3]);
    forall i | 0 < i < |p| ensures Step(p[i - 1], p[i]) && !Empties(p[i - 1], p[i]) {
      OneSide(p[i - 1], p[i]);
    }
  }

  lemma HalfFreePath(s: State, all: set<Id>, id: Id) returns (p: seq<State>)
    requires Inv(s, all) && s.putter == Away && id in s.out && s.taker == Idle
    ensures s.tail < |s.slots| && Safely(p, s, HalfFreed(s, id)) && Inv(HalfFreed(s, id), all)
  {
    assert s.tail < |s.slots|;
    hide Inv, Step, Empties;
    p := HalfFreeSteps(s, id);
    PathSafe(p, all, |p| - 1);
  }

  lemma WrapPath(s: State) returns (p: seq<State>)
    requires s.putter == Stepped
    ensures Safely(p, s, Wrapped(s)) && |p| == 2
  {
    p := [s, Wrapped(s)];
    assert PutStep(p[0], p[1]);
  }

  lemma WrapQuiet(s: State, all: set<Id>) returns (p: seq<State>)
    requires Inv(s, all) && s.putter == Stepped && s.taker == Idle
    ensures Safely(p, s, Wrapped(s)) && Quiet(Wrapped(s), all)
  {
    p := WrapPath(s);
    PathSafe(p, all, 1);
  }

  /** Neither side inside its mutex. */
  predicate Quiet(s: State, all: set<Id>) {
    Inv(s, all) && s.taker == Idle && s.putter == Away
  }

  lemma AllocQuiet(s: State, all: set<Id>) returns (p: seq<State>)
    requires Inv(s, all) && s.taker == Idle && |s.ids| >= 2
    ensures s.head < |s.slots| && Inv(Alloced(s), all) && Safely(p, s, Alloced(s))
  {
    TestIs(s.(taker := Testing(s.head)), all);
    p := AllocPath(s);
    PathSafe(p, all, 5);
  }

  /** Allocs down to the id the ring keeps. */
  lemma {:induction false} Drained(s: State, all: set<Id>) returns (p: seq<State>, t: State)
    requires Quiet(s, all)
    ensures Safely(p, s, t) && Quiet(t, all) && |t.ids| == 1 && |t.slots| == |s.slots|
    decreases |s.ids|
  {
    p, t := [s], s;
    if |s.ids| >= 2 {
      var a := AllocQuiet(s, all);
      var rest;
      rest, t := Drained(Alloced(s), all);
      p := Joined(a, rest, s, Alloced(s), t);
    }
  }

  lemma SomeOut(s: State, all: set<Id>) returns (id: Id)
    requires Partition(s, all) && |s.ids| == 1 && |all| >= 2
    ensures id in s.out
  {
    IdRingRace.SetSize(s.ids);
    assert IdRingRace.SetOf(s.ids) + {} == IdRingRace.SetOf(s.ids);
    id :| id in s.out;
  }

  /** One free and one alloc move the ring on by a slot. */
  lemma Turned(s: State, all: set<Id>) returns (p: seq<State>, t: State)
    requires Quiet(s, all) && |s.ids| == 1 && |all| >= 2
    ensures Safely(p, s, t) && Quiet(t, all) && |t.ids| == 1 && |t.slots| == |s.slots|
    ensures s.head < |s.slots| && t.head == Next(s.head, |s.slots|)
  {
    hide Leads;
    var id := SomeOut(s, all);
    var a := HalfFreePath(s, all, id);
    var h := HalfFreed(s, id);
    var b := WrapQuiet(h, all);
    var c := AllocQuiet(Wrapped(h), all);
    t := Alloced(Wrapped(h));
    var ab := Joined(a, b, s, h, Wrapped(h));
    p := Joined(ab, c, s, Wrapped(h), t);
  }

  lemma {:induction false} TurnedTo(s: State, all: set<Id>) returns (p: seq<State>, t: State)
    requires Quiet(s, all) && |s.ids| == 1 && |all| >= 2 && |s.slots| >= 2 && s.head < |s.slots|
    ensures Safely(p, s, t) && Quiet(t, all) && |t.ids| == 1 && |t.slots| == |s.slots| && t.head == |s.slots| - 2
    decreases if s.head == |s.slots| - 1 then |s.slots| else |s.slots| - 2 - s.head
  {
    hide Quiet;
    p, t := [s], s;
    if s.head != |s.slots| - 2 {
      var a, m := Turned(s, all);
      var rest;
      rest, t := TurnedTo(m, all);
      p := Joined(a, rest, s, m, t);
    }
  }

  /** An increment waits for its wrap, and the last id is the one before it. */
  predicate AtBrink(s: State, all: set<Id>) {
    Inv(s, all) && s.taker == Idle && s.putter == Stepped && s.tail == |s.slots| && s.head == |s.slots| - 1
  }

  /** A free stops before its wrap, and one alloc goes by. */
  lemma BeforeSlip(s: State, all: set<Id>) returns (p: seq<State>, t: State)
    requires Quiet(s, all) && |s.ids| == 1 && |all| >= 2 && |s.slots| >= 2 && s.head == |s.slots| - 2
    ensures Safely(p, s, t) && AtBrink(t, all) && |t.slots| == |s.slots|
  {
    hide Leads;
    var id := SomeOut(s, all);
    var a := HalfFreePath(s, all, id);
    var h := HalfFreed(s, id);
    var c := AllocQuiet(h, all);
    t := Alloced(h);
    p := Joined(a, c, s, h, t);
  }

  /** The last step of p hands out an id that is out already. */
  predicate HandsTwice(p: seq<State>) {
    |p| >= 2 &&
    var t := p[|p| - 2];
    t.taker.Handing? && t.taker.id in t.out && TakeStep(t, p[|p| - 1])
  }

  /** One path on from there: the test slips, nothing is freed, the ring is emptied
      and its indices become equal, and the next alloc hands out an id that is out. */
  lemma AfterSlip(s: State, all: set<Id>) returns (p: seq<State>, t: State)
    requires AtBrink(s, all) && |s.slots| >= 2
    ensures Leads(p, s, t) && HandsLast(p, 2, 5) && HandsTwice(p)
  {
    hide Leads;
    var n := |s.slots|;
    assert |s.ids| == 1 && s.slots[Slot(n - 1, 0, n)] == s.ids[0];
    var a := AllocPath(s);
    var b := WrapPath(Alloced(s));
    var e := Wrapped(Alloced(s));
    assert e.head == 0 && e.tail == 0 && e.ids == [];
    assert e.out == all by { assert IdRingRace.SetOf(s.ids) == {s.ids[0]}; }
    var c := AllocPath(e);
    t := Alloced(e);
    var ab := Joined(a, b, s, Alloced(s), e);
    p := Joined(ab, c, s, e, t);
    LeadsEnds(a, s, Alloced(s));
    LeadsEnds(b, Alloced(s), e);
    LeadsEnds(c, e, t);
    assert p[..6] == a && p[|p| - 2] == c[4] && p[|p| - 1] == t;
    HandedLast(p, a, s);
  }

  lemma LeadsEnds(p: seq<State>, s: State, t: State)
    requires Leads(p, s, t)
    ensures p != [] && p[0] == s && p[|p| - 1] == t
  {
  }

  lemma HandedLast(p: seq<State>, a: seq<State>, s: State)
    requires |a| == 6 <= |p| && p[..6] == a && s.taker == Idle && s.head == |s.slots| - 1 && s.tail == |s.slots|
    requires a[0] == s && a[1] == s.(taker := Testing(s.head)) && a[2] == s.(taker := Passed(s.head))
    requires a[3] == s.(head := s.head + 1, taker := Moved(s.head))
    requires a[4] == s.(head := s.head + 1, taker := Handing(s.head, s.slots[s.head])) && a[5] == Alloced(s)
    ensures HandsLast(p, 2, 5)
  {
    assert forall i :: 0 <= i < 6 ==> p[i] == a[i];
    assert TakeStep(p[1], p[2]) && TakeStep(p[4], p[5]);
    forall i | 2 < i <= 4 ensures !Increments(p[i - 1], p[i]) {
      assert p[i - 1].putter == s.putter == p[i].putter;
      assert p[i - 1].taker != p[i].taker;
    }
  }

  /** A slip the pool survives: the free wraps and another one increments before the
      slipped alloc hands over. */
  lemma SlipAnswered(s: State, all: set<Id>) returns (p: seq<State>, t: State)
    requires AtBrink(s, all) && |s.slots| >= 2 && |all| >= 2
    ensures Safely(p, s, t) && |p| > 2 && Slips(p[1], p[2])
  {
    assert |s.ids| == 1;
    var id := SomeOut(s, all);
    var n := |s.slots|;
    assert s.tail == n && s.head == n - 1 && s.putter == Stepped && s.taker == Idle;
    hide Partition, RingHolds, SlipOpen, Safely, AtBrink, PutStep;
    var passed := s.(taker := Passed(s.head));
    var wrapped := Wrapped(passed);
    var freed := HalfFreed(wrapped, id);
    var a := Slipping(s);
    var b := WrapPath(passed);
    var c := HalfFreeSteps(wrapped, id);
    var d := AllocRest(freed);
    t := Alloced(freed.(taker := Idle));
    SafelyLeads(a, s, passed);
    SafelyLeads(b, passed, wrapped);
    SafelyLeads(c, wrapped, freed);
    SafelyLeads(d, freed, t);
    var ab := Joined(a, b, s, passed, wrapped);
    var abc := Joined(ab, c, s, wrapped, freed);
    p := Joined(abc, d, s, freed, t);
    assert p[1] == a[1] && p[2] == a[2];
  }

  lemma Slipping(s: State) returns (p: seq<State>)
    requires s.taker == Idle && |s.slots| >= 2 && s.tail == |s.slots| && s.head == |s.slots| - 1
    ensures Safely(p, s, s.(taker := Passed(s.head))) && |p| == 3 && Slips(p[1], p[2])
  {
    hide PutStep;
    p := [s, s.(taker := Testing(s.head)), s.(taker := Passed(s.head))];
    assert TakeStep(p[0], p[1]) && TakeStep(p[1], p[2]);
    assert forall i :: 0 < i < |p| ==> Step(p[i - 1], p[i]) && !Empties(p[i - 1], p[i]);
  }

  /** The rest of an alloc past its test, with an id left behind. */
  lemma AllocRest(s: State) returns (p: seq<State>)
    requires s.head < |s.slots| && s.taker == Passed(s.head) && |s.ids| >= 2
    ensures Safely(p, s, Alloced(s.(taker := Idle)))
  {
    hide PutStep;
    var at := s.head;
    var moved := s.(head := at + 1, taker := Moved(at));
    p := [s, moved, moved.(taker := Handing(at, s.slots[at])), Alloced(s.(taker := Idle))];
    assert TakeStep(p[0], p[1]) && TakeStep(p[1], p[2]) && TakeStep(p[2], p[3]);
    assert forall i :: 0 < i < |p| ==> Step(p[i - 1], p[i]) && !Empties(p[i - 1], p[i]);
  }

  /** From a pool with every id free, a run up to there. */
  lemma Brought(init: State) returns (p: seq<State>, t: State)
    requires Init(init) && |init.slots| >= 2
    ensures var all := IdRingRace.SetOf(init.ids);
            Safely(p, init, t) && AtBrink(t, all) && |t.slots| >= 2 && |all| >= 2
  {
    hide Inv, Leads, Safely, Init;
    var all := IdRingRace.SetOf(init.ids);
    InitInv(init);
    InitQuiet(init, all);
    var a, s := Drained(init, all);
    HeadInside(s, all);
    var b, m := TurnedTo(s, all);
    var c;
    c, t := BeforeSlip(m, all);
    SafelyLeads(a, init, s);
    SafelyLeads(b, s, m);
    SafelyLeads(c, m, t);
    var ab := Joined(a, b, init, s, m);
    p := Joined(ab, c, init, m, t);
  }

  lemma SafelyLeads(p: seq<State>, s: State, t: State)
    requires Safely(p, s, t)
    ensures Leads(p, s, t)
  {
  }

  lemma InitQuiet(s: State, all: set<Id>)
    requires Init(s) && Inv(s, all) && all == IdRingRace.SetOf(s.ids)
    ensures Quiet(s, all) && |all| == |s.slots|
  {
    IdRingRace.SetSize(s.ids);
  }

  /** The failing run: from a pool with every id free an alloc comes to hand out
      an id that is already out. */
  lemma HandedTwice(init: State) returns (run: seq<State>)
    requires Init(init) && |init.slots| >= 2
    ensures IsRun(run) && run[0] == init && HandsTwice(run)
  {
    hide Inv, Leads, AtBrink, HandsLast;
    var a, s := Brought(init);
    var b, t := AfterSlip(s, IdRingRace.SetOf(init.ids));
    run := Joined(a, b, init, s, t);
    LeadsFrom(run, init, t);
    LeadsEnds(a, init, s);
    LeadsEnds(b, s, t);
    EndsAlike(a, b, run);
  }

  /** A slip alone is not the failure: some run slips and its pool is a permutation
      of its ids in every state. */
  lemma SlipSurvived(init: State) returns (run: seq<State>, k: nat)
    requires Init(init) && |init.slots| >= 2
    ensures IsRun(run) && run[0] == init && 0 < k < |run| && Slips(run[k - 1], run[k])
    ensures var all := IdRingRace.SetOf(init.ids);
            forall i :: 0 <= i < |run| ==> RingHolds(run[i]) && Partition(run[i], all)
  {
    hide Inv, Leads, AtBrink, Init;
    var all := IdRingRace.SetOf(init.ids);
    var a, s := Brought(init);
    var b, t := SlipAnswered(s, all);
    run := Joined(a, b, init, s, t);
    k := |a| + 1;
    LeadsFrom(run, init, t);
    LeadsEnds(a, init, s);
    LeadsEnds(b, s, t);
    assert run[k] == b[2] && run[k - 1] == b[1];
    InitInv(init);
    forall i | 0 <= i < |run| ensures RingHolds(run[i]) && Partition(run[i], all) {
      PathSafe(run, all, i);
      InvParts(run[i], all);
    }
  }

  lemma InvParts(s: State, all: set<Id>)
    requires Inv(s, all)
    ensures RingHolds(s) && Partition(s, all)
  {
  }

  lemma HeadInside(s: State, all: set<Id>)
    requires Quiet(s, all)
    ensures s.head < |s.slots|
  {
  }

  lemma LeadsFrom(p: seq<State>, s: State, t: State)
    requires Leads(p, s, t)
    ensures IsPath(p) && p[0] == s
  {
  }

  lemma EndsAlike(p: seq<State>, q: seq<State>, r: seq<State>)
    requires p != [] && HandsTwice(q) && r == p + q[1..] && p[|p| - 1] == q[0]
    ensures HandsTwice(r)
  {
    hide TakeStep;
    assert r[|r| - 1] == q[|q| - 1] && r[|r| - 2] == q[|q| - 2];
  }
}
