/** np_skb_tx_force_reset: the tx token ring built again from what the TDMA rx
    descriptors hold, and the stack of jumbo pairs at its side. */
module TokenRebuild {
  import opened Basics
  import opened IdRing
  import opened IdRingRace

  /** Slots of the ring, descriptors of the two rx rings, jumbo pairs. */
  const ENTRIES := 13312
  const RX_IDS := 2048
  const PAIRS := 128

  /** Ids the ring may hold: with jumbo frames the top 256 pair up elsewhere. */
  function TokenIds(jumbo: bool): (n: nat)
    ensures RX_IDS < n <= ENTRIES && (jumbo ==> n < ENTRIES) && (!jumbo ==> n == ENTRIES)
  {
    if jumbo then ENTRIES - 2 * PAIRS else ENTRIES
  }

  /** Ids below id that no rx descriptor holds, in order. */
  function FreeBelow(rx: set<Id>, id: nat): (ids: seq<Id>)
    requires id <= ENTRIES
    ensures |ids| <= id
    ensures forall x: Id :: x in ids <==> x < id && x !in rx
  {
    if id == 0 then []
    else if id - 1 in rx then FreeBelow(rx, id - 1)
    else FreeBelow(rx, id - 1) + [id - 1]
  }

  function HeldBelow(rx: set<Id>, id: nat): set<Id> {
    set x | x in rx && x < id
  }

  lemma {:induction false} FreeCount(rx: set<Id>, id: nat)
    requires id <= ENTRIES
    ensures Distinct(FreeBelow(rx, id)) && |FreeBelow(rx, id)| == id - |HeldBelow(rx, id)|
  {
    if id == 0 {
      assert HeldBelow(rx, 0) == {};
    } else {
      FreeCount(rx, id - 1);
      var x: Id := id - 1;
      if x in rx {
        assert HeldBelow(rx, id) == HeldBelow(rx, id - 1) + {x};
      } else {
        assert HeldBelow(rx, id) == HeldBelow(rx, id - 1);
      }
    }
  }

  /** The rx descriptors' ids: distinct, and of the ring's. */
  predicate Collected(rx: seq<Id>, jumbo: bool) {
    |rx| <= RX_IDS && Distinct(rx) && forall i :: 0 <= i < |rx| ==> rx[i] < TokenIds(jumbo)
  }

  lemma FreeNone(rx: set<Id>)
    ensures FreeBelow(rx, 0) == []
  {
  }

  lemma FreeStep(rx: set<Id>, id: Id)
    requires id < ENTRIES
    ensures FreeBelow(rx, id + 1) == if id in rx then FreeBelow(rx, id) else FreeBelow(rx, id) + [id]
  {
  }

  lemma {:induction false} FreePrefix(rx: set<Id>, id: nat, n: nat)
    requires id <= n <= ENTRIES
    ensures FreeBelow(rx, id) <= FreeBelow(rx, n)
  {
    if id < n { FreePrefix(rx, id, n - 1); }
  }

  lemma {:induction false} FreeAll(n: nat)
    requires n <= ENTRIES
    ensures |FreeBelow({}, n)| == n && forall k :: 0 <= k < n ==> FreeBelow({}, n)[k] == k
  {
    if n > 0 { FreeAll(n - 1); }
  }

  /** The ring of bufid_pool_init. */
  lemma StartsFull(jumbo: bool, ring: seq<Id>, widx: nat)
    requires ring == seq(ENTRIES, i requires 0 <= i < ENTRIES => i)
    requires widx == if jumbo then TokenIds(jumbo) else 0
    ensures SetOf([]) == {} && Init(State(ring, 0, widx, Out, Away, FreeBelow({}, TokenIds(jumbo)), {}))
  {
    hide FreeBelow, Distinct;
    var n := TokenIds(jumbo);
    FreeAll(n);
    FreeCount({}, n);
    assert SetOf([]) == {};
  }

  /** All the ids rx does not hold. */
  lemma FreeTotal(rx: seq<Id>, jumbo: bool, n: nat)
    requires Collected(rx, jumbo) && TokenIds(jumbo) <= n <= ENTRIES
    ensures var ids := FreeBelow(SetOf(rx), n); Distinct(ids) && |ids| == n - |rx|
  {
    SetSize(rx);
    FreeCount(SetOf(rx), n);
    assert HeldBelow(SetOf(rx), n) == SetOf(rx);
  }

  lemma CollectedSize(rx: seq<Id>, jumbo: bool)
    requires Collected(rx, jumbo)
    ensures |rx| <= RX_IDS < TokenIds(jumbo) <= ENTRIES && forall i :: 0 <= i < |rx| ==> rx[i] < ENTRIES
    ensures forall x :: x in SetOf(rx) ==> x < TokenIds(jumbo)
  {
  }

  /** A slot still to fill has an id to take: the scan stops at a free one. */
  lemma SomeFree(rx: seq<Id>, jumbo: bool, id: nat, w: nat)
    requires Collected(rx, jumbo) && id <= ENTRIES && w == |rx| + |FreeBelow(SetOf(rx), id)| < ENTRIES
    requires jumbo ==> id < TokenIds(jumbo)
    requires id < ENTRIES - 1 ==> id !in SetOf(rx)
    ensures id < ENTRIES && id !in SetOf(rx)
  {
    hide Collected, Distinct, FreeBelow;
    if !jumbo && id >= ENTRIES - 1 {
      FreeTotal(rx, jumbo, ENTRIES);
      if id == ENTRIES - 1 { FreeStep(SetOf(rx), id); }
    }
  }

  /** The ring the loop leaves is the protocol's, with the free ids in it. */
  lemma Built(rx: seq<Id>, jumbo: bool, ring: seq<Id>, id: nat, w: nat, widx: nat)
    requires Collected(rx, jumbo) && |ring| == ENTRIES && id <= ENTRIES && w <= ENTRIES
    requires |rx| <= w && ring[..w] == rx + FreeBelow(SetOf(rx), id) && (jumbo ==> id <= TokenIds(jumbo))
    requires w == ENTRIES || (jumbo && id >= TokenIds(jumbo))
    requires widx == if jumbo then (if w == ENTRIES then 0 else w) else 0
    ensures Init(State(ring, |rx|, widx, Out, Away, FreeBelow(SetOf(rx), TokenIds(jumbo)), {}))
  {
    hide Distinct, FreeBelow;
    var n, ids := TokenIds(jumbo), FreeBelow(SetOf(rx), TokenIds(jumbo));
    FreeTotal(rx, jumbo, n);
    FreePrefix(SetOf(rx), id, n);
    assert w == |rx| + |FreeBelow(SetOf(rx), id)|;
    assert FreeBelow(SetOf(rx), id) == ids;
    forall k | 0 <= k < |ids| ensures ring[Slot(|rx|, k, ENTRIES)] == ids[k] {
      assert ring[|rx| + k] == ring[..w][|rx| + k];
    }
  }

  class Tokens {
    const jumbo: bool
    var ring: seq<Id>
    var ridx: nat
    var widx: nat
    var stack: seq<Id>
    var top: nat

    predicate Valid()
      reads this
    {
      |ring| == ENTRIES && |stack| == PAIRS && top <= PAIRS
    }

    /** bufid_pool_init: every id in order, every pair free. */
    constructor (j: bool)
      ensures Valid() && jumbo == j && JumboFree() == AllPairs()
      ensures Init(Quiet([]))
      ensures Quiet([]).ids == FreeBelow({}, TokenIds(j))
    {
      hide FreeBelow, TokenIds, Init, AllPairs;
      jumbo := j;
      ring := seq(ENTRIES, i requires 0 <= i < ENTRIES => i);
      ridx := 0;
      widx := if j then TokenIds(j) else 0;
      stack := seq(PAIRS, i => 0);
      top := 0;
      new;
      JumboReset();
      assert ring == seq(ENTRIES, i requires 0 <= i < ENTRIES => i);
      StartsFull(j, ring, widx);
    }

    /** The ring as the id protocol's state, nobody inside, rx holding its ids. */
    ghost function Quiet(rx: seq<Id>): State
      reads this
    {
      State(ring, ridx, widx, Out, Away, FreeBelow(SetOf(rx), TokenIds(jumbo)), {})
    }

    /** Pairs on the stack, the next to go last. */
    function JumboFree(): seq<Id>
      requires Valid()
      reads this
    {
      stack[..top]
    }

    /** tx_jumbo_reset. */
    method JumboReset()
      requires Valid()
      modifies this`stack, this`top
      ensures Valid() && JumboFree() == AllPairs()
    {
      for i := 0 to PAIRS
        invariant |stack| == PAIRS && forall k :: 0 <= k < i ==> stack[k] == ENTRIES - 2 * PAIRS + 2 * k
      {
        stack := stack[i := ENTRIES - 2 * PAIRS + 2 * i];
      }
      top := PAIRS;
      assert stack[..top] == AllPairs();
    }

    /** tx_jumbo_alloc: the pair freed last, or none. */
    method JumboAlloc() returns (id: int)
      requires Valid()
      modifies this`top
      ensures Valid()
      ensures old(top) == 0 ==> id == NONE && JumboFree() == old(JumboFree())
      ensures old(top) > 0 ==> old(JumboFree()) == JumboFree() + [id]
    {
      if top == 0 {
        return NONE;
      }
      top := top - 1;
      id := stack[top];
    }

    /** tx_jumbo_free: a pair past a full stack is lost. */
    method JumboFreed(token: Id)
      requires Valid()
      modifies this`stack, this`top
      ensures Valid()
      ensures JumboFree() == old(JumboFree()) + if old(top) < PAIRS then [token] else []
    {
      if top < PAIRS {
        stack := stack[top := token];
        top := top + 1;
      }
    }

    /** The ids rx holds, marked. */
    method Mark(rx: seq<Id>) returns (state: seq<bool>)
      requires forall i :: 0 <= i < |rx| ==> rx[i] < ENTRIES
      ensures |state| == ENTRIES && forall x: Id :: x < ENTRIES ==> (state[x] <==> x in SetOf(rx))
    {
      state := seq(ENTRIES, i => false);
      for i := 0 to |rx|
        modifies {}
        invariant |state| == ENTRIES
        invariant forall x: Id :: x < ENTRIES ==> (state[x] <==> x in rx[..i])
      {
        state := state[rx[i] := true];
      }
      assert rx[..|rx|] == rx;
    }

    /** The next id rx does not hold, or the last one. */
    method Scan(state: seq<bool>, from: nat, ghost held: set<Id>) returns (id: nat)
      requires |state| == ENTRIES && from <= ENTRIES
      requires forall x: Id :: x < ENTRIES ==> (state[x] <==> x in held)
      ensures from <= id <= ENTRIES && FreeBelow(held, id) == FreeBelow(held, from)
      ensures id < ENTRIES - 1 ==> id !in held
      ensures id > from ==> (id - 1) in held
    {
      hide FreeBelow;
      id := from;
      while id < ENTRIES - 1 && state[id]
        invariant from <= id <= ENTRIES && FreeBelow(held, id) == FreeBelow(held, from)
        invariant id > from ==> (id - 1) in held
      {
        FreeStep(held, id);
        id := id + 1;
      }
    }

    /** np_skb_tx_force_reset, rx being what tdma_rx_collect_bufids gathers. */
    method Rebuild(rx: seq<Id>)
      requires Valid() && Collected(rx, jumbo)
      modifies this`ring, this`ridx, this`widx, this`stack, this`top
      ensures Valid() && JumboFree() == (if jumbo then AllPairs() else old(JumboFree()))
      ensures ring[..|rx|] == rx && Init(Quiet(rx))
    {
      hide Distinct, FreeBelow, TokenIds, SetOf, Init, AllPairs, Collected;
      ghost var held := SetOf(rx);
      CollectedSize(rx, jumbo);
      var state := Mark(rx);
      var id, w := 0, 0;
      FreeNone(held);
      while w < ENTRIES
        modifies this`ring
        invariant id <= ENTRIES && w <= ENTRIES && |ring| == ENTRIES
        invariant w <= |rx| ==> id == 0 && ring[..w] == rx[..w]
        invariant w >= |rx| ==> ring[..w] == rx + FreeBelow(held, id) && (jumbo ==> id <= TokenIds(jumbo))
      {
        if w < |rx| {
          ring := ring[w := rx[w]];
          w := w + 1;
        } else {
          ghost var from := id;
          id := Scan(state, id, held);
          if id > from {
            assert (id - 1) in SetOf(rx);
          }
          assert jumbo ==> id <= TokenIds(jumbo);
          if jumbo && id >= TokenIds(jumbo) {
            break;
          }
          SomeFree(rx, jumbo, id, w);
          FreeStep(held, id);
          ring := ring[w := id];
          id := id + 1;
          w := w + 1;
        }
      }
      ridx := |rx|;
      widx := if jumbo then (if w == ENTRIES then 0 else w) else 0;
      Built(rx, jumbo, ring, id, w, widx);
      assert ring[..|rx|] == ring[..w][..|rx|];
      if jumbo {
        JumboReset();
      }
    }
  }

  function AllPairs(): (r: seq<Id>)
    ensures |r| == PAIRS
  {
    seq(PAIRS, i requires 0 <= i < PAIRS => ENTRIES - 2 * PAIRS + 2 * i)
  }

  /** After the rebuild the ring holds a permutation of the ids rx does not
      hold: each once, and nothing else. */
  lemma RebuiltIds(rx: seq<Id>, jumbo: bool, s: State)
    requires Collected(rx, jumbo) && Init(s) && s.ids == FreeBelow(SetOf(rx), TokenIds(jumbo))
    ensures forall x: Id :: x in s.ids <==> x < TokenIds(jumbo) && x !in rx
    ensures Distinct(s.ids) && |s.ids| == TokenIds(jumbo) - |rx|
    ensures SetOf(s.ids) !! SetOf(rx)
  {
    FreeTotal(rx, jumbo, TokenIds(jumbo));
  }
}
