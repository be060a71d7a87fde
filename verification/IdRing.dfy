/** The id rings of npu_wifi_bufid.c, which the reorder node pools of
    npu_wifi_ba.c share: a ring of n slots whose equal indices mean full. A take
    always leaves one id behind, so the ring is never empty. */
module IdRing {
  import opened Basics

  /** An id as the 16-bit slots hold it; takes read it back signed. */
  type Id = x: int | 0 <= x < 0x8000

  const NONE := -1

  function Next(i: nat, n: nat): (j: nat)
    requires i < n
    ensures j < n
  {
    if i == n - 1 then 0 else i + 1
  }

  /** The slot k places after i. */
  function Slot(i: nat, k: nat, n: nat): (j: nat)
    requires i < n && k <= n
    ensures j < n
  {
    if i + k < n then i + k else i + k - n
  }

  // ---------------------------------------------------------------- on values

  /** Ids a take of max hands out. */
  function Taken<T>(ids: seq<T>, max: nat): nat {
    if |ids| == 0 then 0 else if max < |ids| - 1 then max else |ids| - 1
  }

  /** max single takes in a row, each one a failure when a single id is left. */
  function TakeEach<T>(ids: seq<T>, max: nat): (r: (seq<T>, seq<T>))
    decreases max
  {
    if max == 0 || |ids| <= 1 then ([], ids)
    else
      var rest := TakeEach(ids[1..], max - 1);
      ([ids[0]] + rest.0, rest.1)
  }

  /** A batch take is that many single takes: same ids, same order, same ring. */
  lemma {:induction false} BatchIsSingles<T>(ids: seq<T>, max: nat)
    ensures TakeEach(ids, max) == (ids[..Taken(ids, max)], ids[Taken(ids, max)..])
  {
    if max > 0 && |ids| > 1 {
      BatchIsSingles(ids[1..], max - 1);
      var k := Taken(ids, max);
      assert ids[1..][..k - 1] == ids[1..k];
      assert [ids[0]] + ids[1..k] == ids[..k];
      assert ids[1..][k - 1..] == ids[k..];
    }
  }

  // ---------------------------------------------------------------- the ring

  class Ring {
    const slots: array<Id>
    var ridx: nat
    var widx: nat
    /** The ids between ridx and widx, next to be taken first. */
    ghost var ids: seq<Id>

    ghost predicate Valid()
      reads this, slots
    {
      var n := slots.Length;
      && ridx < n && widx < n && 1 <= |ids| <= n
      && widx == Slot(ridx, |ids|, n)
      && forall k :: 0 <= k < |ids| ==> slots[Slot(ridx, k, n)] == ids[k]
    }

    /** bufid_pool_init and wifi_ba_node_init: ids 0 to count - 1, all free. */
    constructor (n: nat, count: nat)
      requires 1 <= count <= n <= 0x8000
      ensures Valid() && fresh(slots) && slots.Length == n
      ensures ids == seq(count, i requires 0 <= i < count => i)
    {
      slots := new Id[n];
      ridx := 0;
      widx := if count == n then 0 else count;
      ids := seq(count, i requires 0 <= i < count => i);
      new;
      for i := 0 to count
        invariant forall k :: 0 <= k < i ==> slots[k] == k
        invariant ridx == 0 && widx == (if count == n then 0 else count)
        invariant ids == seq(count, i requires 0 <= i < count => i) && slots.Length == n
        invariant fresh(slots)
      {
        slots[i] := i;
      }
    }

    /** buf_id_alloc_ring, tx_token_alloc. */
    method Take() returns (id: int)
      requires Valid()
      modifies this
      ensures Valid()
      ensures id == if |old(ids)| > 1 then old(ids)[0] else NONE
      ensures ids == if |old(ids)| > 1 then old(ids)[1..] else old(ids)
    {
      var next := Next(ridx, slots.Length);
      if widx == next {
        return NONE;
      }
      id := slots[ridx];
      assert slots[Slot(ridx, 0, slots.Length)] == ids[0];
      ShiftSlots(ridx, slots.Length, |ids|);
      ridx := next;
      ids := ids[1..];
    }

    /** buf_id_return, tx_token_free: room for the id is the caller's. */
    method Put(id: Id)
      requires Valid() && |ids| < slots.Length
      modifies this, slots
      ensures Valid()
      ensures ids == old(ids) + [id]
    {
      slots[widx] := id;
      widx := Next(widx, slots.Length);
      ids := ids + [id];
    }

    /** id_ring_take. */
    method TakeBatch(max: nat) returns (got: seq<Id>)
      requires Valid()
      modifies this
      ensures Valid()
      ensures got == old(ids)[..Taken(old(ids), max)]
      ensures ids == old(ids)[Taken(old(ids), max)..]
    {
      hide Slot, Next;
      var n := slots.Length;
      var r := ridx;
      got := [];
      NextReaches(ridx, n, |ids|, 0);
      while |got| < max && Next(r, n) != widx
        modifies {}
        invariant |got| <= max && |got| <= |ids| - 1 < n && ridx < n
        invariant r == Slot(ridx, |got|, n) && r < n
        invariant Next(r, n) == widx <==> |got| == |ids| - 1
        invariant got == ids[..|got|]
      {
        NextReaches(ridx, n, |ids|, |got|);
        assert slots[r] == ids[|got|];
        got := got + [slots[r]];
        r := Next(r, n);
        NextReaches(ridx, n, |ids|, |got|);
      }
      ShiftSlotsBy(ridx, n, |ids|, |got|);
      ridx := r;
      ids := ids[|got|..];
    }

    /** id_ring_put: every id is stored before the index moves. */
    method PutBatch(b: seq<Id>)
      requires Valid() && |ids| + |b| <= slots.Length
      modifies this, slots
      ensures Valid()
      ensures ids == old(ids) + b
    {
      var n := slots.Length;
      var w := widx;
      var i := 0;
      while i < |b|
        invariant 0 <= i <= |b|
        invariant ridx == old(ridx) && widx == old(widx) && ids == old(ids) && ridx < n
        invariant w < n && w == Slot(ridx, |ids| + i, n)
        invariant forall k :: 0 <= k < |ids| + i ==> slots[Slot(ridx, k, n)] == (ids + b)[k]
      {
        slots[w] := b[i];
        w := Next(w, n);
        i := i + 1;
      }
      widx := w;
      ids := ids + b;
    }
  }

  lemma ShiftSlots(r: nat, n: nat, c: nat)
    requires r < n && 1 <= c <= n
    ensures forall k :: 0 <= k < c ==> Slot(Next(r, n), k, n) == Slot(r, k + 1, n)
  {
  }

  lemma NextReaches(r: nat, n: nat, c: nat, k: nat)
    requires r < n && k < c <= n
    ensures Slot(r, 0, n) == r && Next(Slot(r, k, n), n) == Slot(r, k + 1, n)
    ensures Slot(r, k + 1, n) == Slot(r, c, n) <==> k == c - 1
  {
  }

  lemma ShiftSlotsBy(r: nat, n: nat, c: nat, d: nat)
    requires r < n && d < c <= n
    ensures forall k :: 0 <= k <= c - d ==> Slot(Slot(r, d, n), k, n) == Slot(r, k + d, n)
  {
  }

  // ---------------------------------------------------------------- room

  /** Distinct ids below n fill at most n slots: an id that is out has room. */
  lemma {:induction false} DistinctFit(s: seq<int>, n: nat)
    requires Distinct(s) && forall i :: 0 <= i < |s| ==> 0 <= s[i] < n
    ensures |s| <= n
    decreases n
  {
    if s != [] {
      assert 0 <= s[0] < n;
      if n - 1 in s {
        var i :| 0 <= i < |s| && s[i] == n - 1;
        var t := s[..i] + s[i + 1..];
        assert forall k :: 0 <= k < |t| ==> t[k] == if k < i then s[k] else s[k + 1];
        DistinctFit(t, n - 1);
      } else {
        DistinctFit(s, n - 1);
      }
    }
  }
}
