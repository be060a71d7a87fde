/** The reorder nodes of npu_wifi_ba.c: 36-byte records in two blocks, each with
    a ring of its free indices, one call at a time (NodePoolRace interleaves
    them). Address 0 is the null pointer. */
module NodePool {
  import opened BaWindow
  import opened Basics
  import opened IdRing

  const PRI := 2000   // nodes in SRAM
  const SEC := 5000   // nodes in the DRAM block

  /** A node: the next pointer, the MSDU chain, the frame, and where the node
      itself belongs. pool 0 is the secondary block. */
  datatype Node = Node(next: nat, head: nat, tail: nat, cnt: nat, f: Frame, idx: nat, pool: nat, tick: int)

  function Address(idx: nat, pool: nat): nat {
    if pool != 0 then 1 + idx else 1 + PRI + idx
  }

  predicate IsIndex(idx: nat, pool: nat) {
    idx < if pool != 0 then PRI else SEC
  }

  /** Addresses of the free indices of the two rings. */
  predicate InRings(a: nat, pri: seq<int>, sec: seq<int>) {
    || (1 <= a <= PRI && a - 1 in pri)
    || (PRI < a <= PRI + SEC && a - 1 - PRI in sec)
  }

  class Nodes {
    /** Node memory, by address. */
    var node: seq<Node>
    const pri: Ring
    const sec: Ring

    ghost function Repr(): set<object> {
      {this, pri, pri.slots, sec, sec.slots}
    }

    ghost predicate Valid()
      reads Repr()
    {
      && pri != sec && pri.slots != sec.slots
      && pri.Valid() && sec.Valid()
      && |node| == 1 + PRI + SEC && pri.slots.Length == PRI && sec.slots.Length == SEC
      && Distinct(pri.ids) && (forall i :: 0 <= i < |pri.ids| ==> pri.ids[i] < PRI)
      && Distinct(sec.ids) && (forall i :: 0 <= i < |sec.ids| ==> sec.ids[i] < SEC)
    }

    /** wifi_ba_node_init: every node is free. */
    constructor ()
      ensures Valid() && fresh(Repr() - {this})
      ensures forall a: nat :: a in Free() <==> 1 <= a <= PRI + SEC
    {
      node := seq(1 + PRI + SEC, _ => Node(0, 0, 0, 0, Frame(0, 0, 0, 0, 0, 0, 0), 0, 0, 0));
      pri := new Ring(PRI, PRI);
      sec := new Ring(SEC, SEC);
      new;
      forall a: nat | 1 <= a <= PRI + SEC ensures InRings(a, pri.ids, sec.ids) {
        if a <= PRI { assert pri.ids[a - 1] == a - 1; } else { assert sec.ids[a - 1 - PRI] == a - 1 - PRI; }
      }
    }

    ghost function Free(): set<nat>
      reads pri, sec
    {
      set a: nat | 1 <= a <= PRI + SEC && InRings(a, pri.ids, sec.ids)
    }

    /** Indices in the two rings, of which each keeps one. */
    ghost function Room(): nat
      reads pri, sec
    {
      |pri.ids| + |sec.ids|
    }

    /** reorder_node_alloc: the primary block first; null once each ring is down
        to the index it keeps. */
    method Alloc() returns (a: nat, idx: nat, pool: nat)
      requires Valid()
      modifies pri, sec
      ensures Valid() && node == old(node)
      ensures a == 0 <==> old(Room()) <= 2
      ensures a == 0 ==> Free() == old(Free())
      ensures a != 0 ==> a in old(Free()) && Free() == old(Free()) - {a}
                         && IsIndex(idx, pool) && a == Address(idx, pool)
    {
      var i := pri.Take();
      if i != NONE {
        HeadLeaves(old(pri.ids));
        FreeLess(old(pri.ids), pri.ids, old(sec.ids), sec.ids, 1 + i);
        return 1 + i, i, 1;
      }
      i := sec.Take();
      if i != NONE {
        HeadLeaves(old(sec.ids));
        FreeLess(old(pri.ids), pri.ids, old(sec.ids), sec.ids, 1 + PRI + i);
        return 1 + PRI + i, i, 0;
      }
      return 0, 0, 0;
    }

    /** reorder_node_free. */
    method Release(idx: nat, pool: nat)
      requires Valid() && IsIndex(idx, pool) && Address(idx, pool) !in Free()
      modifies pri, sec, pri.slots, sec.slots
      ensures Valid() && node == old(node)
      ensures Free() == old(Free()) + {Address(idx, pool)} && Room() > old(Room())
    {
      if pool != 0 {
        assert idx !in pri.ids;
        JoinDistinct(pri.ids, idx, PRI);
        pri.Put(idx);
      } else {
        assert Address(idx, pool) - 1 - PRI == idx;
        assert idx !in sec.ids;
        JoinDistinct(sec.ids, idx, SEC);
        sec.Put(idx);
      }
    }
  }

  lemma HeadLeaves(s: seq<int>)
    requires |s| > 1 && Distinct(s)
    ensures Distinct(s[1..]) && s[0] !in s[1..] && forall x :: x in s <==> x == s[0] || x in s[1..]
  {
    assert s == [s[0]] + s[1..];
  }

  lemma FreeLess(p: seq<int>, p': seq<int>, s: seq<int>, s': seq<int>, a: nat)
    requires forall x :: 0 <= x < PRI ==> (x in p' <==> x in p && 1 + x != a)
    requires forall x :: 0 <= x < SEC ==> (x in s' <==> x in s && 1 + PRI + x != a)
    ensures forall b: nat :: InRings(b, p', s') <==> InRings(b, p, s) && b != a
  {
  }

  lemma JoinDistinct(s: seq<int>, x: int, n: nat)
    requires Distinct(s) && x !in s && 0 <= x < n
    requires forall i :: 0 <= i < |s| ==> 0 <= s[i] < n
    ensures Distinct(s + [x]) && |s| < n
  {
    DistinctFit(s + [x], n);
  }
}
