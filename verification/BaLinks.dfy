/** The linked shape of one block-ack entry, on a snapshot of the node memory:
    the hold list through next, and behind each MPDU its chain of MSDUs. */
module BaLinks {
  import opened BaWindow
  import opened Basics
  import opened NodePool

  type Memory = seq<Node>

  /** The entry's nodes: MPDUs in list order, the MSDUs behind each, and for
      every node of the entry the MPDU it hangs on and its place there. */
  datatype Shape = Shape(nodes: seq<nat>, subs: map<nat, seq<nat>>, home: map<nat, (nat, nat)>)

  function Then(s: seq<nat>, i: nat): nat {
    if i + 1 < |s| then s[i + 1] else 0
  }

  function First(s: seq<nat>): nat {
    if s == [] then 0 else s[0]
  }

  function End(s: seq<nat>): nat {
    if s == [] then 0 else s[|s| - 1]
  }

  predicate Linked(mem: Memory, s: seq<nat>) {
    forall i {:trigger Then(s, i)} :: 0 <= i < |s| ==> 0 < s[i] < |mem| && mem[s[i]].next == Then(s, i)
  }

  lemma LinkAt(mem: Memory, s: seq<nat>, i: nat)
    requires Linked(mem, s) && i < |s|
    ensures 0 < s[i] < |mem| && mem[s[i]].next == Then(s, i)
  {
    var next := Then(s, i);
  }

  /** The MSDU chain of MPDU m. */
  predicate Chained(mem: Memory, m: nat, sub: seq<nat>) {
    && 0 < m < |mem| && Linked(mem, sub)
    && mem[m].head == First(sub) && mem[m].tail == End(sub) && mem[m].cnt == |sub|
  }

  /** Every node has one home, so no two places of the entry share a node. */
  predicate Housed(s: Shape) {
    && (forall i :: 0 <= i < |s.nodes| ==>
          s.nodes[i] in s.subs && s.nodes[i] in s.home && s.home[s.nodes[i]] == (s.nodes[i], 0))
    && (forall m, j :: m in s.subs && 0 <= j < |s.subs[m]| ==>
          s.subs[m][j] in s.home && s.home[s.subs[m][j]] == (m, j + 1))
    && (forall m :: m in s.subs ==> m in s.nodes)
    && (forall a :: a in s.home ==> Placed(s, a, s.home[a]))
  }

  predicate Placed(s: Shape, a: nat, h: (nat, nat)) {
    && h.0 in s.subs
    && if h.1 == 0 then a == h.0 else h.1 <= |s.subs[h.0]| && s.subs[h.0][h.1 - 1] == a
  }

  /** A node knows the pool it came from, and holds a parsed frame. */
  predicate Owned(mem: Memory, a: nat) {
    && 0 < a < |mem| && IsIndex(mem[a].idx, mem[a].pool) && Address(mem[a].idx, mem[a].pool) == a
    && 0 <= mem[a].f.sn < 4096
  }

  predicate Shaped(mem: Memory, s: Shape) {
    && Distinct(s.nodes) && Linked(mem, s.nodes) && Housed(s)
    && (forall m :: m in s.subs ==> Chained(mem, m, s.subs[m]))
    && (forall a :: a in s.home ==> Owned(mem, a))
  }

  // ---------------------------------------------------------------- meaning

  function FrameAt(mem: Memory, a: nat): Frame {
    if a < |mem| then mem[a].f else Frame(0, 0, 0, 0, 0, 0, 0)
  }

  function FramesAt(mem: Memory, s: seq<nat>): (fs: seq<Frame>)
    ensures |fs| == |s|
  {
    seq(|s|, i requires 0 <= i < |s| => FrameAt(mem, s[i]))
  }

  function RowAt(mem: Memory, s: Shape, m: nat): Held {
    Held(FrameAt(mem, m), if m in s.subs then FramesAt(mem, s.subs[m]) else [], if m < |mem| then mem[m].tick else 0)
  }

  function HeldAt(mem: Memory, s: Shape): (hs: seq<Held>)
    ensures |hs| == |s.nodes|
  {
    seq(|s.nodes|, i requires 0 <= i < |s.nodes| => RowAt(mem, s, s.nodes[i]))
  }

  function IndexOf(s: seq<nat>, a: nat): (i: nat)
    ensures i <= |s|
    ensures i < |s| ==> s[i] == a
    ensures forall j :: 0 <= j < i ==> s[j] != a
  {
    if s == [] || s[0] == a then 0 else 1 + IndexOf(s[1..], a)
  }

  function PtrAt(s: Shape, chain: nat): Ptr {
    if chain == 0 then Null
    else if IndexOf(s.nodes, chain) < |s.nodes| then At(IndexOf(s.nodes, chain))
    else Stale
  }

  // ---------------------------------------------------------------- changes

  /** The shape without its first MPDU and that MPDU's MSDUs. */
  function WithoutHead(s: Shape): Shape
    requires s.nodes != [] && s.nodes[0] in s.subs
  {
    var m := s.nodes[0];
    Shape(s.nodes[1..], s.subs - {m}, map a | a in s.home && s.home[a].0 != m :: s.home[a])
  }

  function Row(s: Shape, m: nat): set<nat> {
    set a | a in s.home && s.home[a].0 == m
  }

  /** Only the given nodes changed. */
  predicate KeptOutside(mem: Memory, mem': Memory, own: set<nat>) {
    |mem'| == |mem| && forall a :: 0 <= a < |mem| && a !in own ==> mem'[a] == mem[a]
  }

  lemma HomeHas(s: Shape)
    requires Housed(s)
    ensures forall i :: 0 <= i < |s.nodes| ==> s.nodes[i] in s.home && s.nodes[i] in s.subs
    ensures forall m, j :: m in s.subs && 0 <= j < |s.subs[m]| ==> s.subs[m][j] in s.home
    ensures forall m :: m in s.subs ==> m in s.nodes && m in s.home
  {
    hide Placed;
  }

  lemma SameChain(mem: Memory, mem': Memory, m: nat, sub: seq<nat>)
    requires Chained(mem, m, sub) && |mem'| == |mem| && mem'[m] == mem[m]
    requires forall j :: 0 <= j < |sub| && sub[j] < |mem| ==> mem'[sub[j]] == mem[sub[j]]
    ensures Chained(mem', m, sub) && FramesAt(mem', sub) == FramesAt(mem, sub)
  {
  }

  /** Memory that agrees on the shape's nodes carries the same shape and frames. */
  lemma SameShape(mem: Memory, mem': Memory, s: Shape, own: set<nat>)
    requires Shaped(mem, s) && KeptOutside(mem, mem', own) && own !! s.home.Keys
    ensures Shaped(mem', s) && HeldAt(mem', s) == HeldAt(mem, s)
  {
    hide Housed, Chained, Distinct, IsIndex, Address, FramesAt;
    HomeHas(s);
    assert forall a :: a in s.home ==> mem'[a] == mem[a];
    forall m | m in s.subs
      ensures Chained(mem', m, s.subs[m]) && FramesAt(mem', s.subs[m]) == FramesAt(mem, s.subs[m])
    {
      SameChain(mem, mem', m, s.subs[m]);
    }
    forall i | 0 <= i < |s.nodes| ensures HeldAt(mem', s)[i] == HeldAt(mem, s)[i] {
      assert s.nodes[i] in s.home && mem'[s.nodes[i]] == mem[s.nodes[i]];
    }
  }

  lemma HousedTail(s: Shape)
    requires Housed(s) && Distinct(s.nodes) && s.nodes != []
    ensures Housed(WithoutHead(s))
  {
    var t, m := WithoutHead(s), s.nodes[0];
    forall i | 0 <= i < |t.nodes|
      ensures t.nodes[i] in t.subs && t.nodes[i] in t.home && t.home[t.nodes[i]] == (t.nodes[i], 0)
    {
      assert t.nodes[i] == s.nodes[i + 1] && s.nodes[i + 1] != m;
    }
    forall k | k in t.subs ensures k in t.nodes {
      var i :| 0 <= i < |s.nodes| && s.nodes[i] == k;
      assert t.nodes[i - 1] == k;
    }
    forall a | a in t.home ensures Placed(t, a, t.home[a]) {
      assert Placed(s, a, s.home[a]);
    }
  }

  lemma LinkedTail(mem: Memory, s: seq<nat>)
    requires Linked(mem, s) && Distinct(s) && s != []
    ensures Linked(mem, s[1..]) && Distinct(s[1..]) && s[0] < |mem| && mem[s[0]].next == First(s[1..])
  {
    LinkAt(mem, s, 0);
    forall i | 0 <= i < |s[1..]| ensures 0 < s[1..][i] < |mem| && mem[s[1..][i]].next == Then(s[1..], i) {
      LinkAt(mem, s, i + 1);
      assert s[1..][i] == s[i + 1];
    }
  }

  lemma ShapedTail(mem: Memory, s: Shape)
    requires Shaped(mem, s) && s.nodes != []
    ensures s.nodes[0] in s.subs && 0 < s.nodes[0] < |mem|
    ensures Shaped(mem, WithoutHead(s)) && mem[s.nodes[0]].next == First(WithoutHead(s).nodes)
    ensures |WithoutHead(s).nodes| == |s.nodes| - 1
  {
    HousedTail(s);
    LinkedTail(mem, s.nodes);
  }

  lemma HeldTail(mem: Memory, s: Shape)
    requires Shaped(mem, s) && s.nodes != []
    ensures s.nodes[0] in s.subs && HeldAt(mem, WithoutHead(s)) == HeldAt(mem, s)[1..]
    ensures HeldAt(mem, s)[0] == RowAt(mem, s, s.nodes[0])
  {
    hide Chained, Linked, Owned, Placed;
    var t := WithoutHead(s);
    forall i | 0 <= i < |t.nodes| ensures HeldAt(mem, t)[i] == HeldAt(mem, s)[1..][i] {
      var a := s.nodes[i + 1];
      assert t.nodes[i] == a && a != s.nodes[0] && a in s.subs;
      assert a in t.subs && t.subs[a] == s.subs[a];
    }
  }

  lemma HomeTail(s: Shape)
    requires s.nodes != [] && s.nodes[0] in s.subs
    ensures s.home.Keys == WithoutHead(s).home.Keys + Row(s, s.nodes[0])
    ensures WithoutHead(s).home.Keys !! Row(s, s.nodes[0])
  {
  }

  lemma PtrTail(mem: Memory, s: Shape, chain: nat)
    requires Shaped(mem, s) && s.nodes != []
    ensures s.nodes[0] in s.subs && PtrAt(WithoutHead(s), chain) == PtrAt(s, chain).Behind(1)
  {
    hide Chained, Linked, Owned, Placed;
    var i, j := IndexOf(s.nodes, chain), IndexOf(s.nodes[1..], chain);
    assert j < |s.nodes| - 1 ==> s.nodes[j + 1] == chain;
    assert 0 < i < |s.nodes| ==> s.nodes[1..][i - 1] == chain;
  }

  /** An MPDU's own node and the nodes behind it. */
  lemma RowIs(mem: Memory, s: Shape, m: nat)
    requires Shaped(mem, s) && m in s.subs
    ensures m in Row(s, m) && s.home[m].1 == 0 && Owned(mem, m) && mem[m].head == First(s.subs[m])
    ensures forall a :: a in Row(s, m) && a != m ==> 1 <= s.home[a].1 <= |s.subs[m]|
  {
    assert Chained(mem, m, s.subs[m]) && m in s.nodes;
    forall a | a in Row(s, m) && a != m ensures 1 <= s.home[a].1 <= |s.subs[m]| {
      assert Placed(s, a, s.home[a]);
    }
  }

  lemma MsduIs(mem: Memory, s: Shape, m: nat, k: nat)
    requires Shaped(mem, s) && m in s.subs && k < |s.subs[m]|
    ensures var d := s.subs[m][k];
            && d == First(s.subs[m][k..]) && Owned(mem, d) && mem[d].next == First(s.subs[m][k + 1..])
            && d in Row(s, m) && s.home[d] == (m, k + 1) && d != m
  {
    hide Placed, IsIndex, Address;
    assert Chained(mem, m, s.subs[m]) && m in s.nodes;
    LinkAt(mem, s.subs[m], k);
  }

  /** No other node has its place. */
  lemma OnlyMsdu(mem: Memory, s: Shape, m: nat, k: nat)
    requires Shaped(mem, s) && m in s.subs && k < |s.subs[m]|
    ensures forall a :: a in Row(s, m) && s.home[a].1 == k + 1 ==> a == s.subs[m][k]
  {
    forall a | a in Row(s, m) && s.home[a].1 == k + 1 ensures a == s.subs[m][k] {
      assert Placed(s, a, s.home[a]);
    }
  }

  lemma NoMsdu(mem: Memory, s: Shape, m: nat, k: nat)
    requires Shaped(mem, s) && m in s.subs && k <= |s.subs[m]|
    ensures First(s.subs[m][k..]) == 0 <==> k == |s.subs[m]|
  {
    if k < |s.subs[m]| { MsduIs(mem, s, m, k); }
  }

  lemma SnsFit(mem: Memory, s: Shape)
    requires Shaped(mem, s)
    ensures forall i :: 0 <= i < |s.nodes| ==> 0 <= HeldAt(mem, s)[i].first.sn < 4096
  {
    forall i | 0 <= i < |s.nodes| ensures 0 <= HeldAt(mem, s)[i].first.sn < 4096 {
      assert Owned(mem, s.nodes[i]);
    }
  }

  // ---------------------------------------------------------------- a node more

  /** a becomes the i-th MPDU. */
  function Inserted(s: Shape, i: nat, a: nat): Shape
    requires i <= |s.nodes|
  {
    Shape(s.nodes[..i] + [a] + s.nodes[i..], s.subs[a := []], s.home[a := (a, 0)])
  }

  function At0(s: seq<nat>, i: nat): nat {
    if i < |s| then s[i] else 0
  }

  /** A fresh node, filled, before it is linked. */
  predicate Filled(mem: Memory, s: Shape, a: nat) {
    a !in s.home && Owned(mem, a) && mem[a].head == 0 && mem[a].tail == 0 && mem[a].cnt == 0
  }

  lemma SpliceIs(s: seq<nat>, i: nat, a: nat)
    requires i <= |s|
    ensures var t := s[..i] + [a] + s[i..];
            && |t| == |s| + 1
            && (forall j :: 0 <= j < i ==> t[j] == s[j]) && t[i] == a
            && (forall j :: i < j < |t| ==> t[j] == s[j - 1])
            && (forall x :: x in t <==> x == a || x in s)
  {
    assert s == s[..i] + s[i..];
  }

  lemma HousedInsert(s: Shape, i: nat, a: nat)
    requires Housed(s) && i <= |s.nodes| && a !in s.home
    ensures Housed(Inserted(s, i, a))
  {
    hide Placed;
    var t := Inserted(s, i, a);
    SpliceIs(s.nodes, i, a);
    SubsHome(s);
    forall j | 0 <= j < |t.nodes|
      ensures t.nodes[j] in t.subs && t.nodes[j] in t.home && t.home[t.nodes[j]] == (t.nodes[j], 0)
    {
      if j != i { assert t.nodes[j] in s.nodes; }
    }
    forall b | b in t.home ensures Placed(t, b, t.home[b]) {
      PlacedInsert(s, i, a, b);
    }
  }

  lemma SubsHome(s: Shape)
    requires Housed(s)
    ensures forall m :: m in s.subs ==> m in s.home
  {
    forall m | m in s.subs ensures m in s.home {
      var i :| 0 <= i < |s.nodes| && s.nodes[i] == m;
    }
  }

  lemma FirstIndex(s: seq<nat>, i: nat, a: nat)
    requires i < |s| && s[i] == a && forall j :: 0 <= j < i ==> s[j] != a
    ensures IndexOf(s, a) == i
  {
  }

  lemma PlacedInsert(s: Shape, i: nat, a: nat, b: nat)
    requires i <= |s.nodes| && a !in s.subs && (b == a || (b in s.home && Placed(s, b, s.home[b])))
    ensures var t := Inserted(s, i, a); b in t.home && (b != a || a !in s.home ==> Placed(t, b, t.home[b]))
  {
  }

  lemma DistinctInsert(s: seq<nat>, i: nat, a: nat)
    requires Distinct(s) && i <= |s| && a !in s
    ensures Distinct(s[..i] + [a] + s[i..])
  {
    SpliceIs(s, i, a);
  }

  lemma LinkedInsert(mem: Memory, mem': Memory, s: seq<nat>, i: nat, a: nat)
    requires Linked(mem, s) && i <= |s| && 0 < a < |mem| == |mem'|
    requires mem'[a].next == At0(s, i)
    requires forall j :: 0 <= j < |s| ==>
      s[j] < |mem| && mem'[s[j]].next == if j + 1 == i then a else mem[s[j]].next
    ensures Linked(mem', s[..i] + [a] + s[i..])
  {
    var t := s[..i] + [a] + s[i..];
    SpliceIs(s, i, a);
    forall j | 0 <= j < |t| ensures 0 < t[j] < |mem'| && mem'[t[j]].next == Then(t, j) {
      if j != i { LinkAt(mem, s, if j < i then j else j - 1); }
      if j < i {
        assert t[j] == s[j];
      } else if j > i {
        assert t[j] == s[j - 1];
      }
    }
  }

  /** Linking a filled node in front of the i-th MPDU. */
  lemma InsertShaped(mem: Memory, mem': Memory, s: Shape, i: nat, a: nat)
    requires Shaped(mem, s) && i <= |s.nodes| && a !in s.home && |mem'| == |mem|
    requires Owned(mem', a) && mem'[a].head == 0 && mem'[a].tail == 0 && mem'[a].cnt == 0
    requires mem'[a].next == At0(s.nodes, i)
    requires forall b :: b in s.home ==>
      0 < b < |mem| && mem'[b] == if 0 < i && b == s.nodes[i - 1] then mem[b].(next := a) else mem[b]
    ensures Shaped(mem', Inserted(s, i, a))
  {
    hide Linked, Chained, Placed;
    HousedInsert(s, i, a);
    NodesDistinct(s, i, a);
    NodesLinked(mem, mem', s, i, a);
    forall m | m in s.subs ensures Chained(mem', m, s.subs[m]) {
      ChainBeside(mem, mem', s, m, if i > 0 then s.nodes[i - 1] else 0);
    }
    InsertedChains(mem', s, i, a);
    assert forall b :: b in s.home ==> Owned(mem, b);
  }

  lemma InsertedChains(mem': Memory, s: Shape, i: nat, a: nat)
    requires i <= |s.nodes| && 0 < a < |mem'| && mem'[a].head == 0 && mem'[a].tail == 0 && mem'[a].cnt == 0
    requires forall m :: m in s.subs ==> Chained(mem', m, s.subs[m])
    ensures var t := Inserted(s, i, a); forall m :: m in t.subs ==> Chained(mem', m, t.subs[m])
  {
  }

  lemma NodesDistinct(s: Shape, i: nat, a: nat)
    requires Distinct(s.nodes) && Housed(s) && i <= |s.nodes| && a !in s.home
    ensures Distinct(Inserted(s, i, a).nodes)
  {
    hide Placed;
    assert forall j :: 0 <= j < |s.nodes| ==> s.nodes[j] in s.home && s.nodes[j] != a;
    DistinctInsert(s.nodes, i, a);
  }

  lemma NodesLinked(mem: Memory, mem': Memory, s: Shape, i: nat, a: nat)
    requires Distinct(s.nodes) && Linked(mem, s.nodes) && Housed(s)
    requires i <= |s.nodes| && 0 < a < |mem| == |mem'|
    requires mem'[a].next == At0(s.nodes, i)
    requires forall b :: b in s.home ==>
      0 < b < |mem| && mem'[b] == if 0 < i && b == s.nodes[i - 1] then mem[b].(next := a) else mem[b]
    ensures Linked(mem', Inserted(s, i, a).nodes)
  {
    hide Linked, Placed;
    HomeHas(s);
    hide Housed;
    forall j | 0 <= j < |s.nodes|
      ensures s.nodes[j] < |mem|
      ensures mem'[s.nodes[j]].next == if j + 1 == i then a else mem[s.nodes[j]].next
    {
      assert s.nodes[j] in s.home;
    }
    LinkedInsert(mem, mem', s.nodes, i, a);
  }

  /** A chain whose MPDU at most had its next pointer moved. */
  lemma ChainBeside(mem: Memory, mem': Memory, s: Shape, m: nat, x: nat)
    requires Shaped(mem, s) && m in s.subs && |mem'| == |mem|
    requires x == 0 || x in s.nodes
    requires forall b :: b in s.home ==>
      0 < b < |mem| && (b != x ==> mem'[b] == mem[b]) && mem'[b] == mem[b].(next := mem'[b].next)
    ensures Chained(mem', m, s.subs[m])
  {
    hide Placed;
    assert Chained(mem, m, s.subs[m]) && m in s.nodes;
    SubsApart(s, m);
  }

  /** An MSDU node is not an MPDU. */
  lemma SubsApart(s: Shape, m: nat)
    requires Housed(s) && m in s.subs
    ensures forall j :: 0 <= j < |s.subs[m]| ==> s.subs[m][j] in s.home && s.subs[m][j] !in s.nodes
    ensures forall j, i :: 0 <= j < |s.subs[m]| && 0 <= i < |s.nodes| ==> s.subs[m][j] != s.nodes[i]
    ensures forall j, k :: 0 <= j < k < |s.subs[m]| ==> s.subs[m][j] != s.subs[m][k]
  {
  }

  lemma InsertHeld(mem: Memory, mem': Memory, s: Shape, i: nat, a: nat)
    requires Shaped(mem, s) && i <= |s.nodes| && a !in s.home && 0 < a < |mem'| == |mem|
    requires forall b :: b in s.home ==> 0 < b < |mem| && mem'[b].f == mem[b].f && mem'[b].tick == mem[b].tick
    ensures HeldAt(mem', Inserted(s, i, a))
            == HeldAt(mem, s)[..i] + [Held(mem'[a].f, [], mem'[a].tick)] + HeldAt(mem, s)[i..]
  {
    hide Chained, Linked, Owned, Housed, Distinct;
    var t := Inserted(s, i, a);
    HomeHas(s);
    assert a !in s.nodes && a !in s.subs;
    var hs := HeldAt(mem, s);
    var r := hs[..i] + [Held(mem'[a].f, [], mem'[a].tick)] + hs[i..];
    forall j | 0 <= j < |t.nodes| ensures HeldAt(mem', t)[j] == r[j] {
      if j != i {
        var m := s.nodes[if j < i then j else j - 1];
        assert t.nodes[j] == m && m in s.nodes && m in s.subs && m in s.home;
        assert FramesAt(mem', t.subs[m]) == FramesAt(mem, s.subs[m]);
      } else {
        assert t.nodes[i] == a && FramesAt(mem', []) == [];
      }
    }
  }

  lemma InsertPtr(s: Shape, i: nat, a: nat)
    requires Housed(s) && i <= |s.nodes| && a !in s.home && a != 0
    ensures PtrAt(Inserted(s, i, a), a) == At(i)
  {
    var t := s.nodes[..i] + [a] + s.nodes[i..];
    SpliceIs(s.nodes, i, a);
    assert a !in s.nodes;
    assert forall j :: 0 <= j < i ==> t[j] == s.nodes[j] && s.nodes[j] in s.nodes;
    FirstIndex(t, i, a);
  }

  /** a becomes the last MSDU of MPDU m. */
  function Appended(s: Shape, m: nat, a: nat): Shape
    requires m in s.subs
  {
    Shape(s.nodes, s.subs[m := s.subs[m] + [a]], s.home[a := (m, |s.subs[m]| + 1)])
  }

  lemma HousedAppend(s: Shape, m: nat, a: nat)
    requires Housed(s) && m in s.subs && a !in s.home
    ensures Housed(Appended(s, m, a))
  {
    var t := Appended(s, m, a);
    forall b | b in t.home ensures Placed(t, b, t.home[b]) {
      if b != a { assert Placed(s, b, s.home[b]); }
    }
    forall k, j | k in t.subs && 0 <= j < |t.subs[k]|
      ensures t.subs[k][j] in t.home && t.home[t.subs[k][j]] == (k, j + 1)
    {
      if k == m && j == |s.subs[m]| {
      } else {
        assert t.subs[k][j] == s.subs[k][j];
      }
    }
    assert forall i :: 0 <= i < |t.nodes| ==> t.nodes[i] != a;
  }

  /** The end of m's chain takes the node: the last MSDU's next, or m's head. */
  lemma AppendShaped(mem: Memory, mem': Memory, s: Shape, m: nat, a: nat)
    requires Shaped(mem, s) && m in s.subs && a !in s.home && |mem'| == |mem|
    requires Owned(mem', a) && mem'[a].next == 0
    requires 0 < m < |mem| && mem'[m] ==
      mem[m].(cnt := mem[m].cnt + 1, tail := a, head := if mem[m].tail == 0 then a else mem[m].head)
    requires forall b :: b in s.home && b != m ==>
      0 < b < |mem| && mem'[b] == if b == mem[m].tail then mem[b].(next := a) else mem[b]
    ensures Shaped(mem', Appended(s, m, a))
  {
    hide Housed, Linked, Chained, Placed;
    HousedAppendOf(mem, s, m, a);
    TailIs(mem, s, m);
    forall k | k in s.subs ensures Chained(mem', k, if k == m then s.subs[m] + [a] else s.subs[k]) {
      if k == m { ChainGrows(mem, mem', s, m, a); } else { ChainAside(mem, mem', s, m, k); }
    }
    NodesBeside(mem, mem', s, mem[m].tail);
    assert forall b :: b in s.home ==> Owned(mem, b);
  }

  lemma HousedAppendOf(mem: Memory, s: Shape, m: nat, a: nat)
    requires Shaped(mem, s) && m in s.subs && a !in s.home
    ensures Housed(Appended(s, m, a))
  {
    HousedAppend(s, m, a);
  }

  lemma ChainGrows(mem: Memory, mem': Memory, s: Shape, m: nat, a: nat)
    requires Shaped(mem, s) && m in s.subs && |mem'| == |mem|
    requires 0 < a < |mem| && mem'[a].next == 0
    requires 0 < m < |mem| && mem'[m] ==
      mem[m].(cnt := mem[m].cnt + 1, tail := a, head := if mem[m].tail == 0 then a else mem[m].head)
    requires forall b :: b in s.home && b != m ==>
      0 < b < |mem| && mem'[b] == if b == mem[m].tail then mem[b].(next := a) else mem[b]
    ensures Chained(mem', m, s.subs[m] + [a])
  {
    hide Housed, Placed;
    assert Chained(mem, m, s.subs[m]);
    SubsApart(s, m);
    MpduHoused(s, m);
    LinkedGrows(mem, mem', s.subs[m], a);
  }

  lemma MpduHoused(s: Shape, m: nat)
    requires Housed(s) && m in s.subs
    ensures m in s.nodes && m in s.home && m !in s.subs[m]
  {
  }

  lemma LinkedGrows(mem: Memory, mem': Memory, sub: seq<nat>, a: nat)
    requires Linked(mem, sub) && |mem'| == |mem| && 0 < a < |mem| && mem'[a].next == 0
    requires forall j, k :: 0 <= j < k < |sub| ==> sub[j] != sub[k]
    requires forall j :: 0 <= j < |sub| ==>
      sub[j] < |mem| && mem'[sub[j]] == if sub[j] == End(sub) then mem[sub[j]].(next := a) else mem[sub[j]]
    ensures Linked(mem', sub + [a])
  {
    var t := sub + [a];
    forall i | 0 <= i < |t| ensures 0 < t[i] < |mem'| && mem'[t[i]].next == Then(t, i) {
      if i < |sub| {
        LinkAt(mem, sub, i);
        assert t[i] == sub[i];
        assert sub[i] == End(sub) <==> i == |sub| - 1;
      }
    }
  }

  /** The chains of the other MPDUs. */
  lemma ChainAside(mem: Memory, mem': Memory, s: Shape, m: nat, k: nat)
    requires Shaped(mem, s) && m in s.subs && k in s.subs && k != m && |mem'| == |mem|
    requires 0 < m < |mem| && mem[m].tail == End(s.subs[m])
    requires forall b :: b in s.home && b != m ==>
      0 < b < |mem| && (b != mem[m].tail ==> mem'[b] == mem[b])
    ensures Chained(mem', k, s.subs[k])
  {
    hide Placed;
    assert Chained(mem, k, s.subs[k]) && k in s.nodes && m in s.nodes;
    SubsApart(s, k);
    SubsApart(s, m);
    RowsApart(s, m, k);
    assert k != mem[m].tail;
    assert forall j :: 0 <= j < |s.subs[k]| ==> s.subs[k][j] != mem[m].tail && s.subs[k][j] != m;
  }

  lemma NodesBeside(mem: Memory, mem': Memory, s: Shape, x: nat)
    requires Shaped(mem, s) && |mem'| == |mem| && x !in s.nodes
    requires forall b :: b in s.home && b != x ==> 0 < b < |mem| && mem'[b].next == mem[b].next
    ensures Linked(mem', s.nodes)
  {
    hide Placed, Chained;
    assert forall i :: 0 <= i < |s.nodes| ==> s.nodes[i] in s.home && s.nodes[i] in s.nodes;
  }

  lemma TailIs(mem: Memory, s: Shape, m: nat)
    requires Shaped(mem, s) && m in s.subs
    ensures 0 < m < |mem| && mem[m].tail == End(s.subs[m]) && mem[m].head == First(s.subs[m])
    ensures mem[m].tail == 0 <==> s.subs[m] == []
    ensures mem[m].tail != 0 ==> mem[m].tail in s.home && mem[m].tail != m && mem[m].tail < |mem|
    ensures mem[m].tail !in s.nodes
  {
    SubsApart(s, m);
    assert Chained(mem, m, s.subs[m]) && m in s.nodes;
  }

  lemma RowsApart(s: Shape, m: nat, k: nat)
    requires Housed(s) && m in s.subs && k in s.subs && m != k
    ensures forall i, j :: 0 <= i < |s.subs[m]| && 0 <= j < |s.subs[k]| ==> s.subs[m][i] != s.subs[k][j]
  {
  }

  lemma AppendHeld(mem: Memory, mem': Memory, s: Shape, i: nat, a: nat)
    requires Shaped(mem, s) && i < |s.nodes| && a !in s.home && 0 < a < |mem'| == |mem|
    requires forall b :: b in s.home ==> 0 < b < |mem| && mem'[b].f == mem[b].f && mem'[b].tick == mem[b].tick
    ensures s.nodes[i] in s.subs
    ensures HeldAt(mem', Appended(s, s.nodes[i], a)) == Append(HeldAt(mem, s), i, mem'[a].f)
  {
    hide Chained, Linked, Owned, Placed;
    var m := s.nodes[i];
    assert m in s.subs;
    var t := Appended(s, m, a);
    forall j | 0 <= j < |t.nodes| ensures HeldAt(mem', t)[j] == Append(HeldAt(mem, s), i, mem'[a].f)[j] {
      var k := s.nodes[j];
      assert k in s.subs && k in s.home && (k == m <==> j == i);
      assert FramesAt(mem', s.subs[k]) == FramesAt(mem, s.subs[k]);
      if j == i { assert FramesAt(mem', s.subs[m] + [a]) == FramesAt(mem', s.subs[m]) + [mem'[a].f]; }
    }
  }
}
