/** Tunnel fragmentation and reassembly on packet bytes: a packet is its 32-byte
    descriptor and its data; segments go out through the bridge, patched on the
    way. RFC 791 section 3.2 and RFC 8200 section 4.5. */
module Tunnel {

  type Byte = b: int | 0 <= b < 256 witness 0

  type Packet = seq<Byte>

  function Get(d: Packet, at: nat): (v: int)
    requires at + 2 <= |d|
    ensures 0 <= v < 0x1_0000
  {
    var hi: int, lo: int := d[at], d[at + 1];
    hi * 256 + lo
  }

  /** The big-endian word at one offset set to v, 16 bits of it. */
  function Put(d: Packet, at: nat, v: int): (r: Packet)
    requires at + 2 <= |d|
    ensures |r| == |d|
  {
    var w := v % 0x1_0000;
    d[at := w / 256][at + 1 := w % 256]
  }

  lemma PutGet(d: Packet, at: nat, v: int)
    requires at + 2 <= |d|
    ensures Get(Put(d, at, v), at) == v % 0x1_0000
    ensures forall i :: 0 <= i < |d| && i != at && i != at + 1 ==> Put(d, at, v)[i] == d[i]
  {
  }

  /** Putting back what is there changes nothing; only that does. */
  lemma PutSame(d: Packet, at: nat, v: int)
    requires at + 2 <= |d| && 0 <= v < 0x1_0000
    ensures Put(d, at, v) == d <==> Get(d, at) == v
  {
    PutGet(d, at, v);
    if Get(d, at) == v {
      HighLow(d[at], d[at + 1]);
    }
  }

  lemma HighLow(hi: int, lo: int)
    requires 0 <= hi < 256 && 0 <= lo < 256
    ensures (hi * 256 + lo) / 256 == hi && (hi * 256 + lo) % 256 == lo && (hi * 256 + lo) % 0x1_0000 == hi * 256 + lo
  {
  }

  /** Data as the far end sees it: all but the descriptor. */
  predicate SameData(a: Packet, b: Packet) {
    |a| == |b| >= 32 && a[32..] == b[32..]
  }

  // ---------------------------------------------------------------- the headers

  /** Where the PPPoE length is, behind one VLAN tag or none; 0 when there is none. */
  function PppoeAt(d: Packet): (at: nat)
    requires |d| >= 50
    ensures at == 0 || at == 50 || at == 54
  {
    if Get(d, 44) == 0x8864 then 50
    else if Get(d, 44) == 0x8100 && Get(d, 48) == 0x8864 then 54
    else 0
  }

  /** pppoe_len_patch. */
  function PutPppoe(d: Packet, like: Packet, v: int): (r: Packet)
    requires |like| >= 50 && |d| >= 56
    ensures |r| == |d|
  {
    if PppoeAt(like) == 0 then d else Put(d, PppoeAt(like), v)
  }

  /** A packet the splitter accepts: its IP header at 32 + hdr, behind any PPPoE
      header, and its descriptor's length the data's. */
  predicate Splits(d: Packet, mtu: nat, hdr: nat) {
    && 14 <= hdr <= 127 && mtu < 0x1_0000 && 32 + hdr + mtu < |d| <= 32 + 0xFFFF
    && 50 <= |d| && PppoeAt(d) + 2 <= 32 + hdr && (Get(d, 44) == 0x8100 ==> 18 <= hdr)
  }

  function Ihl(d: Packet, hdr: nat): (n: nat)
    requires 32 + hdr < |d|
  {
    (d[32 + hdr] % 16) * 4
  }

  // ---------------------------------------------------------------- IPv4

  /** Whole 8-byte units that room bytes hold: room is computed on 32 bits, the
      count kept in 16. */
  function Units(room: int): (n: nat)
    ensures 0 <= room < 0x1_0000 ==> n == room / 8
    ensures -48 <= room < 0 ==> n >= 0xFFFA
  {
    room % 0x1_0000_0000 / 8 % 0x1_0000
  }

  /** Payload bytes of the first fragment. */
  function FirstV4(mtu: nat): (fp: nat)
    requires mtu < 0x1_0000
    ensures fp % 8 == 0
    ensures 20 <= mtu ==> fp + 20 <= mtu && fp / 8 < 0x2000
  {
    Units(mtu - 20) * 8
  }

  /** The first segment stays inside the packet if and only if the MTU has room
      for the IPv4 header; below that the payload size wraps. */
  lemma MtuHoldsV4(d: Packet, mtu: nat, hdr: nat)
    requires Splits(d, mtu, hdr)
    ensures FirstV4(mtu) + hdr + 52 <= |d| <==> mtu >= 20
  {
    if mtu < 20 { assert FirstV4(mtu) >= 0xFFFA * 8; }
  }

  /** The first IPv4 fragment as it goes out. */
  function FragOneV4(d: Packet, mtu: nat, hdr: nat): (f: Packet)
    requires Splits(d, mtu, hdr) && mtu >= 20
    ensures |f| == FirstV4(mtu) + hdr + 52
  {
    var fp := FirstV4(mtu);
    PatchedV4(d, hdr, fp + 20, 0x2000, fp + 22)[..fp + hdr + 52]
  }

  /** The second: the header again, then the rest of the payload. */
  function FragTwoV4(d: Packet, mtu: nat, hdr: nat): (f: Packet)
    requires Splits(d, mtu, hdr) && mtu >= 20
    ensures |f| == |d| - FirstV4(mtu)
  {
    var fp := FirstV4(mtu);
    PatchedV4(d, hdr, |d| - 32 - hdr - fp, fp / 8, |d| - fp - hdr - 30)[..hdr + 52]
    + d[fp + hdr + 52..]
  }

  /** What the reassembler holds of one family: a first fragment. */
  datatype Held = Nothing | First(d: Packet, hdr: nat)

  /** What becomes of a fragment: held, refused, or a whole packet sent. */
  datatype Outcome = Holds | Refused | Sent(whole: Packet)

  /** reasm_v4 on a fragment, given what is held. */
  function JoinV4(held: Held, d: Packet, hdr: nat): (Held, Outcome)
    requires 4 <= hdr && 52 + hdr <= |d| && (held.First? ==> 52 + held.hdr <= |held.d| && 56 <= |held.d|)
  {
    var frag := Get(d, hdr + 38);
    if frag / 0x2000 % 2 == 1 then (First(Put(d, hdr + 38, frag - 0x2000), hdr), Holds)
    else if held.Nothing? then (held, Refused)
    else
      var total := Get(held.d, held.hdr + 34);
      if Get(held.d, held.hdr + 36) != Get(d, hdr + 36) then (held, Refused)
      else if frag * 8 % 0x1_0000 != total - Ihl(held.d, held.hdr) then (held, Refused)
      else
        var whole := Put(held.d, held.hdr + 34, total + |d| - 52 - hdr);
        (Nothing, Sent(PutPppoe(whole, d, |whole| - 82 - held.hdr + |d| - hdr) + d[hdr + 52..]))
  }

  // ---------------------------------------------------------------- IPv4 round trip

  /** Equal data has equal words. */
  lemma SameWords(a: Packet, b: Packet, at: nat)
    requires SameData(a, b) && 32 <= at && at + 2 <= |a|
    ensures Get(a, at) == Get(b, at) && a[at] == b[at] && a[at + 1] == b[at + 1]
  {
    assert a[at] == a[32..][at - 32] && b[at] == b[32..][at - 32];
    assert a[at + 1] == a[32..][at - 31] && b[at + 1] == b[32..][at - 31];
  }

  lemma SamePppoe(a: Packet, b: Packet, hdr: nat)
    requires |a| >= 50 && |b| >= 50 && 14 <= hdr && (Get(b, 44) == 0x8100 ==> 18 <= hdr)
    requires forall i :: 44 <= i < 50 && i < 32 + hdr ==> a[i] == b[i]
    ensures PppoeAt(a) == PppoeAt(b)
  {
  }

  /** The header the reassembler makes: no fragment word, the length of the data. */
  function MadeV4(x: Packet, like: Packet, hdr: nat, total: int): (r: Packet)
    requires 52 + hdr <= |x| && 56 <= |x| && 50 <= |like|
    ensures |r| == |x|
  {
    PutPppoe(Put(Put(x, hdr + 38, 0), hdr + 34, total), like, total + 2)
  }

  /** A header with its length, fragment and PPPoE words patched. */
  function PatchedV4(d: Packet, hdr: nat, total: int, frag: int, pppoe: int): (r: Packet)
    requires 52 + hdr <= |d| && 56 <= |d|
    ensures |r| == |d|
  {
    PutPppoe(Put(Put(d, hdr + 34, total), hdr + 38, frag), d, pppoe)
  }

  lemma PatchedKeeps(d: Packet, hdr: nat, total: int, frag: int, pppoe: int)
    requires 52 + hdr <= |d| && 56 <= |d| && PppoeAt(d) + 2 <= 32 + hdr
    ensures var r, p := PatchedV4(d, hdr, total, frag, pppoe), PppoeAt(d);
            && Get(r, hdr + 34) == total % 0x1_0000 && Get(r, hdr + 38) == frag % 0x1_0000
            && (p != 0 ==> Get(r, p) == pppoe % 0x1_0000)
            && (forall i :: 0 <= i < |d| && Untouched(i, hdr, p) ==> r[i] == d[i])
  {
    hide Get, Put, PppoeAt;
    var p := PppoeAt(d);
    var a := Put(d, hdr + 34, total);
    var b := Put(a, hdr + 38, frag);
    PutGet(d, hdr + 34, total);
    PutGet(a, hdr + 38, frag);
    GetAgrees(b, a, hdr + 34);
    if p != 0 {
      var c := Put(b, p, pppoe);
      PutGet(b, p, pppoe);
      GetAgrees(c, b, hdr + 34);
      GetAgrees(c, b, hdr + 38);
    }
  }

  /** Bytes no patch of a fragment reaches. */
  predicate Untouched(i: nat, hdr: nat, p: nat) {
    && i != hdr + 34 && i != hdr + 35 && i != hdr + 38 && i != hdr + 39
    && (p == 0 || (i != p && i != p + 1))
  }

  /** The first fragment keeps every byte of the packet but the words it patches. */
  lemma OneKeeps(d: Packet, mtu: nat, hdr: nat)
    requires Splits(d, mtu, hdr) && mtu >= 20
    ensures var f, fp, p := FragOneV4(d, mtu, hdr), FirstV4(mtu), PppoeAt(d);
            && Get(f, hdr + 34) == fp + 20 && Get(f, hdr + 38) == 0x2000
            && (forall i :: 0 <= i < |f| && Untouched(i, hdr, p) ==> f[i] == d[i])
  {
    hide Get, Put, PppoeAt, PutPppoe, PatchedV4;
    var fp := FirstV4(mtu);
    var a := PatchedV4(d, hdr, fp + 20, 0x2000, fp + 22);
    PatchedKeeps(d, hdr, fp + 20, 0x2000, fp + 22);
    GetAgrees(FragOneV4(d, mtu, hdr), a, hdr + 34);
    GetAgrees(FragOneV4(d, mtu, hdr), a, hdr + 38);
  }

  /** So does the second in its header, and behind it comes the rest. */
  lemma TwoKeeps(d: Packet, mtu: nat, hdr: nat)
    requires Splits(d, mtu, hdr) && mtu >= 20
    ensures var g, fp, p := FragTwoV4(d, mtu, hdr), FirstV4(mtu), PppoeAt(d);
            && Get(g, hdr + 38) == fp / 8
            && (forall i :: 0 <= i < hdr + 52 && Untouched(i, hdr, p) ==> g[i] == d[i])
            && (forall i :: hdr + 52 <= i < |g| ==> g[i] == d[i + fp])
  {
    hide Get, Put, PppoeAt, PutPppoe, PatchedV4;
    var fp := FirstV4(mtu);
    var b := PatchedV4(d, hdr, |d| - 32 - hdr - fp, fp / 8, |d| - fp - hdr - 30);
    PatchedKeeps(d, hdr, |d| - 32 - hdr - fp, fp / 8, |d| - fp - hdr - 30);
    var g := FragTwoV4(d, mtu, hdr);
    assert g == b[..hdr + 52] + d[fp + hdr + 52..];
    GetAgrees(g, b, hdr + 38);
  }

  /** Writing the made header over a first fragment is writing it over the packet. */
  lemma MadeSame(d: Packet, f: Packet, g1: Packet, hdr: nat, like: Packet, total: int)
    requires SameData(g1, f) && 52 + hdr <= |f| <= |d| && 50 <= |like| && PppoeAt(like) == PppoeAt(d)
    requires 56 <= |f| && PppoeAt(d) + 2 <= 32 + hdr
    requires var p := PppoeAt(d);
             forall i :: 0 <= i < |f| && Untouched(i, hdr, p) ==> f[i] == d[i]
    ensures forall i :: 32 <= i < |f| ==> MadeV4(g1, like, hdr, total)[i] == MadeV4(d, d, hdr, total)[i]
  {
    assert forall i :: 32 <= i < |f| ==> g1[i] == g1[32..][i - 32] == f[32..][i - 32] == f[i];
  }

  /** The made header is the packet's own exactly when the packet was whole and
      its lengths those of its data. */
  lemma MadeIsOwn(d: Packet, hdr: nat)
    requires 56 <= |d| <= 32 + 0xFFFF && 52 + hdr <= |d| && PppoeAt(d) + 2 <= 32 + hdr
    ensures var total := |d| - 32 - hdr;
            MadeV4(d, d, hdr, total) == d <==>
              Get(d, hdr + 38) == 0 && Get(d, hdr + 34) == total
              && (PppoeAt(d) != 0 ==> Get(d, PppoeAt(d)) == (total + 2) % 0x1_0000)
  {
    hide Get, Put, PppoeAt;
    var total := |d| - 32 - hdr;
    var a := Put(d, hdr + 38, 0);
    var b := Put(a, hdr + 34, total);
    var p := PppoeAt(d);
    ThreePuts(d, hdr + 38, 0, hdr + 34, total, p, total + 2);
  }

  /** Words at three places put back: the whole is unchanged iff each word is. */
  lemma ThreePuts(d: Packet, x: nat, u: int, y: nat, v: int, z: nat, w: int)
    requires x + 2 <= |d| && y + 2 <= x && z + 2 <= y && 0 <= u < 0x1_0000 && 0 <= v < 0x1_0000
    ensures var b := Put(Put(d, x, u), y, v);
            && (b == d <==> Get(d, x) == u && Get(d, y) == v)
            && (Put(b, z, w) == d <==> Get(d, x) == u && Get(d, y) == v && Get(d, z) == w % 0x1_0000)
  {
    hide Get, Put;
    var a := Put(d, x, u);
    var b := Put(a, y, v);
    var c := Put(b, z, w);
    PutGet(d, x, u);
    PutGet(a, y, v);
    PutGet(b, z, w);
    GetAgrees(a, d, y);
    GetAgrees(b, a, x);
    GetAgrees(b, d, z);
    GetAgrees(c, b, x);
    GetAgrees(c, b, y);
    PutSame(d, x, u);
    PutSame(a, y, v);
    PutMod(b, z, w);
    PutSame(b, z, w % 0x1_0000);
  }

  lemma PutMod(d: Packet, z: nat, w: int)
    requires z + 2 <= |d|
    ensures Put(d, z, w) == Put(d, z, w % 0x1_0000)
  {
    var v := w % 0x1_0000;
    assert v % 0x1_0000 == v;
  }

  lemma GetAgrees(a: Packet, b: Packet, at: nat)
    requires at + 2 <= |a| && at + 2 <= |b| && a[at] == b[at] && a[at + 1] == b[at + 1]
    ensures Get(a, at) == Get(b, at)
  {
  }

  /** The fragments as they arrive: the same data behind fresh descriptors. */
  predicate Arrive(d: Packet, mtu: nat, hdr: nat, a: Packet, b: Packet) {
    Splits(d, mtu, hdr) && mtu >= 20 && SameData(a, FragOneV4(d, mtu, hdr)) && SameData(b, FragTwoV4(d, mtu, hdr))
  }

  lemma HoldsFirst(d: Packet, mtu: nat, hdr: nat, a: Packet, b: Packet)
    requires Arrive(d, mtu, hdr, a, b)
    ensures JoinV4(Nothing, a, hdr) == (First(Put(a, hdr + 38, 0), hdr), Holds)
  {
    hide Put, FragOneV4, FragTwoV4;
    OneKeeps(d, mtu, hdr);
    SameWords(a, FragOneV4(d, mtu, hdr), hdr + 38);
  }

  /** The second fragment finds its first by its identification, and its place
      when the packet's IP header has no options. */
  lemma JoinsSecond(d: Packet, mtu: nat, hdr: nat, a: Packet, b: Packet)
    requires Arrive(d, mtu, hdr, a, b)
    ensures var held := First(Put(a, hdr + 38, 0), hdr);
            JoinV4(held, b, hdr) ==
              if Ihl(d, hdr) != 20 then (held, Refused)
              else (Nothing, Sent(MadeV4(a, b, hdr, |d| - 32 - hdr) + b[hdr + 52..]))
  {
    hide Get, Put, PutPppoe, PppoeAt, FragOneV4, FragTwoV4;
    var f, g, fp := FragOneV4(d, mtu, hdr), FragTwoV4(d, mtu, hdr), FirstV4(mtu);
    OneKeeps(d, mtu, hdr);
    TwoKeeps(d, mtu, hdr);
    SameWords(a, f, hdr + 34);
    SameWords(a, f, hdr + 36);
    SameWords(a, f, 32 + hdr);
    SameWords(b, g, hdr + 36);
    SameWords(b, g, hdr + 38);
    GetAgrees(f, d, hdr + 36);
    GetAgrees(g, d, hdr + 36);
    var h := Put(a, hdr + 38, 0);
    PutGet(a, hdr + 38, 0);
    GetAgrees(h, a, hdr + 34);
    GetAgrees(h, a, hdr + 36);
    assert f[32 + hdr] == d[32 + hdr];
    assert Ihl(h, hdr) == Ihl(d, hdr);
    assert fp / 8 * 8 % 0x1_0000 == fp && fp / 8 / 0x2000 == 0;
  }

  /** The joined packet is the packet under the made header. */
  lemma JoinedData(d: Packet, mtu: nat, hdr: nat, a: Packet, b: Packet)
    requires Arrive(d, mtu, hdr, a, b)
    ensures SameData(MadeV4(a, b, hdr, |d| - 32 - hdr) + b[hdr + 52..], MadeV4(d, d, hdr, |d| - 32 - hdr))
  {
    hide Get, Put, PutPppoe, PppoeAt, FragOneV4, FragTwoV4;
    var f, g, fp := FragOneV4(d, mtu, hdr), FragTwoV4(d, mtu, hdr), FirstV4(mtu);
    var total := |d| - 32 - hdr;
    OneKeeps(d, mtu, hdr);
    TwoKeeps(d, mtu, hdr);
    assert forall i :: 44 <= i < 50 && i < 32 + hdr ==> b[i] == b[32..][i - 32] == g[32..][i - 32] == g[i] == d[i];
    SamePppoe(b, d, hdr);
    MadeSame(d, f, a, hdr, b, total);
    MadeTail(d, hdr, total);
    var o, m := MadeV4(a, b, hdr, total) + b[hdr + 52..], MadeV4(d, d, hdr, total);
    forall i | 32 <= i < |o| ensures o[i] == m[i] {
      if i >= |f| {
        var j := i - fp;
        assert o[i] == b[j] == b[32..][j - 32] == g[32..][j - 32] == g[j] == d[i];
      }
    }
    assert o[32..] == m[32..];
  }

  lemma MadeTail(d: Packet, hdr: nat, total: int)
    requires 52 + hdr <= |d| && 56 <= |d| && PppoeAt(d) + 2 <= 32 + hdr
    ensures forall i :: 0 <= i < |d| && (i < 32 || i >= 52 + hdr) ==> MadeV4(d, d, hdr, total)[i] == d[i]
  {
  }

  /** Splitting an IPv4 packet and joining the fragments: the join succeeds if and
      only if the header has no options, and then gives the packet back if and
      only if it was not a fragment itself and its length words are those of its
      data. */
  lemma RoundTripV4(d: Packet, mtu: nat, hdr: nat, a: Packet, b: Packet)
    requires Arrive(d, mtu, hdr, a, b)
    ensures var (held, first) := JoinV4(Nothing, a, hdr);
            var (after, second) := JoinV4(held, b, hdr);
            && first == Holds && (second.Sent? <==> Ihl(d, hdr) == 20)
            && (second.Sent? ==> after == Nothing && |second.whole| == |d|)
            && (second.Sent? ==>
                 (SameData(second.whole, d) <==>
                    Get(d, hdr + 38) == 0 && Get(d, hdr + 34) == |d| - 32 - hdr
                    && (PppoeAt(d) != 0 ==> Get(d, PppoeAt(d)) == (|d| - 30 - hdr) % 0x1_0000)))
  {
    hide Get, Put, PutPppoe, PppoeAt, FragOneV4, FragTwoV4, JoinV4, MadeV4;
    HoldsFirst(d, mtu, hdr, a, b);
    JoinsSecond(d, mtu, hdr, a, b);
    JoinedData(d, mtu, hdr, a, b);
    MadeIsOwn(d, hdr);
    MadeTail(d, hdr, |d| - 32 - hdr);
    OwnData(MadeV4(d, d, hdr, |d| - 32 - hdr), d);
  }

  /** What the reassembler keeps of a first fragment. */
  lemma FirstKept(d: Packet, mtu: nat, hdr: nat, a: Packet)
    requires Splits(d, mtu, hdr) && mtu >= 20 && SameData(a, FragOneV4(d, mtu, hdr))
    ensures var (held, r) := JoinV4(Nothing, a, hdr);
            && r == Holds && held.First? && held.hdr == hdr && |held.d| == |a|
            && Get(held.d, hdr + 34) == FirstV4(mtu) + 20 && Get(held.d, hdr + 36) == Get(d, hdr + 36)
            && Ihl(held.d, hdr) == Ihl(d, hdr)
  {
    hide Get, Put, PutPppoe, PppoeAt, FragOneV4;
    var f := FragOneV4(d, mtu, hdr);
    OneKeeps(d, mtu, hdr);
    SameWords(a, f, hdr + 34);
    SameWords(a, f, hdr + 36);
    SameWords(a, f, hdr + 38);
    SameWords(a, f, 32 + hdr);
    GetAgrees(f, d, hdr + 36);
    var h := Put(a, hdr + 38, 0);
    PutGet(a, hdr + 38, 0);
    GetAgrees(h, a, hdr + 34);
    GetAgrees(h, a, hdr + 36);
    assert f[32 + hdr] == d[32 + hdr];
  }

  lemma SecondReads(d: Packet, mtu: nat, hdr: nat, b: Packet)
    requires Splits(d, mtu, hdr) && mtu >= 20 && SameData(b, FragTwoV4(d, mtu, hdr))
    ensures Get(b, hdr + 36) == Get(d, hdr + 36) && Get(b, hdr + 38) == FirstV4(mtu) / 8
    ensures FirstV4(mtu) / 8 * 8 % 0x1_0000 == FirstV4(mtu) && FirstV4(mtu) / 8 / 0x2000 == 0
  {
    hide Get, PppoeAt, FragTwoV4;
    var g := FragTwoV4(d, mtu, hdr);
    TwoKeeps(d, mtu, hdr);
    SameWords(b, g, hdr + 36);
    SameWords(b, g, hdr + 38);
    GetAgrees(g, d, hdr + 36);
  }

  /** After the first fragment of d, a second fragment is joined if and only if it has
      d's identification, and its offset is where the first one ends, counted by d's
      header length; every other is refused, and the first one held on to. */
  lemma JoinsOwn(d: Packet, mtu: nat, hdr: nat, a: Packet, d': Packet, mtu': nat, hdr': nat, b: Packet)
    requires Splits(d, mtu, hdr) && mtu >= 20 && SameData(a, FragOneV4(d, mtu, hdr))
    requires Splits(d', mtu', hdr') && mtu' >= 20 && SameData(b, FragTwoV4(d', mtu', hdr'))
    ensures var held := JoinV4(Nothing, a, hdr).0;
            var (after, second) := JoinV4(held, b, hdr');
            && held.First?
            && (second.Sent? <==> Get(d', hdr' + 36) == Get(d, hdr + 36)
                                  && FirstV4(mtu') == FirstV4(mtu) + 20 - Ihl(d, hdr))
            && (!second.Sent? ==> second == Refused && after == held)
  {
    hide Get, Put, PutPppoe, PppoeAt, FragOneV4, FragTwoV4, Ihl, FirstV4;
    FirstKept(d, mtu, hdr, a);
    SecondReads(d', mtu', hdr', b);
  }

  lemma OwnData(m: Packet, d: Packet)
    requires |m| == |d| >= 32 && forall i :: 0 <= i < 32 ==> m[i] == d[i]
    ensures SameData(m, d) <==> m == d
  {
    if m[32..] == d[32..] {
      assert forall i :: 32 <= i < |d| ==> m[i] == m[32..][i - 32] == d[32..][i - 32] == d[i];
    }
  }

  // ---------------------------------------------------------------- the lengths, IPv4

  /** The IPv4 packet of f, behind its PPPoE header if it has one, says its own
      length: total length from the IP header on, PPPoE length from the protocol
      field on. */
  predicate SaysLength(f: Packet, d: Packet, hdr: nat)
    requires 52 + hdr <= |f| && |d| >= 50 && PppoeAt(d) + 2 <= |f|
  {
    var ip := |f| - (32 + hdr);
    Get(f, hdr + 34) == ip && (PppoeAt(d) != 0 ==> Get(f, PppoeAt(d)) == ip + 2)
  }

  /** Each fragment says its own length, and the first is the longest of whole 8-byte
      units the MTU takes. */
  lemma LengthsV4(d: Packet, mtu: nat, hdr: nat)
    requires Splits(d, mtu, hdr) && mtu >= 20
    ensures var f, g := FragOneV4(d, mtu, hdr), FragTwoV4(d, mtu, hdr);
            && SaysLength(f, d, hdr) && SaysLength(g, d, hdr)
            && |f| - (32 + hdr) <= mtu < |f| - (32 + hdr) + 8 && (|f| - (52 + hdr)) % 8 == 0
            && |f| - (52 + hdr) + (|g| - (52 + hdr)) == |d| - (52 + hdr)
  {
    hide SaysLength, FragOneV4, FragTwoV4, FirstV4;
    FirstV4Longest(mtu);
    OneSays(d, mtu, hdr);
    TwoSays(d, mtu, hdr);
  }

  lemma OneSays(d: Packet, mtu: nat, hdr: nat)
    requires Splits(d, mtu, hdr) && mtu >= 20
    ensures SaysLength(FragOneV4(d, mtu, hdr), d, hdr)
  {
    hide Get, Put, PppoeAt, PatchedV4, FirstV4;
    var f, fp, p := FragOneV4(d, mtu, hdr), FirstV4(mtu), PppoeAt(d);
    var a := PatchedV4(d, hdr, fp + 20, 0x2000, fp + 22);
    PatchedKeeps(d, hdr, fp + 20, 0x2000, fp + 22);
    GetAgrees(f, a, hdr + 34);
    if p != 0 { GetAgrees(f, a, p); }
  }

  lemma TwoSays(d: Packet, mtu: nat, hdr: nat)
    requires Splits(d, mtu, hdr) && mtu >= 20
    ensures SaysLength(FragTwoV4(d, mtu, hdr), d, hdr)
  {
    hide Get, Put, PppoeAt, PatchedV4, FirstV4;
    var g, fp, p := FragTwoV4(d, mtu, hdr), FirstV4(mtu), PppoeAt(d);
    var b := PatchedV4(d, hdr, |d| - 32 - hdr - fp, fp / 8, |d| - fp - hdr - 30);
    PatchedKeeps(d, hdr, |d| - 32 - hdr - fp, fp / 8, |d| - fp - hdr - 30);
    GetAgrees(g, b, hdr + 34);
    if p != 0 { GetAgrees(g, b, p); }
  }

  lemma FirstV4Longest(mtu: nat)
    requires 20 <= mtu < 0x1_0000
    ensures FirstV4(mtu) + 20 <= mtu < FirstV4(mtu) + 28 && FirstV4(mtu) % 8 == 0
  {
  }

  // ---------------------------------------------------------------- the header checksum

  /** The words of a 20-byte IPv4 header, summed. */
  function HeaderSum(d: Packet, hdr: nat): int
    requires 52 + hdr <= |d|
  {
    Get(d, hdr + 32) + Get(d, hdr + 34) + Get(d, hdr + 36) + Get(d, hdr + 38) + Get(d, hdr + 40)
    + Get(d, hdr + 42) + Get(d, hdr + 44) + Get(d, hdr + 46) + Get(d, hdr + 48) + Get(d, hdr + 50)
  }

  /** The one's complement sum of the header is all ones. */
  predicate SumOk(d: Packet, hdr: nat)
    requires 52 + hdr <= |d|
  {
    HeaderSum(d, hdr) % 0xFFFF == 0
  }

  lemma SumMoves(f: Packet, d: Packet, hdr: nat)
    requires 52 + hdr <= |f| && 52 + hdr <= |d|
    requires forall i :: hdr + 32 <= i < hdr + 52 && Untouched(i, hdr, 0) ==> f[i] == d[i]
    ensures HeaderSum(f, hdr) - HeaderSum(d, hdr) ==
            Get(f, hdr + 34) - Get(d, hdr + 34) + Get(f, hdr + 38) - Get(d, hdr + 38)
  {
  }

  /** frag_v4 patches the lengths and fragment words but not the checksum. With
      the packet's own checksum right, the first fragment's is right if and only
      if exactly 8192 payload bytes are left to the second, and the second's if
      and only if the first took none. */
  lemma ChecksumsLeft(d: Packet, mtu: nat, hdr: nat)
    requires Splits(d, mtu, hdr) && mtu >= 20 && SumOk(d, hdr)
    requires Get(d, hdr + 38) == 0 && Get(d, hdr + 34) == |d| - 32 - hdr
    ensures SumOk(FragOneV4(d, mtu, hdr), hdr) <==> |d| - 52 - hdr - FirstV4(mtu) == 0x2000
    ensures SumOk(FragTwoV4(d, mtu, hdr), hdr) <==> FirstV4(mtu) == 0
  {
    hide Get, PppoeAt, FragOneV4, FragTwoV4, HeaderSum;
    var f, g, fp := FragOneV4(d, mtu, hdr), FragTwoV4(d, mtu, hdr), FirstV4(mtu);
    OneKeeps(d, mtu, hdr);
    TwoKeeps(d, mtu, hdr);
    SumMoves(f, d, hdr);
    SumMoves(g, d, hdr);
    LengthsV4(d, mtu, hdr);
    Folds(HeaderSum(d, hdr), HeaderSum(f, hdr), 0x2000 - (|d| - 52 - hdr - fp));
    var moved: int := 7 * (fp / 8);
    Folds(HeaderSum(d, hdr), HeaderSum(g, hdr), 0 - moved);
  }

  lemma Folds(s: int, t: int, d: int)
    requires s % 0xFFFF == 0 && t == s + d && -0xFFFF < d < 0xFFFF
    ensures t % 0xFFFF == 0 <==> d == 0
  {
  }

  // ---------------------------------------------------------------- IPv6

  /** Payload bytes of the first fragment. */
  function FirstV6(mtu: nat): (fs: nat)
    requires mtu < 0x1_0000
    ensures fs % 8 == 0 && (48 <= mtu ==> fs + 48 <= mtu)
  {
    Units(mtu - 48) * 8
  }

  /** The same with the IPv6 and fragment headers. */
  lemma MtuHoldsV6(d: Packet, mtu: nat, hdr: nat)
    requires Splits(d, mtu, hdr)
    ensures hdr + 72 + FirstV6(mtu) <= |d| <==> mtu >= 48
  {
    if mtu < 48 { assert FirstV6(mtu) >= 0xFFFA * 8; }
  }

  /** The fragment header: next header, offset and more flag, identification. */
  function FragHeader(next: Byte, off: int, id: int): (r: Packet)
    ensures |r| == 8
  {
    Put(Put(Put(Put(seq(8, i => 0), 0, next * 256), 2, off), 4, id / 0x1_0000), 6, id)
  }

  /** The headers up to the IPv6 one, a fragment header to follow. */
  function PatchedV6(d: Packet, hdr: nat, plen: int): (r: Packet)
    requires 72 + hdr <= |d|
    ensures |r| == 72 + hdr
  {
    PutPppoe(Put(d[hdr + 38 := 44], hdr + 36, plen), d, plen + 42)[..hdr + 72]
  }

  function FragOneV6(d: Packet, mtu: nat, hdr: nat, id: int): (f: Packet)
    requires Splits(d, mtu, hdr) && mtu >= 48
    ensures |f| == hdr + 80 + FirstV6(mtu)
  {
    var fs := FirstV6(mtu);
    PatchedV6(d, hdr, fs + 8) + FragHeader(d[hdr + 38], 1, id) + d[hdr + 72..hdr + 72 + fs]
  }

  function FragTwoV6(d: Packet, mtu: nat, hdr: nat, id: int): (f: Packet)
    requires Splits(d, mtu, hdr) && mtu >= 48
    ensures |f| == |d| + 8 - FirstV6(mtu)
  {
    var fs := FirstV6(mtu);
    PatchedV6(d, hdr, |d| - 64 - hdr - fs) + FragHeader(d[hdr + 38], fs, id) + d[hdr + 72 + fs..]
  }

  /** reasm_v6 on a fragment, given what is held: the fragment headers go. */
  function JoinV6(held: Held, d: Packet, hdr: nat): (Held, Outcome)
    requires 80 + hdr <= |d| && (held.First? ==> 80 + held.hdr <= |held.d|)
  {
    if d[hdr + 38] != 44 then (held, Refused)
    else if Get(d, hdr + 74) % 2 == 1 then (First(d[hdr + 38 := d[hdr + 72]], hdr), Holds)
    else if held.Nothing? then (held, Refused)
    else
      var h := held.hdr;
      var off, plen := Get(d, hdr + 74), Get(held.d, h + 36);
      if Get(held.d, h + 76) != Get(d, hdr + 76) || Get(held.d, h + 78) != Get(d, hdr + 78) then (held, Refused)
      else if off - off % 8 != plen - 8 then (held, Refused)
      else
        var whole := Put(held.d, h + 36, plen + |d| - 88 - hdr);
        (Nothing, Sent(PutPppoe(whole[..h + 72], d, |whole| - 118 - h + |d| - hdr) + whole[h + 80..] + d[hdr + 80..]))
  }

  lemma HeaderReads(next: Byte, off: int, id: int)
    requires 0 <= off < 0x1_0000
    ensures var r := FragHeader(next, off, id);
            r[0] == next && Get(r, 2) == off && Get(r, 4) == id / 0x1_0000 % 0x1_0000 && Get(r, 6) == id % 0x1_0000
  {
    hide Get, Put;
    var z: Packet := seq(8, i => 0);
    var a := Put(z, 0, next * 256);
    var b := Put(a, 2, off);
    var c := Put(b, 4, id / 0x1_0000);
    var e := Put(c, 6, id);
    PutGet(a, 2, off);
    PutGet(b, 4, id / 0x1_0000);
    PutGet(c, 6, id);
    TopByte(z, next);
    GetAgrees(e, b, 2);
    GetAgrees(e, c, 4);
  }

  lemma TopByte(z: Packet, next: Byte)
    requires |z| >= 2
    ensures Put(z, 0, next * 256)[0] == next
  {
  }

  lemma PatchedKeepsV6(d: Packet, hdr: nat, plen: int)
    requires 72 + hdr <= |d| && PppoeAt(d) + 2 <= 32 + hdr
    ensures var r, p := PatchedV6(d, hdr, plen), PppoeAt(d);
            && Get(r, hdr + 36) == plen % 0x1_0000 && r[hdr + 38] == 44
            && (p != 0 ==> Get(r, p) == (plen + 42) % 0x1_0000)
            && forall i :: 0 <= i < |r| && UntouchedV6(i, hdr, p) ==> r[i] == d[i]
  {
    hide Get, Put, PppoeAt;
    var p := PppoeAt(d);
    var a := d[hdr + 38 := 44];
    var b := Put(a, hdr + 36, plen);
    PutGet(a, hdr + 36, plen);
    var r := PatchedV6(d, hdr, plen);
    if p != 0 {
      PutGet(b, p, plen + 42);
      GetAgrees(r, Put(b, p, plen + 42), hdr + 36);
      GetAgrees(r, Put(b, p, plen + 42), p);
      GetAgrees(r, b, hdr + 36);
    } else {
      GetAgrees(r, b, hdr + 36);
    }
  }

  predicate UntouchedV6(i: nat, hdr: nat, p: nat) {
    i != hdr + 36 && i != hdr + 37 && i != hdr + 38 && (p == 0 || (i != p && i != p + 1))
  }

  /** The first fragment, part by part. */
  lemma OneV6Keeps(d: Packet, mtu: nat, hdr: nat, id: int)
    requires Splits(d, mtu, hdr) && mtu >= 48
    ensures var f, fs, p := FragOneV6(d, mtu, hdr, id), FirstV6(mtu), PppoeAt(d);
            && Get(f, hdr + 36) == fs + 8 && f[hdr + 38] == 44 && f[hdr + 72] == d[hdr + 38] && Get(f, hdr + 74) == 1
            && Get(f, hdr + 76) == id / 0x1_0000 % 0x1_0000 && Get(f, hdr + 78) == id % 0x1_0000
            && (forall i :: 0 <= i < hdr + 72 && UntouchedV6(i, hdr, p) ==> f[i] == d[i])
            && (forall i :: hdr + 80 <= i < |f| ==> f[i] == d[i - 8])
  {
    hide Get, Put, PppoeAt, PatchedV6, FragHeader;
    var fs := FirstV6(mtu);
    var h, e, f := PatchedV6(d, hdr, fs + 8), FragHeader(d[hdr + 38], 1, id), FragOneV6(d, mtu, hdr, id);
    PatchedKeepsV6(d, hdr, fs + 8);
    HeaderReads(d[hdr + 38], 1, id);
    assert f == h + e + d[hdr + 72..hdr + 72 + fs];
    GetAgrees(f, h, hdr + 36);
    Within(f, h, e, hdr + 72);
  }

  /** The second. */
  lemma TwoV6Keeps(d: Packet, mtu: nat, hdr: nat, id: int)
    requires Splits(d, mtu, hdr) && mtu >= 48
    ensures var f, fs, p := FragTwoV6(d, mtu, hdr, id), FirstV6(mtu), PppoeAt(d);
            && f[hdr + 38] == 44 && Get(f, hdr + 74) == fs
            && Get(f, hdr + 76) == id / 0x1_0000 % 0x1_0000 && Get(f, hdr + 78) == id % 0x1_0000
            && (forall i :: 0 <= i < hdr + 72 && UntouchedV6(i, hdr, p) ==> f[i] == d[i])
            && (forall i :: hdr + 80 <= i < |f| ==> f[i] == d[i - 8 + fs])
  {
    hide Get, Put, PppoeAt, PatchedV6, FragHeader;
    var fs := FirstV6(mtu);
    var h, e, f := PatchedV6(d, hdr, |d| - 64 - hdr - fs), FragHeader(d[hdr + 38], fs, id), FragTwoV6(d, mtu, hdr, id);
    PatchedKeepsV6(d, hdr, |d| - 64 - hdr - fs);
    HeaderReads(d[hdr + 38], fs, id);
    assert f == h + e + d[hdr + 72 + fs..];
    Within(f, h, e, hdr + 72);
  }

  /** The fragment header's words, read in the whole fragment. */
  lemma Within(f: Packet, h: Packet, e: Packet, at: nat)
    requires |h| == at && |e| == 8 && |f| >= at + 8 && f[at..at + 8] == e
    ensures Get(f, at + 2) == Get(e, 2) && Get(f, at + 4) == Get(e, 4) && Get(f, at + 6) == Get(e, 6) && f[at] == e[0]
  {
    assert forall i :: 0 <= i < 8 ==> f[at + i] == f[at..at + 8][i] == e[i];
  }

  /** The same for IPv6: its length word counts what follows the 40-byte header, the
      fragment header included. */
  predicate SaysLengthV6(f: Packet, d: Packet, hdr: nat)
    requires 72 + hdr <= |f| && |d| >= 50 && PppoeAt(d) + 2 <= |f|
  {
    var ip := |f| - (32 + hdr);
    Get(f, hdr + 36) == ip - 40 && (PppoeAt(d) != 0 ==> Get(f, PppoeAt(d)) == ip + 2)
  }

  lemma LengthsV6(d: Packet, mtu: nat, hdr: nat, id: int)
    requires Splits(d, mtu, hdr) && mtu >= 48
    ensures var f, g := FragOneV6(d, mtu, hdr, id), FragTwoV6(d, mtu, hdr, id);
            && SaysLengthV6(f, d, hdr) && SaysLengthV6(g, d, hdr)
            && |f| - (32 + hdr) <= mtu < |f| - (32 + hdr) + 8 && (|f| - (80 + hdr)) % 8 == 0
            && |f| - (80 + hdr) + (|g| - (80 + hdr)) == |d| - (72 + hdr)
  {
    hide Get, Put, PppoeAt, PatchedV6, FragHeader;
    var fs, p := FirstV6(mtu), PppoeAt(d);
    FirstV6Longest(mtu);
    var a, b := PatchedV6(d, hdr, fs + 8), PatchedV6(d, hdr, |d| - 64 - hdr - fs);
    PatchedKeepsV6(d, hdr, fs + 8);
    PatchedKeepsV6(d, hdr, |d| - 64 - hdr - fs);
    GetAgrees(FragOneV6(d, mtu, hdr, id), a, hdr + 36);
    GetAgrees(FragTwoV6(d, mtu, hdr, id), b, hdr + 36);
    if p != 0 {
      GetAgrees(FragOneV6(d, mtu, hdr, id), a, p);
      GetAgrees(FragTwoV6(d, mtu, hdr, id), b, p);
    }
  }

  lemma FirstV6Longest(mtu: nat)
    requires 48 <= mtu < 0x1_0000
    ensures FirstV6(mtu) + 48 <= mtu < FirstV6(mtu) + 56
  {
  }

  predicate ArriveV6(d: Packet, mtu: nat, hdr: nat, id: int, a: Packet, b: Packet) {
    && Splits(d, mtu, hdr) && mtu >= 48
    && SameData(a, FragOneV6(d, mtu, hdr, id)) && SameData(b, FragTwoV6(d, mtu, hdr, id))
  }

  function MadeV6(x: Packet, like: Packet, hdr: nat, plen: int): (r: Packet)
    requires 72 + hdr <= |x| && 50 <= |like|
    ensures |r| == |x|
  {
    PutPppoe(Put(x, hdr + 36, plen), like, plen + 42)
  }

  lemma HoldsFirstV6(d: Packet, mtu: nat, hdr: nat, id: int, a: Packet, b: Packet)
    requires ArriveV6(d, mtu, hdr, id, a, b)
    ensures JoinV6(Nothing, a, hdr) == (First(a[hdr + 38 := d[hdr + 38]], hdr), Holds)
  {
    hide Get, Put, PppoeAt, PutPppoe, FragOneV6, FragTwoV6;
    OneV6Keeps(d, mtu, hdr, id);
    SameWords(a, FragOneV6(d, mtu, hdr, id), hdr + 38);
    SameWords(a, FragOneV6(d, mtu, hdr, id), hdr + 72);
    SameWords(a, FragOneV6(d, mtu, hdr, id), hdr + 74);
  }

  /** The second fragment joins its first. */
  lemma JoinsSecondV6(d: Packet, mtu: nat, hdr: nat, id: int, a: Packet, b: Packet)
    requires ArriveV6(d, mtu, hdr, id, a, b)
    ensures var h := a[hdr + 38 := d[hdr + 38]];
            var w := Put(h, hdr + 36, |d| - 72 - hdr);
            JoinV6(First(h, hdr), b, hdr) ==
              (Nothing, Sent(PutPppoe(w[..hdr + 72], b, |d| - 30 - hdr) + w[hdr + 80..] + b[hdr + 80..]))
  {
    hide Get, Put, PutPppoe, PppoeAt, FragOneV6, FragTwoV6;
    var f, g, fs := FragOneV6(d, mtu, hdr, id), FragTwoV6(d, mtu, hdr, id), FirstV6(mtu);
    OneV6Keeps(d, mtu, hdr, id);
    TwoV6Keeps(d, mtu, hdr, id);
    SameWords(b, g, hdr + 38);
    SameWords(b, g, hdr + 74);
    SameWords(b, g, hdr + 76);
    SameWords(b, g, hdr + 78);
    SameWords(a, f, hdr + 36);
    SameWords(a, f, hdr + 76);
    SameWords(a, f, hdr + 78);
    var h := a[hdr + 38 := d[hdr + 38]];
    GetAgrees(h, a, hdr + 36);
    GetAgrees(h, a, hdr + 76);
    GetAgrees(h, a, hdr + 78);
  }

  /** Where its bytes come from: headers, first payload, rest. */
  lemma JoinedDataV6(d: Packet, mtu: nat, hdr: nat, id: int, a: Packet, b: Packet)
    requires ArriveV6(d, mtu, hdr, id, a, b)
    ensures var w := Put(a[hdr + 38 := d[hdr + 38]], hdr + 36, |d| - 72 - hdr);
            SameData(PutPppoe(w[..hdr + 72], b, |d| - 30 - hdr) + w[hdr + 80..] + b[hdr + 80..],
                     MadeV6(d, d, hdr, |d| - 72 - hdr))
  {
    hide Get, Put, PutPppoe, PppoeAt, FragOneV6, FragTwoV6, MadeV6;
    var f, g, fs, plen := FragOneV6(d, mtu, hdr, id), FragTwoV6(d, mtu, hdr, id), FirstV6(mtu), |d| - 72 - hdr;
    OneV6Keeps(d, mtu, hdr, id);
    TwoV6Keeps(d, mtu, hdr, id);
    SameBytes(a, f);
    SameBytes(b, g);
    SamePppoe(b, d, hdr);
    var h := a[hdr + 38 := d[hdr + 38]];
    var w, m := Put(h, hdr + 36, plen), MadeV6(d, d, hdr, plen);
    PutGet(h, hdr + 36, plen);
    HeadSame(d, h, b, hdr, plen);
    PayloadJoins(d, PutPppoe(w[..hdr + 72], b, plen + 42), w, b, hdr, fs);
    MadeTailV6(d, hdr, plen);
    HeadThenTail(PutPppoe(w[..hdr + 72], b, plen + 42), d, m, hdr + 72);
  }

  lemma SameBytes(a: Packet, b: Packet)
    requires SameData(a, b)
    ensures forall i :: 32 <= i < |a| ==> a[i] == b[i]
  {
    assert forall i :: 32 <= i < |a| ==> a[i] == a[32..][i - 32] == b[32..][i - 32] == b[i];
  }

  lemma PayloadJoins(d: Packet, x: Packet, w: Packet, b: Packet, hdr: nat, fs: nat)
    requires |w| == hdr + 80 + fs && |b| == |d| + 8 - fs && hdr + 72 + fs <= |d|
    requires forall i :: hdr + 80 <= i < |w| ==> w[i] == d[i - 8]
    requires forall i :: hdr + 80 <= i < |b| ==> b[i] == d[i - 8 + fs]
    ensures x + w[hdr + 80..] + b[hdr + 80..] == x + d[hdr + 72..]
  {
    assert w[hdr + 80..] + b[hdr + 80..] == d[hdr + 72..];
  }

  lemma HeadThenTail(x: Packet, d: Packet, m: Packet, n: nat)
    requires 32 <= n == |x| <= |d| == |m|
    requires forall i :: 32 <= i < n ==> x[i] == m[i]
    requires forall i :: n <= i < |d| ==> m[i] == d[i]
    ensures SameData(x + d[n..], m)
  {
    assert (x + d[n..])[32..] == m[32..];
  }

  lemma HeadSame(d: Packet, h: Packet, like: Packet, hdr: nat, plen: int)
    requires 72 + hdr <= |d| && 72 + hdr <= |h| && 50 <= |like| && PppoeAt(like) == PppoeAt(d)
    requires PppoeAt(d) + 2 <= 32 + hdr
    requires forall i :: 32 <= i < hdr + 72 && UntouchedV6(i, hdr, PppoeAt(d)) ==> h[i] == d[i]
    requires h[hdr + 38] == d[hdr + 38]
    ensures forall i :: 32 <= i < hdr + 72 ==>
      PutPppoe(Put(h, hdr + 36, plen)[..hdr + 72], like, plen + 42)[i] == MadeV6(d, d, hdr, plen)[i]
  {
    hide PppoeAt;
  }

  lemma MadeTailV6(d: Packet, hdr: nat, plen: int)
    requires 72 + hdr <= |d| && PppoeAt(d) + 2 <= 32 + hdr
    ensures forall i :: 0 <= i < |d| && (i < 32 || i >= 72 + hdr) ==> MadeV6(d, d, hdr, plen)[i] == d[i]
  {
    hide PppoeAt;
  }

  lemma MadeIsOwnV6(d: Packet, hdr: nat)
    requires 72 + hdr <= |d| <= 32 + 0xFFFF && PppoeAt(d) + 2 <= 32 + hdr
    ensures var plen := |d| - 72 - hdr;
            MadeV6(d, d, hdr, plen) == d <==>
              Get(d, hdr + 36) == plen && (PppoeAt(d) != 0 ==> Get(d, PppoeAt(d)) == (plen + 42) % 0x1_0000)
  {
    hide Get, Put, PppoeAt;
    var plen, p := |d| - 72 - hdr, PppoeAt(d);
    PutSame(d, hdr + 36, plen);
    if p != 0 { TwoPuts(d, hdr + 36, plen, p, plen + 42); }
  }

  lemma TwoPuts(d: Packet, y: nat, v: int, z: nat, w: int)
    requires y + 2 <= |d| && z + 2 <= y && 0 <= v < 0x1_0000
    ensures Put(Put(d, y, v), z, w) == d <==> Get(d, y) == v && Get(d, z) == w % 0x1_0000
  {
    hide Get, Put;
    var b := Put(d, y, v);
    var c := Put(b, z, w);
    PutGet(d, y, v);
    PutGet(b, z, w);
    GetAgrees(b, d, z);
    GetAgrees(c, b, y);
    PutSame(d, y, v);
    PutMod(b, z, w);
    PutSame(b, z, w % 0x1_0000);
  }

  /** Splitting an IPv6 packet and joining the fragments always succeeds, and
      gives the packet back, its next header included, if and only if its length
      words are those of its data. */
  lemma RoundTripV6(d: Packet, mtu: nat, hdr: nat, id: int, a: Packet, b: Packet)
    requires ArriveV6(d, mtu, hdr, id, a, b)
    ensures var (held, first) := JoinV6(Nothing, a, hdr);
            var (after, second) := JoinV6(held, b, hdr);
            && first == Holds && after == Nothing && second.Sent? && |second.whole| == |d|
            && (SameData(second.whole, d) <==>
                 Get(d, hdr + 36) == |d| - 72 - hdr
                 && (PppoeAt(d) != 0 ==> Get(d, PppoeAt(d)) == (|d| - 30 - hdr) % 0x1_0000))
  {
    hide Get, Put, PutPppoe, PppoeAt, FragOneV6, FragTwoV6, JoinV6, MadeV6;
    HoldsFirstV6(d, mtu, hdr, id, a, b);
    JoinsSecondV6(d, mtu, hdr, id, a, b);
    JoinedDataV6(d, mtu, hdr, id, a, b);
    MadeIsOwnV6(d, hdr);
    MadeTailV6(d, hdr, |d| - 72 - hdr);
    OwnData(MadeV6(d, d, hdr, |d| - 72 - hdr), d);
  }

  /** The same for IPv6: by the identification and the offset. */
  lemma JoinsOwnV6(d: Packet, mtu: nat, hdr: nat, id: int, a: Packet, d': Packet, mtu': nat, hdr': nat, id': int,
                   b: Packet)
    requires Splits(d, mtu, hdr) && mtu >= 48 && SameData(a, FragOneV6(d, mtu, hdr, id))
    requires Splits(d', mtu', hdr') && mtu' >= 48 && SameData(b, FragTwoV6(d', mtu', hdr', id'))
    requires 0 <= id < 0x1_0000_0000 && 0 <= id' < 0x1_0000_0000
    ensures var held := JoinV6(Nothing, a, hdr).0;
            var (after, second) := JoinV6(held, b, hdr');
            && held.First? && (second.Sent? <==> id' == id && FirstV6(mtu') == FirstV6(mtu))
            && (!second.Sent? ==> second == Refused && after == held)
  {
    hide Get, Put, PutPppoe, PppoeAt, FragOneV6, FragTwoV6;
    var f, g := FragOneV6(d, mtu, hdr, id), FragTwoV6(d', mtu', hdr', id');
    OneV6Keeps(d, mtu, hdr, id);
    TwoV6Keeps(d', mtu', hdr', id');
    SameWords(a, f, hdr + 36);
    SameWords(a, f, hdr + 38);
    SameWords(a, f, hdr + 72);
    SameWords(a, f, hdr + 74);
    SameWords(a, f, hdr + 76);
    SameWords(a, f, hdr + 78);
    SameWords(b, g, hdr' + 38);
    SameWords(b, g, hdr' + 74);
    SameWords(b, g, hdr' + 76);
    SameWords(b, g, hdr' + 78);
    var h := a[hdr + 38 := d[hdr + 38]];
    GetAgrees(h, a, hdr + 36);
    GetAgrees(h, a, hdr + 76);
    GetAgrees(h, a, hdr + 78);
    TwoHalves(id, id');
  }

  lemma TwoHalves(x: int, y: int)
    requires 0 <= x < 0x1_0000_0000 && 0 <= y < 0x1_0000_0000
    ensures x == y <==> x / 0x1_0000 % 0x1_0000 == y / 0x1_0000 % 0x1_0000 && x % 0x1_0000 == y % 0x1_0000
  {
  }

  // ---------------------------------------------------------------- the firmware

  /** A patch word of an outgoing segment: a big-endian word at an offset. */
  datatype Patch = NoPatch | Patch(at: nat, v: int)

  predicate Lands(p: Patch, d: Packet) {
    p.Patch? ==> p.at + 2 <= |d|
  }

  function PutPatch(d: Packet, p: Patch): (r: Packet)
    requires Lands(p, d)
    ensures |r| == |d|
  {
    if p.Patch? then Put(d, p.at, p.v) else d
  }

  /** Up to four patches, in order. */
  function Patched(d: Packet, p0: Patch, p1: Patch, p2: Patch, p3: Patch): (r: Packet)
    requires Lands(p0, d) && Lands(p1, d) && Lands(p2, d) && Lands(p3, d)
    ensures |r| == |d|
  {
    PutPatch(PutPatch(PutPatch(PutPatch(d, p0), p1), p2), p3)
  }

  /** pppoe_len_patch. */
  function PppoePatch(d: Packet, v: int): (p: Patch)
    requires |d| >= 50
  {
    if PppoeAt(d) == 0 then NoPatch else Patch(PppoeAt(d), v)
  }

  lemma Slices(d: Packet, n: nat)
    requires n <= |d|
    ensures d[0..0 + n] == d[..n] && [] + d[0..0 + n] == d[..n] && (n == |d| ==> d[..n] == d)
  {
  }

  lemma Tail(d: Packet, n: nat)
    requires n <= |d|
    ensures d[n..n + (|d| - n)] == d[n..]
  {
  }

  lemma SameLike(a: Packet, b: Packet)
    requires |a| >= 50 && |b| >= 50 && PppoeAt(a) == PppoeAt(b)
    ensures forall x: Packet, v: int :: |x| >= 56 ==> PutPppoe(x, a, v) == PutPppoe(x, b, v)
  {
  }

  /** Patches that land before the end of a slice are patches of the slice. */
  lemma PatchPrefix(s: Packet, p: Patch, n: nat)
    requires n <= |s| && Lands(p, s[..n])
    ensures PutPatch(s, p)[..n] == PutPatch(s[..n], p)
  {
  }

  /** The bridge of one port and the held fragments. */
  class Bridge {
    var open: Packet
    var sent: seq<Packet>
    var dropped: seq<Packet>
    var heldV4: Held
    var heldV6: Held
    var fragId: int

    constructor ()
      ensures heldV4 == heldV6 == Nothing && open == [] && sent == dropped == [] && fragId == 0
    {
      open, sent, dropped, heldV4, heldV6, fragId := [], [], [], Nothing, Nothing, 0;
    }

    /** tunnel_seg: len bytes from off on, patched; the last one closes a packet. */
    method Seg(d: Packet, len: nat, off: nat, last: bool, p0: Patch, p1: Patch, p2: Patch, p3: Patch)
      requires off + len <= |d| && Lands(p0, d) && Lands(p1, d) && Lands(p2, d) && Lands(p3, d)
      modifies this`open, this`sent
      ensures var out := old(open) + Patched(d, p0, p1, p2, p3)[off..off + len];
              if last then sent == old(sent) + [out] && open == [] else sent == old(sent) && open == out
    {
      open := open + Patched(d, p0, p1, p2, p3)[off..off + len];
      if last {
        sent := sent + [open];
        open := [];
      }
    }

    /** frag_v4. */
    method FragV4(d: Packet, mtu: nat, hdr: nat)
      requires Splits(d, mtu, hdr) && mtu >= 20 && open == []
      modifies this`open, this`sent
      ensures open == [] && sent == old(sent) + [FragOneV4(d, mtu, hdr), FragTwoV4(d, mtu, hdr)]
    {
      hide Put, PppoeAt;
      var fp := Units(mtu - 20) * 8;
      Seg(d, fp + hdr + 52, 0, true,
          Patch(hdr + 34, fp + 20), Patch(hdr + 38, 0x2000), PppoePatch(d, fp + 22), NoPatch);
      assert sent == old(sent) + [FragOneV4(d, mtu, hdr)] by {
        Slices(PatchedV4(d, hdr, fp + 20, 0x2000, fp + 22), fp + hdr + 52);
      }
      Seg(d, hdr + 52, 0, false,
          Patch(hdr + 34, |d| - 32 - hdr - fp), Patch(hdr + 38, fp / 8), PppoePatch(d, |d| - fp - hdr - 30), NoPatch);
      Slices(PatchedV4(d, hdr, |d| - 32 - hdr - fp, fp / 8, |d| - fp - hdr - 30), hdr + 52);
      Tail(d, fp + hdr + 52);
      Seg(d, |d| - fp - hdr - 52, fp + hdr + 52, true, NoPatch, NoPatch, NoPatch, NoPatch);
    }

    /** One IPv6 fragment: headers, the scratch segment its patches fill, payload. */
    method SegsV6(e: Packet, hdr: nat, plen: int, next: Byte, off: int, id: int, from: nat, n: nat)
      requires 72 + hdr <= |e| && from + n <= |e| && open == []
      modifies this`open, this`sent
      ensures open == []
      ensures sent == old(sent) + [PutPppoe(Put(e, hdr + 36, plen), e, plen + 42)[..hdr + 72]
                                   + FragHeader(next, off, id) + e[from..from + n]]
    {
      hide Put, PppoeAt;
      var scratch: Packet := seq(8, i => 0);
      var top: int := next;
      Seg(e, hdr + 72, 0, false, Patch(hdr + 36, plen), PppoePatch(e, plen + 42), NoPatch, NoPatch);
      Slices(PutPppoe(Put(e, hdr + 36, plen), e, plen + 42), hdr + 72);
      Seg(scratch, 8, 0, false, Patch(0, top * 256), Patch(2, off), Patch(4, id / 0x1_0000), Patch(6, id));
      Slices(FragHeader(next, off, id), 8);
      Seg(e, n, from, true, NoPatch, NoPatch, NoPatch, NoPatch);
    }

    /** frag_v6. */
    method FragV6(d: Packet, mtu: nat, hdr: nat) returns (id: int)
      requires Splits(d, mtu, hdr) && mtu >= 48 && open == []
      modifies this`open, this`sent, this`fragId
      ensures id == fragId == (old(fragId) + 1) % 0x1_0000_0000
      ensures open == [] && sent == old(sent) + [FragOneV6(d, mtu, hdr, id), FragTwoV6(d, mtu, hdr, id)]
    {
      hide Put, PppoeAt, Get, PutPppoe, FragHeader;
      var fs := Units(mtu - 48) * 8;
      var next := d[hdr + 38];
      var e := d[hdr + 38 := 44];
      SamePppoe(e, d, hdr);
      SameLike(e, d);
      fragId := (fragId + 1) % 0x1_0000_0000;
      id := fragId;
      SegsV6(e, hdr, fs + 8, next, 1, id, hdr + 72, fs);
      assert e[hdr + 72..hdr + 72 + fs] == d[hdr + 72..hdr + 72 + fs];
      SegsV6(e, hdr, |d| - 64 - hdr - fs, next, fs, id, hdr + 72 + fs, |d| - hdr - fs - 72);
      Tail(e, hdr + 72 + fs);
      assert e[hdr + 72 + fs..] == d[hdr + 72 + fs..];
    }

    /** reasm_v4: a new first fragment drops the held one. */
    method ReasmV4(d: Packet, hdr: nat) returns (r: Outcome)
      requires 4 <= hdr && 52 + hdr <= |d| && open == []
      requires heldV4.First? ==> 52 + heldV4.hdr <= |heldV4.d| && 56 <= |heldV4.d|
      modifies this`open, this`sent, this`dropped, this`heldV4
      ensures (heldV4, r) == JoinV4(old(heldV4), d, hdr) && open == []
      ensures sent == old(sent) + if r.Sent? then [r.whole] else []
      ensures dropped == old(dropped) + if r.Holds? && old(heldV4).First? then [old(heldV4).d] else []
    {
      hide Get, Put, PppoeAt, Ihl;
      if Get(d, hdr + 38) / 0x2000 % 2 == 1 {
        if heldV4.First? {
          dropped := dropped + [heldV4.d];
        }
        heldV4 := First(Put(d, hdr + 38, Get(d, hdr + 38) - 0x2000), hdr);
        return Holds;
      }
      if heldV4.Nothing? {
        return Refused;
      }
      var s, h := heldV4.d, heldV4.hdr;
      if Get(s, h + 36) != Get(d, hdr + 36) {
        return Refused;
      }
      if Get(d, hdr + 38) * 8 % 0x1_0000 != Get(s, h + 34) - Ihl(s, h) {
        return Refused;
      }
      s := Put(s, h + 34, Get(s, h + 34) + |d| - 52 - hdr);
      var p := PppoePatch(d, |s| - 82 - h + |d| - hdr);
      Seg(s, |s|, 0, false, p, NoPatch, NoPatch, NoPatch);
      Slices(PutPatch(s, p), |s|);
      Tail(d, hdr + 52);
      Seg(d, |d| - 52 - hdr, hdr + 52, true, NoPatch, NoPatch, NoPatch, NoPatch);
      heldV4 := Nothing;
      r := Sent(PutPppoe(s, d, |s| - 82 - h + |d| - hdr) + d[hdr + 52..]);
    }

    /** The joined IPv6 packet: headers, first payload, rest. */
    method SegsJoinedV6(s: Packet, h: nat, d: Packet, hdr: nat)
      requires 80 + h <= |s| && 80 + hdr <= |d| && open == []
      modifies this`open, this`sent
      ensures open == []
      ensures sent == old(sent) + [PutPppoe(s[..h + 72], d, |s| - 118 - h + |d| - hdr) + s[h + 80..] + d[hdr + 80..]]
    {
      hide Put, PppoeAt;
      var p := PppoePatch(d, |s| - 118 - h + |d| - hdr);
      PatchPrefix(s, p, h + 72);
      Seg(s, h + 72, 0, false, p, NoPatch, NoPatch, NoPatch);
      Slices(PutPatch(s, p), h + 72);
      Tail(s, h + 80);
      Tail(d, hdr + 80);
      Seg(s, |s| - 80 - h, h + 80, false, NoPatch, NoPatch, NoPatch, NoPatch);
      Seg(d, |d| - 80 - hdr, hdr + 80, true, NoPatch, NoPatch, NoPatch, NoPatch);
    }

    /** reasm_v6. */
    method ReasmV6(d: Packet, hdr: nat) returns (r: Outcome)
      requires 80 + hdr <= |d| && open == []
      requires heldV6.First? ==> 80 + heldV6.hdr <= |heldV6.d|
      modifies this`open, this`sent, this`dropped, this`heldV6
      ensures (heldV6, r) == JoinV6(old(heldV6), d, hdr) && open == []
      ensures sent == old(sent) + if r.Sent? then [r.whole] else []
      ensures dropped == old(dropped) + if r.Holds? && old(heldV6).First? then [old(heldV6).d] else []
    {
      hide Get, Put, PppoeAt, PutPppoe;
      if d[hdr + 38] != 44 {
        return Refused;
      }
      if Get(d, hdr + 74) % 2 == 1 {
        if heldV6.First? {
          dropped := dropped + [heldV6.d];
        }
        heldV6 := First(d[hdr + 38 := d[hdr + 72]], hdr);
        return Holds;
      }
      if heldV6.Nothing? {
        return Refused;
      }
      var s, h := heldV6.d, heldV6.hdr;
      if Get(s, h + 76) != Get(d, hdr + 76) || Get(s, h + 78) != Get(d, hdr + 78) {
        return Refused;
      }
      if Get(d, hdr + 74) - Get(d, hdr + 74) % 8 != Get(s, h + 36) - 8 {
        return Refused;
      }
      s := Put(s, h + 36, Get(s, h + 36) + |d| - 88 - hdr);
      SegsJoinedV6(s, h, d, hdr);
      heldV6 := Nothing;
      r := Sent(PutPppoe(s[..h + 72], d, |s| - 118 - h + |d| - hdr) + s[h + 80..] + d[hdr + 80..]);
    }
  }
}
