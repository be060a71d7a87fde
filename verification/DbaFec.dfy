/** The pass of dba_bwmap_switch over a FEC ONU: grants sorted by bandwidth,
    then grown one after the other so that no boundary between two of them
    falls on the parity bytes of RS(255,239). */
module DbaFec {
  import opened Basics
  import opened WaterFill
  import opened DbaRequest

  // ---------------------------------------------------------------- the list

  /** T-CONT t of an ONU, when the ONU count n is the power of two that shifts it. */
  function IdxOf(n: nat, onu: nat, t: nat): nat {
    onu + t * n
  }

  /** The first T-CONT with a grant stays in front, the others are sorted. */
  function FecList(c: seq<Alloc>, n: nat, onu: nat, t: nat): (l: seq<nat>)
    requires forall j :: 0 <= j < t ==> IdxOf(n, onu, j) < |c|
    ensures |l| <= t && forall i :: 0 <= i < |l| ==> l[i] < |c|
  {
    if t == 0 then []
    else
      var l, x := FecList(c, n, onu, t - 1), IdxOf(n, onu, t - 1);
      if !c[x].valid || c[x].cur == 0 then l
      else if l == [] then [x]
      else [l[0]] + Sink(c, l[1..], x)
  }

  predicate Granting(a: Alloc) {
    a.valid && a.cur != 0
  }

  /** y is the context of a granting T-CONT of the ONU below t. */
  predicate OnuGrant(c: seq<Alloc>, n: nat, onu: nat, t: nat, y: nat) {
    exists j: nat :: j < t && y == IdxOf(n, onu, j) && y < |c| && Granting(c[y])
  }

  lemma OnuGrantNext(c: seq<Alloc>, n: nat, onu: nat, t: nat)
    requires n > 0 && IdxOf(n, onu, t) < |c|
    ensures forall y: nat :: OnuGrant(c, n, onu, t + 1, y) <==>
      OnuGrant(c, n, onu, t, y) || (y == IdxOf(n, onu, t) && Granting(c[y]))
    ensures !OnuGrant(c, n, onu, t, IdxOf(n, onu, t))
  {
    IdxGrows(n, onu, t);
    hide IdxOf;
  }

  /** The list holds each granting T-CONT of the ONU once. */
  lemma {:induction false} FecListDistinct(c: seq<Alloc>, n: nat, onu: nat, t: nat)
    requires n > 0 && (forall j :: 0 <= j < t ==> IdxOf(n, onu, j) < |c|)
    ensures Distinct(FecList(c, n, onu, t))
    ensures forall y: nat :: y in FecList(c, n, onu, t) <==> OnuGrant(c, n, onu, t, y)
  {
    hide Sink, Distinct, IdxOf;
    if t == 0 {
      NoRequests(c);
    } else {
      hide OnuGrant;
      FecListDistinct(c, n, onu, t - 1);
      OnuGrantNext(c, n, onu, t - 1);
      var l, x := FecList(c, n, onu, t - 1), IdxOf(n, onu, t - 1);
      if Granting(c[x]) {
        if l == [] { AloneSorted(c, x); } else { FrontDistinct(c, l, x); }
      }
    }
  }

  /** Behind its first T-CONT the list is sorted by bandwidth. */
  lemma {:induction false} FecListSorted(c: seq<Alloc>, n: nat, onu: nat, t: nat)
    requires forall j :: 0 <= j < t ==> IdxOf(n, onu, j) < |c|
    requires forall i :: 0 <= i < |c| && c[i].valid ==> 0 <= c[i].cur < 0x1_0000
    ensures var l := FecList(c, n, onu, t); l != [] ==> SortedBy(c, l[1..])
  {
    hide Sink, SortedBy, IdxOf;
    if t > 0 {
      FecListSorted(c, n, onu, t - 1);
      var l, x := FecList(c, n, onu, t - 1), IdxOf(n, onu, t - 1);
      if Granting(c[x]) {
        if l == [] {
          AloneSorted(c, x);
        } else {
          SinkSorted(c, l[1..], x);
          assert ([l[0]] + Sink(c, l[1..], x))[1..] == Sink(c, l[1..], x);
        }
      }
    }
  }

  lemma AloneSorted(c: seq<Alloc>, x: nat)
    ensures Distinct([x]) && SortedBy(c, [x][1..])
  {
  }

  lemma {:induction false} IdxGrows(n: nat, onu: nat, t: nat)
    requires n > 0
    ensures forall j :: 0 <= j < t ==> IdxOf(n, onu, j) < IdxOf(n, onu, t)
  {
    if t > 0 {
      IdxGrows(n, onu, t - 1);
      assert IdxOf(n, onu, t) == IdxOf(n, onu, t - 1) + n;
    }
  }

  lemma FrontDistinct(c: seq<Alloc>, l: seq<nat>, x: nat)
    requires l != [] && x < |c| && (forall i :: 0 <= i < |l| ==> l[i] < |c|)
    requires Distinct(l) && x !in l
    ensures var r := [l[0]] + Sink(c, l[1..], x);
            Distinct(r) && forall y :: y in r <==> y in l || y == x
  {
    hide Sink;
    var s := Sink(c, l[1..], x);
    SinkDistinct(c, l[1..], x);
    assert l == [l[0]] + l[1..];
    assert forall i :: 0 <= i < |s| ==> s[i] in s && s[i] != l[0];
  }

  // ---------------------------------------------------------------- one grant

  /** A grant after its turn, its length in code bytes, and what it grew. */
  datatype Step = Step(cur: int, len: int, delta: int)

  function Unit(olt: bool): (m: int)
    ensures m == 1 || m == 2
  {
    if olt then 2 else 1
  }

  /** The floor every grant is lifted to: 2, and 18 for the last one. */
  function Lifted(last: bool, cur: int): int {
    var c := if cur <= 1 then 2 else cur;
    if last && c < 18 then 18 else c
  }

  function Turn(olt: bool, last: bool, acc: int, cur: int): Step {
    var delta := if cur <= 1 then U16(2 - cur) else 0;
    var up := Lifted(last, cur);
    if olt then OltTurn(last, acc, up, delta) else OnuTurn(last, acc, up, delta)
  }

  /** The OLT counts half units, so a grown length is kept even. */
  function OltTurn(last: bool, acc: int, up: int, delta: int): Step {
    var len := up * 2;
    var rem := (acc + len + 2) % 255;
    if rem > 238 then
      if last then Step(up, len, delta)
      else if (len - rem + 255) % 2 == 1 then
        Step((len - rem + 256) / 2, len - rem + 256, U16(delta + (256 - rem) / 2))
      else
        Step((len - rem + 255) / 2, len - rem + 255, U16(delta + (255 - rem) / 2))
    else if !last then
      if (acc + len + 3) % 255 > 236 then Step((len + 20) / 2, len + 20, U16(delta + 10))
      else Step(up, len, delta)
    else if rem < 18 then
      var cut := len - rem;
      var even := cut + cut % 2 - 2;
      Step(even / 2, even, delta)
    else Step(up, len, delta)
  }

  function OnuTurn(last: bool, acc: int, up: int, delta: int): Step {
    var rem := (acc + up + 2) % 255;
    if rem > 238 then
      if last then Step(up, up, delta) else Step(up + 255 - rem, up + 255 - rem, U16(delta + 255 - rem))
    else if !last then
      if (acc + up + 3) % 255 > 236 then Step(up + 19, up + 19, U16(delta + 19))
      else Step(up, up, delta)
    else if rem < 18 then Step(up - (rem + 1), up - (rem + 1), delta)
    else Step(up, up, delta)
  }

  /** All turns: what one grant grew is taken from the next. */
  function Spread(olt: bool, g: seq<int>, acc: int): (r: seq<int>)
    ensures |r| == |g|
    decreases |g|
  {
    if g == [] then []
    else
      var s := Turn(olt, |g| == 1, acc, g[0]);
      [s.cur] + Spread(olt, Paid(g[1..], s.delta), U16(acc + s.len))
  }

  function Paid(g: seq<int>, delta: int): (r: seq<int>)
    ensures |r| == |g|
  {
    if g == [] then [] else g[0 := g[0] - delta]
  }

  // ---------------------------------------------------------------- boundaries

  lemma Residue(a: int, q: int, r: int)
    requires a == 255 * q + r && 0 <= r < 255
    ensures a % 255 == r
  {
  }

  /** A grant that is not the last pays for its growth exactly, and ends off parity. */
  lemma InnerTurn(olt: bool, acc: int, cur: int)
    requires 0 <= acc && -0x4000 <= cur
    ensures var s := Turn(olt, false, acc, cur);
            && s.len == Unit(olt) * s.cur && s.cur >= 2
            && s.cur == cur + s.delta && 0 <= s.delta <= (if cur <= 1 then 2 - cur else 0) + 19
            && (acc + s.len + 2) % 255 <= 235
  {
    hide OltTurn, OnuTurn, U16;
    var up := Lifted(false, cur);
    var delta := if cur <= 1 then 2 - cur else 0;
    if cur <= 1 { U16Small(2 - cur); }
    assert up == cur + delta && up >= 2;
    if olt { OltInner(acc, up, delta); } else { OnuInner(acc, up, delta); }
  }

  lemma OltInner(acc: int, up: int, delta: int)
    requires 0 <= acc && 2 <= up && 0 <= delta <= 0x8000
    ensures var s := OltTurn(false, acc, up, delta);
            && s.len == 2 * s.cur && s.cur - up == s.delta - delta
            && 0 <= s.delta - delta <= 10 && (acc + s.len + 2) % 255 <= 235
  {
    var at := acc + up * 2 + 2;
    var rem := at % 255;
    if rem > 238 {
      var odd := (255 - rem) % 2;
      OltGrows(acc, up, delta, rem, odd);
      Residue(at + 255 - rem + odd, at / 255 + 1, odd);
    } else {
      Residue(at + 1, at / 255, rem + 1);
      if rem >= 236 { Residue(at + 20, at / 255 + 1, rem - 235); }
    }
  }

  lemma OltGrows(acc: int, up: int, delta: int, rem: int, odd: int)
    requires rem == (acc + up * 2 + 2) % 255 && rem > 238 && odd == (255 - rem) % 2 && 0 <= delta <= 0x8000
    ensures var grown := 255 - rem + odd;
            && grown % 2 == 0 && grown <= 16
            && OltTurn(false, acc, up, delta) == Step(up + grown / 2, up * 2 + grown, delta + grown / 2)
  {
    assert (up * 2 - rem + 255) % 2 == odd;
  }

  lemma OnuInner(acc: int, up: int, delta: int)
    requires 0 <= acc && 2 <= up && 0 <= delta <= 0x8000
    ensures var s := OnuTurn(false, acc, up, delta);
            && s.len == s.cur && s.cur - up == s.delta - delta
            && 0 <= s.delta - delta <= 19 && (acc + s.len + 2) % 255 <= 235
  {
    var at := acc + up + 2;
    var q, rem := at / 255, at % 255;
    var s := OnuTurn(false, acc, up, delta);
    if rem > 238 {
      Residue(acc + s.len + 2, q + 1, 0);
    } else {
      Residue(at + 1, q, rem + 1);
      if rem >= 236 { Residue(acc + s.len + 2, q + 1, rem - 236); }
    }
  }

  /** The last grant is lifted to 18 and gives up at most 18 to leave a full
      code word's first bytes. */
  lemma LastTurn(olt: bool, acc: int, cur: int)
    requires 0 <= acc
    ensures var s, up := Turn(olt, true, acc, cur), Lifted(true, cur);
            && s.len == Unit(olt) * s.cur && up - 18 <= s.cur <= up && 0 <= s.cur
            && (acc + s.len + 2) % 255 >= 18
  {
    var up := Lifted(true, cur);
    var delta := if cur <= 1 then U16(2 - cur) else 0;
    if olt { OltLast(acc, up, delta); } else { OnuLast(acc, up, delta); }
  }

  lemma OltLast(acc: int, up: int, delta: int)
    requires 0 <= acc && 18 <= up
    ensures var s := OltTurn(true, acc, up, delta);
            && s.len == 2 * s.cur && up - 9 <= s.cur <= up && (acc + s.len + 2) % 255 >= 18
  {
    var at := acc + up * 2 + 2;
    var q, rem := at / 255, at % 255;
    if rem < 18 {
      var s := OltTurn(true, acc, up, delta);
      var odd := (up * 2 - rem) % 2;
      assert s.len == up * 2 - rem + odd - 2;
      Residue(acc + s.len + 2, q - 1, 253 + odd);
    }
  }

  lemma OnuLast(acc: int, up: int, delta: int)
    requires 0 <= acc && 18 <= up
    ensures var s := OnuTurn(true, acc, up, delta);
            && s.len == s.cur && up - 18 <= s.cur <= up && (acc + s.len + 2) % 255 >= 18
  {
    var at := acc + up + 2;
    var q, rem := at / 255, at % 255;
    if rem < 18 {
      Residue(acc + OnuTurn(true, acc, up, delta).len + 2, q - 1, 254);
    }
  }

  // ---------------------------------------------------------------- the whole pass

  /** Where grant k ends, in code bytes from the start of the burst. */
  function EndOf(olt: bool, r: seq<int>, k: nat): int
    requires k < |r|
  {
    Unit(olt) * Sum(r[..k + 1])
  }

  /** Inner boundaries keep off the parity, the last ends past byte 18. */
  predicate OffParity(olt: bool, r: seq<int>, acc: int) {
    forall k :: 0 <= k < |r| ==>
      if k < |r| - 1 then (acc + EndOf(olt, r, k) + 2) % 255 <= 235 else (acc + EndOf(olt, r, k) + 2) % 255 >= 18
  }

  /** The same by the position the pass keeps, in 16 bits. */
  predicate KeptOff(olt: bool, r: seq<int>, acc: int)
    decreases |r|
  {
    r == [] ||
    var end := acc + Unit(olt) * r[0];
    if |r| == 1 then (end + 2) % 255 >= 18 else (end + 2) % 255 <= 235 && KeptOff(olt, r[1..], U16(end))
  }

  /** The pass in hand: d is the most the first grant has been docked. */
  predicate Payable(g: seq<int>, d: int) {
    && g != [] && 0 <= d && 20 * |g| + d <= 400
    && g[0] >= 1 - d && (forall i :: 1 <= i < |g| ==> g[i] >= 1)
  }

  /** What the grants before the last leave of the ONU's bandwidth. */
  function LeftForLast(g: seq<int>, r: seq<int>): int
    requires r != []
  {
    Sum(g) - Sum(r[..|r| - 1])
  }

  lemma {:induction false} SumFloor(g: seq<int>)
    requires forall i :: 0 <= i < |g| ==> g[i] >= 1
    ensures Sum(g) >= 0
  {
    if g != [] { SumFloor(g[1..]); }
  }

  lemma SumRest(g: seq<int>)
    requires g != []
    ensures Sum(g) == g[0] + Sum(g[1..])
  {
  }

  lemma PaidSum(g: seq<int>, delta: int)
    requires |g| > 1 && forall i :: 1 <= i < |g| ==> g[i] >= 1
    ensures var rest := Paid(g[1..], delta);
            && rest[0] == g[1] - delta && (forall i :: 1 <= i < |rest| ==> rest[i] >= 1)
            && Sum(rest) == Sum(g) - g[0] - delta && Sum(rest) >= 1 - delta
  {
    hide Sum;
    var rest := Paid(g[1..], delta);
    SumRest(g);
    SumRest(g[1..]);
    SumRest(rest);
    assert g[1..][1..] == rest[1..];
    SumFloor(rest[1..]);
  }

  /** One inner turn keeps the pass in hand. */
  lemma PayableNext(g: seq<int>, d: int, s: Step)
    requires Payable(g, d) && |g| > 1
    requires s.cur == g[0] + s.delta && 0 <= s.delta <= (if g[0] <= 1 then 2 - g[0] else 0) + 19
    ensures var rest := Paid(g[1..], s.delta); Payable(rest, s.delta) && Sum(rest) == Sum(g) - s.cur
  {
    hide Paid, Sum;
    PaidSum(g, s.delta);
  }

  lemma U16Small(x: int)
    requires 0 <= x < 0x1_0000
    ensures U16(x) == x
  {
  }

  lemma EndsShift(olt: bool, x: int, r: seq<int>, acc: int)
    requires r != [] && OffParity(olt, r, acc + Unit(olt) * x) && (acc + Unit(olt) * x + 2) % 255 <= 235
    ensures OffParity(olt, [x] + r, acc)
    ensures ([x] + r)[..|r|] == [x] + r[..|r| - 1] && Sum(([x] + r)[..|r|]) == x + Sum(r[..|r| - 1])
  {
    var t := [x] + r;
    SumFirst(x, r[..|r| - 1]);
    assert t[..|r|] == [x] + r[..|r| - 1];
    forall k | 0 <= k < |t| ensures EndOf(olt, t, k) == Unit(olt) * x + if k == 0 then 0 else EndOf(olt, r, k - 1) {
      assert t[..k + 1] == [x] + r[..k];
      SumFirst(x, r[..k]);
      assert Unit(olt) * (x + Sum(r[..k])) == Unit(olt) * x + Unit(olt) * Sum(r[..k]);
    }
  }

  /** The pass over one ONU: inner boundaries keep off the parity and grants keep
      at least 2; each growth is paid by the next grant, so the last one gets
      what is left of the ONU's bandwidth, lifted to 18, less at most 18. */
  lemma {:induction false} SpreadOk(olt: bool, g: seq<int>, acc: int, d: int)
    requires Payable(g, d) && 0 <= acc
    ensures var r := Spread(olt, g, acc);
            var n, up := |r|, Lifted(true, LeftForLast(g, r));
            && KeptOff(olt, r, acc)
            && (forall k :: 0 <= k < n - 1 ==> r[k] >= 2)
            && 0 <= r[n - 1] && up - 18 <= r[n - 1] <= up
    decreases |g|
  {
    hide Turn, Payable, KeptOff, Lifted, U16, Paid, Sum, Unit;
    var r := Spread(olt, g, acc);
    PayableBounds(g, d);
    if |g| == 1 {
      LastTurn(olt, acc, g[0]);
      LastAlone(olt, g, acc);
    } else {
      var s := Turn(olt, false, acc, g[0]);
      InnerTurn(olt, acc, g[0]);
      PayableNext(g, d, s);
      var rest := Spread(olt, Paid(g[1..], s.delta), U16(acc + s.len));
      SpreadOk(olt, Paid(g[1..], s.delta), U16(acc + s.len), s.delta);
      assert r == [s.cur] + rest;
      KeptMore(olt, s.cur, rest, acc);
    }
  }

  lemma PayableBounds(g: seq<int>, d: int)
    requires Payable(g, d)
    ensures g != [] && g[0] >= -0x4000
  {
  }

  lemma KeptMore(olt: bool, x: int, r: seq<int>, acc: int)
    requires r != [] && (acc + Unit(olt) * x + 2) % 255 <= 235 && KeptOff(olt, r, U16(acc + Unit(olt) * x))
    ensures KeptOff(olt, [x] + r, acc)
    ensures Sum(([x] + r)[..|r|]) == x + Sum(r[..|r| - 1])
  {
    var t := [x] + r;
    assert t[1..] == r && t[..|r|] == [x] + r[..|r| - 1];
    SumFirst(x, r[..|r| - 1]);
  }

  /** The kept position is the true one as long as the grants before the last
      fit 16 bits. */
  lemma {:induction false} TruePositions(olt: bool, r: seq<int>, acc: int)
    requires r != [] && KeptOff(olt, r, acc) && 0 <= acc
    requires forall k :: 0 <= k < |r| - 1 ==> r[k] >= 0
    requires acc + Unit(olt) * Sum(r[..|r| - 1]) < 0x1_0000
    ensures OffParity(olt, r, acc)
    decreases |r|
  {
    hide OffParity, U16;
    if |r| == 1 {
      LastAt(olt, r, acc);
    } else {
      var x, rest := r[0], r[1..];
      assert r == [x] + rest;
      InnerSum(rest, x, r);
      assert Unit(olt) * (x + Sum(rest[..|rest| - 1])) == Unit(olt) * x + Unit(olt) * Sum(rest[..|rest| - 1]);
      U16Small(acc + Unit(olt) * x);
      TruePositions(olt, rest, acc + Unit(olt) * x);
      EndsShift(olt, x, rest, acc);
    }
  }

  lemma InnerSum(rest: seq<int>, x: int, r: seq<int>)
    requires r == [x] + rest && rest != [] && forall k :: 0 <= k < |rest| - 1 ==> rest[k] >= 0
    ensures Sum(r[..|r| - 1]) == x + Sum(rest[..|rest| - 1]) && Sum(rest[..|rest| - 1]) >= 0
  {
    assert r[..|r| - 1] == [x] + rest[..|rest| - 1];
    SumFirst(x, rest[..|rest| - 1]);
    SumPositive(rest[..|rest| - 1]);
  }

  lemma {:induction false} SumPositive(g: seq<int>)
    requires forall i :: 0 <= i < |g| ==> g[i] >= 0
    ensures Sum(g) >= 0
  {
    if g != [] { SumPositive(g[1..]); }
  }

  lemma LastAt(olt: bool, r: seq<int>, acc: int)
    requires |r| == 1 && (acc + Unit(olt) * r[0] + 2) % 255 >= 18
    ensures OffParity(olt, r, acc)
  {
    assert r[..1] == r && Sum(r) == r[0] + Sum(r[1..]);
  }

  lemma LastAlone(olt: bool, g: seq<int>, acc: int)
    requires |g| == 1 && Turn(olt, true, acc, g[0]).len == Unit(olt) * Turn(olt, true, acc, g[0]).cur
    requires (acc + Turn(olt, true, acc, g[0]).len + 2) % 255 >= 18
    ensures var r := Spread(olt, g, acc);
            |r| == 1 && r[0] == Turn(olt, true, acc, g[0]).cur && LeftForLast(g, r) == g[0] && KeptOff(olt, r, acc)
  {
    hide Turn;
    var r := Spread(olt, g, acc);
    assert Sum(g) == g[0] + Sum(g[1..]);
    assert r[..0] == [];
  }
}
