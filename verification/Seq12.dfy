/** Twelve-bit sequence numbers as the firmware compares them. */
module Seq12 {

  /** x & 0xFFF on a 32-bit register: 2^32 is a multiple of 4096. */
  function Low12(x: int): (r: int)
    ensures 0 <= r < 4096
  {
    x % 4096
  }

  /** x & 0x800 on a 32-bit register, signed or not. */
  predicate Bit11(x: int) {
    (x / 2048) % 2 == 1
  }

  lemma Bit11Half(x: int)
    ensures Bit11(x) <==> Low12(x) >= 2048
  {
    var q := x / 4096;
    var r := x % 4096;
    assert x == 4096 * q + r;
    if r >= 2048 {
      assert x == 2048 * (2 * q + 1) + (r - 2048);
      assert x / 2048 == 2 * q + 1;
    } else {
      assert x == 2048 * (2 * q) + r;
      assert x / 2048 == 2 * q;
    }
  }

  /** Two numbers less than half the space apart: bit 11 of the difference of
      their low 12 bits is integer comparison. */
  lemma Bit11Compares(a: int, b: int)
    requires -2048 <= a - b < 2048
    ensures Bit11(Low12(a) - Low12(b)) <==> a < b
    ensures Low12(a) == Low12(b) <==> a == b
  {
    Bit11Half(Low12(a) - Low12(b));
    var qa, qb := a / 4096, b / 4096;
    assert a == 4096 * qa + Low12(a) && b == 4096 * qb + Low12(b);
    var d := Low12(a) - Low12(b);
    assert a - b == 4096 * (qa - qb) + d;
    assert -4096 < d < 4096;
    assert -1 <= qa - qb <= 1;
  }

  lemma Low12Add(a: int, k: int)
    ensures Low12(Low12(a) + k) == Low12(a + k)
  {
    var q := a / 4096;
    assert a == 4096 * q + Low12(a);
    var q2 := (Low12(a) + k) / 4096;
    assert a + k == 4096 * (q + q2) + Low12(Low12(a) + k);
    LowUnique(a + k, q + q2, Low12(Low12(a) + k));
  }

  lemma LowUnique(x: int, q: int, r: int)
    requires x == 4096 * q + r && 0 <= r < 4096
    ensures Low12(x) == r
  {
  }

  lemma DifferentLow(a: int, b: int)
    requires 0 < a - b < 4096
    ensures Low12(a) != Low12(b)
  {
    var qa, qb := a / 4096, b / 4096;
    assert a - b == 4096 * (qa - qb) + (Low12(a) - Low12(b));
  }

  lemma SameLow(a: int, b: int)
    requires Low12(a) == Low12(b) && -4096 < a - b < 4096
    ensures a == b
  {
    if a > b { DifferentLow(a, b); }
    if b > a { DifferentLow(b, a); }
  }

  lemma LowDiff(a: int, b: int)
    requires 0 <= a - b < 4096
    ensures Low12(Low12(a) - Low12(b)) == a - b
  {
    var qa, qb := a / 4096, b / 4096;
    assert Low12(a) - Low12(b) == 4096 * (qb - qa) + (a - b);
    LowUnique(Low12(a) - Low12(b), qb - qa, a - b);
  }

  lemma SpentMoves(l: int, l': int, ref: int, d: int)
    requires 0 <= ref < 4096 && d == Low12(Low12(l) - ref) && l <= l' && d + (l' - l) < 4096
    ensures Low12(Low12(l') - ref) == d + (l' - l)
  {
    Low12Add(l, -ref);
    Low12Add(l', -ref);
    var q := (l - ref) / 4096;
    assert l - ref == 4096 * q + d;
    LowUnique(l' - ref, q, d + (l' - l));
  }

  lemma LowNegated(x: int)
    ensures Low12(x) + Low12(-x) == if Low12(x) == 0 then 0 else 4096
  {
    var q := x / 4096;
    assert x == 4096 * q + Low12(x);
    if Low12(x) != 0 { LowUnique(-x, -q - 1, 4096 - Low12(x)); } else { LowUnique(-x, -q, 0); }
  }
}
