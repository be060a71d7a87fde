/** npu_isqrt: the integer square root, one bit a turn. */
module ISqrt {

  /** r is the floor of the square root of x. */
  predicate IsRoot(x: nat, r: nat) {
    r * r <= x < (r + 1) * (r + 1)
  }

  /** The floor of the square root, by counting. */
  function FloorRoot(x: nat): (r: nat)
    ensures IsRoot(x, r)
  {
    if x == 0 then 0
    else
      var r := FloorRoot(x - 1);
      if (r + 1) * (r + 1) <= x then r + 1 else r
  }

  /** 4 to the k. */
  function Pow4(k: nat): (b: nat)
    ensures b >= 1
  {
    if k == 0 then 1 else 4 * Pow4(k - 1)
  }

  function Pow2(k: nat): (p: nat)
    ensures p >= 1 && p * p == Pow4(k)
  {
    if k == 0 then 1 else 2 * Pow2(k - 1)
  }

  /** The loop before the bit p of the root: b is its square, root the part found,
      a multiple of 2 * p, and what is left is less than one more such bit. */
  predicate Turn(x0: nat, x: int, r: int, b: int, root: nat, k: nat) {
    var p := Pow2(k);
    && b == p * p && r == 2 * root * p && 0 <= x == x0 - root * root
    && x0 < (root + 2 * p) * (root + 2 * p)
    && root + 2 * p <= 0x1_0000
  }

  /** After the last bit. */
  predicate Found(x0: nat, r: int, root: nat) {
    r == root && IsRoot(x0, root)
  }

  lemma TakeBit(x0: nat, x: int, r: int, b: int, root: nat, k: nat)
    requires Turn(x0, x, r, b, root, k)
    ensures var p := Pow2(k);
            && 0 < r + b < 0x1_0000_0000 && r / 2 == root * p && r / 2 + b == (root + p) * p
            && (x >= r + b ==> 0 <= x - (r + b) == x0 - (root + p) * (root + p))
            && (x < r + b ==> x0 < (root + p) * (root + p))
  {
    hide Pow2;
    var p := Pow2(k);
    BitSquare(root, p);
    Squares(root + p, 0xFFFF);
    Squares(0, root);
  }

  lemma BitSquare(root: nat, p: nat)
    ensures 2 * root * p == 2 * (root * p)
    ensures (root + p) * (root + p) == root * root + 2 * (root * p) + p * p
    ensures (root + p) * p == root * p + p * p
  {
  }

  /** With the bit settled, the loop stands before the next one, or is done. */
  lemma NextBit(x0: nat, x: int, root: nat, k: nat)
    requires var p := Pow2(k);
             0 <= x == x0 - root * root && x0 < (root + p) * (root + p) && root + p <= 0x1_0000
    ensures var p := Pow2(k);
            if k == 0 then Found(x0, root * p, root) && p * p / 4 == 0
            else Turn(x0, x, root * p, p * p / 4, root, k - 1) && p * p / 4 == Pow4(k - 1)
  {
    if k > 0 {
      var q := Pow2(k - 1);
      assert Pow2(k) == 2 * q;
      Doubled(q);
      assert root * (2 * q) == 2 * root * q;
    } else {
      assert root * 1 == root;
    }
  }

  lemma Start(x0: nat, k: nat)
    requires k <= 15 && x0 < 4 * Pow4(k)
    ensures Turn(x0, x0, 0, Pow4(k), 0, k)
  {
    hide Pow2, Pow4;
    var p := Pow2(k);
    PowBound(k);
    Doubled(p);
    assert 2 * 0 * p == 0;
    assert x0 < (0 + 2 * p) * (0 + 2 * p);
  }

  lemma Doubled(p: nat)
    ensures (2 * p) * (2 * p) == 4 * (p * p)
  {
  }

  lemma {:induction false} PowBound(k: nat)
    requires k <= 15
    ensures 2 * Pow2(k) <= 0x1_0000 && Pow4(k) <= 0x4000_0000 && (k == 15 ==> Pow4(k) == 0x4000_0000)
  {
    PowValues();
    if k < 15 { PowGrows(k, 15); }
  }

  lemma PowValues()
    ensures Pow2(15) == 0x8000 && Pow4(15) == 0x4000_0000
  {
    assert Pow2(5) == 32 && Pow4(5) == 1024;
    assert Pow2(10) == 1024 && Pow4(10) == 1024 * 1024;
  }

  lemma {:induction false} PowGrows(k: nat, m: nat)
    requires k <= m
    ensures Pow2(k) <= Pow2(m) && Pow4(k) <= Pow4(m)
  {
    if k < m { PowGrows(k, m - 1); }
  }

  /** The floor of the square root of any 32-bit x. */
  method Root(x0: nat) returns (r: nat)
    requires x0 < 0x1_0000_0000
    ensures r == FloorRoot(x0)
  {
    hide Turn, Found, Pow2, Pow4, IsRoot, FloorRoot;
    var x, b := x0, 0x4000_0000;
    r := 0;
    ghost var k: nat, root: nat := 15, 0;
    PowBound(15);
    while b > x
      invariant if b == 0 then x0 == 0 else k <= 15 && b == Pow4(k) && x0 < 4 * b
      decreases b
    {
      Quarter(k);
      if k > 0 { k := k - 1; }
      b := b / 4;
    }
    if b == 0 {
      Zero();
    } else {
      Start(x0, k);
    }
    while b != 0
      invariant if b == 0 then Found(x0, r, root) else k <= 15 && b == Pow4(k) && Turn(x0, x, r, b, root, k)
      decreases b
    {
      ghost var p := Pow2(k);
      TakeBit(x0, x, r, b, root, k);
      TurnBounds(x0, x, r, b, root, k);
      if x >= r + b {
        x := x - (r + b);
        r := r / 2 + b;
        root := root + p;
      } else {
        r := r / 2;
      }
      NextBit(x0, x, root, k);
      b := b / 4;
      if k > 0 { k := k - 1; }
    }
    FoundIs(x0, r, root);
    RootUnique(x0, x0, r, FloorRoot(x0));
  }

  lemma Quarter(k: nat)
    ensures Pow4(k) / 4 == (if k == 0 then 0 else Pow4(k - 1)) && (k > 0 ==> Pow4(k) == 4 * Pow4(k - 1))
    ensures Pow4(0) == 1
  {
  }

  lemma Zero()
    ensures Found(0, 0, 0)
  {
  }

  lemma FoundIs(x0: nat, r: int, root: nat)
    requires Found(x0, r, root)
    ensures r >= 0 && IsRoot(x0, r)
  {
  }

  lemma TurnBounds(x0: nat, x: int, r: int, b: int, root: nat, k: nat)
    requires Turn(x0, x, r, b, root, k)
    ensures b == Pow2(k) * Pow2(k) && root + 2 * Pow2(k) <= 0x1_0000 && r >= 0
    ensures 0 <= x == x0 - root * root && x0 < (root + 2 * Pow2(k)) * (root + 2 * Pow2(k))
  {
    hide Pow2;
  }

  /** The root is unique and grows with its argument. */
  lemma RootUnique(x: nat, y: nat, r: nat, s: nat)
    requires IsRoot(x, r) && IsRoot(y, s) && x <= y
    ensures r <= s && (x == y ==> r == s)
  {
    if r > s { Squares(s + 1, r); }
    if x == y && s > r { Squares(r + 1, s); }
  }

  lemma Squares(a: nat, b: nat)
    requires a <= b
    ensures a * a <= b * b
  {
    assert b * b - a * a == (b - a) * (b + a);
  }
}
