/**
 * BitMath: the index of the most and of the least significant set bit of a
 * nonzero 256-bit word. Zero has no set bit, so both functions revert on it.
 */
module BitMath {
  import opened Numeric

  function Pow2(n: nat): (r: nat)
    ensures r >= 1
  {
    if n == 0 then 1 else 2 * Pow2(n - 1)
  }

  /** The index of the highest set bit: the unique `r` with 2^r <= x < 2^(r+1). */
  function Msb(x: nat): (r: nat)
    requires x > 0
    ensures Pow2(r) <= x < Pow2(r + 1)
  {
    if x == 1 then 0 else 1 + Msb(x / 2)
  }

  /** The index of the lowest set bit: 2^r divides x and x / 2^r is odd. */
  function Lsb(x: nat): (r: nat)
    requires x > 0
    ensures x % Pow2(r) == 0 && (x / Pow2(r)) % 2 == 1
  {
    if x % 2 == 1 then 0
    else
      var k := Lsb(x / 2);
      LsbStep(x, k);
      1 + k
  }

  lemma LsbStep(x: nat, k: nat)
    requires x > 0 && x % 2 == 0
    requires (x / 2) % Pow2(k) == 0 && ((x / 2) / Pow2(k)) % 2 == 1
    ensures x % Pow2(k + 1) == 0 && (x / Pow2(k + 1)) % 2 == 1
  {
    var h := x / 2;
    var p := Pow2(k);
    var q := h / p;
    assert h == p * q + h % p;
    assert x == (2 * p) * q by {
      assert x == 2 * h;
    }
    DivOfProduct(2 * p, q);
  }

  /** `mostSignificantBit`: reverts on zero, otherwise the index of the highest set bit. */
  function MostSignificantBit(x: Uint256): (r: Result<nat>)
    ensures r.Ok? <==> x > 0
    ensures r.Ok? ==> r.value < 256 && Pow2(r.value) <= x < Pow2(r.value + 1)
  {
    if x == 0 then Revert("")
    else
      var m := Msb(x);
      Pow2Bounds();
      Pow2Monotone(256, if m < 256 then 256 else m);
      Ok(m)
  }

  /** `leastSignificantBit`: reverts on zero, otherwise the index of the lowest set bit. */
  function LeastSignificantBit(x: Uint256): (r: Result<nat>)
    ensures r.Ok? <==> x > 0
    ensures r.Ok? ==> r.value <= Msb(x) && x % Pow2(r.value) == 0 && (x / Pow2(r.value)) % 2 == 1
  {
    if x == 0 then Revert("")
    else
      var l := Lsb(x);
      LsbBelowMsb(x);
      Ok(l)
  }

  // ---- Powers of two ----

  lemma {:induction false} Pow2Add(a: nat, b: nat)
    ensures Pow2(a + b) == Pow2(a) * Pow2(b)
  {
    if b > 0 {
      Pow2Add(a, b - 1);
      assert Pow2(a + b) == 2 * Pow2(a + (b - 1));
      assert Pow2(b) == 2 * Pow2(b - 1);
      MulAssoc(2, Pow2(a), Pow2(b - 1));
    }
  }

  lemma {:induction false} Pow2Monotone(a: nat, b: nat)
    requires a <= b
    ensures Pow2(a) <= Pow2(b)
  {
    if a < b {
      Pow2Monotone(a, b - 1);
    }
  }

  lemma Pow2Bounds()
    ensures Pow2(255) == TWO_256 / 2
    ensures Pow2(256) == TWO_256
  {
    assert Pow2(8) == 0x100;
    Pow2Add(8, 8);
    assert Pow2(16) == 0x1_0000;
    Pow2Add(16, 16);
    assert Pow2(32) == 0x1_0000_0000;
    Pow2Add(32, 32);
    assert Pow2(64) == 0x1_0000_0000_0000_0000;
    Pow2Add(64, 64);
    assert Pow2(128) == 0x1_0000_0000_0000_0000_0000_0000_0000_0000;
    Pow2Add(128, 128);
    assert Pow2(256) == 2 * Pow2(255);
  }

  // ---- Uniqueness and the values the tests expect ----

  /** The bracket 2^r <= x < 2^(r+1) determines r, so Msb is the only function with its contract. */
  lemma MsbUnique(x: nat, r: nat)
    requires x > 0 && Pow2(r) <= x < Pow2(r + 1)
    ensures Msb(x) == r
  {
    var m := Msb(x);
    if m < r {
      Pow2Monotone(m + 1, r);
    } else if r < m {
      Pow2Monotone(r + 1, m);
    }
  }

  /** The lowest set bit never lies above the highest one. */
  lemma LsbBelowMsb(x: nat)
    requires x > 0
    ensures Lsb(x) <= Msb(x)
  {
    var l := Lsb(x);
    var m := Msb(x);
    DivisibleAtLeast(x, Pow2(l));
    Pow2Increasing(m, l);
  }

  lemma DivisibleAtLeast(x: nat, p: nat)
    requires x > 0 && p > 0 && x % p == 0
    ensures x >= p
  {
    var q := x / p;
    assert x == p * q;
    MulSign(p, q);
  }

  lemma Pow2Increasing(a: nat, b: nat)
    ensures a < b ==> Pow2(a + 1) <= Pow2(b)
  {
    if a < b {
      Pow2Monotone(a + 1, b);
    }
  }

  /** mostSignificantBit(2^i) == i and leastSignificantBit(2^i) == i for every i < 256. */
  lemma {:induction false} BitsOfPow2(i: nat)
    requires i < 256
    ensures Pow2(i) < TWO_256
    ensures MostSignificantBit(Pow2(i)) == Ok(i)
    ensures LeastSignificantBit(Pow2(i)) == Ok(i)
  {
    Pow2Bounds();
    Pow2Monotone(i, 255);
    MsbUnique(Pow2(i), i);
    LsbOfPow2(i);
  }

  lemma {:induction false} LsbOfPow2(i: nat)
    ensures Lsb(Pow2(i)) == i
  {
    if i > 0 {
      LsbOfPow2(i - 1);
      assert Pow2(i) / 2 == Pow2(i - 1);
    }
  }

  /** mostSignificantBit(2^256 - 1) == 255 and leastSignificantBit(2^256 - 1) == 0; zero reverts for both. */
  lemma BitsOfExtremes()
    ensures MostSignificantBit(MAX_UINT256) == Ok(255)
    ensures LeastSignificantBit(MAX_UINT256) == Ok(0)
    ensures MostSignificantBit(0).Revert? && LeastSignificantBit(0).Revert?
  {
    Pow2Bounds();
    MsbUnique(MAX_UINT256, 255);
  }
}
