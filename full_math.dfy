/**
 * The 512-bit `mulDiv` family the price math relies on: the floor and the
 * ceiling of a * b / d for 256-bit operands, computed without intermediate
 * overflow, reverting when the denominator is zero or the result needs more
 * than 256 bits. The brackets that characterise them are lemmas, so that
 * callers pay for the nonlinear facts only where they need them.
 */
module FullMath {
  import opened Numeric

  /**
   * `FullMath.mulDiv`: floor(a * b / d), reverting on d == 0 or when the quotient reaches 2^256.
   * It succeeds exactly when a * b < 2^256 * d.
   */
  function MulDiv(a: Uint256, b: Uint256, d: Uint256): (r: Result<Uint256>)
    ensures r.Ok? <==> d > 0 && a * b < TWO_256 * d
  {
    if d == 0 then Revert("")
    else
      MulNonneg(a, b);
      var q := a * b / d;
      FloorBelowIff(a * b, d, TWO_256);
      if q < TWO_256 then Ok(q) else Revert("")
  }

  /**
   * `FullMath.mulDivRoundingUp`: ceil(a * b / d), reverting on d == 0 or when the result reaches
   * 2^256. It succeeds exactly when a * b <= (2^256 - 1) * d.
   */
  function MulDivRoundingUp(a: Uint256, b: Uint256, d: Uint256): (r: Result<Uint256>)
    ensures r.Ok? <==> d > 0 && a * b <= MAX_UINT256 * d
  {
    if d == 0 then Revert("")
    else
      MulNonneg(a, b);
      var c := DivRoundingUp(a * b, d);
      CeilBelowIff(a * b, d, TWO_256);
      if c < TWO_256 then Ok(c) else Revert("")
  }

  /** When mulDiv succeeds it returns the floor of a * b / d: the q with q * d <= a * b < (q + 1) * d. */
  lemma MulDivSpec(a: Uint256, b: Uint256, d: Uint256)
    ensures MulDiv(a, b, d).Ok? ==> MulDiv(a, b, d).value * d <= a * b < (MulDiv(a, b, d).value + 1) * d
  {
    if d > 0 {
      FloorBracket(a * b, d);
    }
  }

  /** When mulDivRoundingUp succeeds it returns the ceiling of a * b / d: the least c with c * d >= a * b. */
  lemma MulDivRoundingUpSpec(a: Uint256, b: Uint256, d: Uint256)
    ensures MulDivRoundingUp(a, b, d).Ok? ==>
      var c := MulDivRoundingUp(a, b, d).value;
      c * d >= a * b && (c == 0 || (c - 1) * d < a * b)
  {
    if d > 0 {
      DivRoundingUpBracket(a * b, d);
    }
  }

  /** Whenever the floor fits, mulDiv returns it. */
  lemma MulDivValue(a: Uint256, b: Uint256, d: Uint256)
    requires d > 0 && a * b < TWO_256 * d
    ensures MulDiv(a, b, d) == Ok(a * b / d)
  {
    MulNonneg(a, b);
    FloorBelowIff(a * b, d, TWO_256);
  }

  /** Whenever the ceiling fits, mulDivRoundingUp returns it. */
  lemma MulDivRoundingUpValue(a: Uint256, b: Uint256, d: Uint256)
    requires d > 0 && a * b <= MAX_UINT256 * d
    ensures MulDivRoundingUp(a, b, d) == Ok(DivRoundingUp(a * b, d))
  {
    MulNonneg(a, b);
    CeilBelowIff(a * b, d, TWO_256);
  }

  // ---- Brackets of floor and ceiling division ----

  lemma FloorBracket(x: nat, d: nat)
    requires d > 0
    ensures (x / d) * d <= x < (x / d + 1) * d
  {
    assert x == d * (x / d) + x % d;
  }

  lemma FloorBelowIff(x: nat, d: nat, k: nat)
    requires d > 0
    ensures x / d < k <==> x < k * d
  {
    FloorBracket(x, d);
    var q := x / d;
    MulMonotone(d, if q < k then q + 1 else k, if q < k then k else q);
  }

  lemma CeilBelowIff(x: nat, d: nat, k: nat)
    requires d > 0 && k > 0
    ensures DivRoundingUp(x, d) < k <==> x <= (k - 1) * d
  {
    var c := DivRoundingUp(x, d);
    DivRoundingUpBracket(x, d);
    MulMonotone(d, if c < k then c else k - 1, if c < k then k - 1 else c - 1);
  }

  /** A ceiling is bounded by any c with x <= d * c. */
  lemma CeilAtMost(x: nat, d: nat, c: nat)
    requires d > 0 && x <= d * c
    ensures DivRoundingUp(x, d) <= c
  {
    var r := DivRoundingUp(x, d);
    DivRoundingUpBracket(x, d);
    MulMonotone(d, if r - 1 < c then r - 1 else c, if r - 1 < c then c else r - 1);
  }

  /** A ceiling is at least any c with d * c <= x. */
  lemma CeilAtLeast(x: nat, d: nat, c: nat)
    requires d > 0 && d * c <= x
    ensures DivRoundingUp(x, d) >= c
  {
    var r := DivRoundingUp(x, d);
    DivRoundingUpBracket(x, d);
    MulMonotone(d, if r < c then r else c - 1, if r < c then c - 1 else r);
    assert d * (c - 1) == d * c - d;
  }

  /** The bracket (c - 1) * d < x <= c * d determines the ceiling. */
  lemma CeilUnique(x: nat, d: nat, c: nat)
    requires d > 0 && c * d >= x && (c == 0 || (c - 1) * d < x)
    ensures DivRoundingUp(x, d) == c
  {
    CeilAtMost(x, d, c);
    if c > 0 {
      var r := DivRoundingUp(x, d);
      DivRoundingUpBracket(x, d);
      MulMonotone(d, if r < c then r else c - 1, if r < c then c - 1 else r);
    }
  }

  /** Dividing by h and then by l, flooring each time, floors the division by h * l. */
  lemma NestedFloor(x: nat, h: nat, l: nat)
    requires h > 0 && l > 0
    ensures (x / h) / l == x / (h * l)
  {
    var m := x / h;
    var q := m / l;
    assert m * h <= x < (m + 1) * h by {
      FloorBracket(x, h);
    }
    assert q * l <= m < (q + 1) * l by {
      FloorBracket(m, l);
    }
    assert (h * l) * q <= x by {
      MulMonotone(h, q * l, m);
    }
    assert x < (h * l) * (q + 1) by {
      MulMonotone(h, m + 1, (q + 1) * l);
    }
    DivUnique(x, h * l, q);
  }

  /** Dividing by h and then by l, rounding up each time, rounds up the division by h * l. */
  lemma NestedCeil(x: nat, h: nat, l: nat)
    requires h > 0 && l > 0
    ensures DivRoundingUp(DivRoundingUp(x, h), l) == DivRoundingUp(x, h * l)
  {
    NestedCeilCovers(x, h, l);
    NestedCeilTight(x, h, l);
    CeilUnique(x, h * l, DivRoundingUp(DivRoundingUp(x, h), l));
  }

  lemma NestedCeilCovers(x: nat, h: nat, l: nat)
    requires h > 0 && l > 0
    ensures DivRoundingUp(DivRoundingUp(x, h), l) * (h * l) >= x
  {
    var m := DivRoundingUp(x, h);
    var c := DivRoundingUp(m, l);
    DivRoundingUpBracket(x, h);
    DivRoundingUpBracket(m, l);
    assert m * h >= x;
    assert c * l >= m;
    MulMonotone(h, m, c * l);
    MulAssoc(c, h, l);
  }

  lemma NestedCeilTight(x: nat, h: nat, l: nat)
    requires h > 0 && l > 0
    ensures var c := DivRoundingUp(DivRoundingUp(x, h), l);
      c == 0 || (c - 1) * (h * l) < x
  {
    var m := DivRoundingUp(x, h);
    var c := DivRoundingUp(m, l);
    if c > 0 {
      DivRoundingUpBracket(x, h);
      DivRoundingUpBracket(m, l);
      ScaleBelow(h, (c - 1) * l, m, x);
      MulAssoc(c - 1, h, l);
    }
  }

  lemma ScaleBelow(h: nat, a: int, m: int, x: int)
    requires h > 0 && a < m && (m - 1) * h < x
    ensures a * h < x
  {
    MulMonotone(h, a, m - 1);
  }
}
