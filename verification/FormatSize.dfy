/** Printing a size with a unit: at most one decimal, truncated. */
module FormatSize {
  import opened Common

  const MAX: nat := 0xFFFF_FFFF_FFFF_FFFF

  /** The units: B, KiB, MiB, GiB, TiB, PiB. */
  const UNITS: nat := 6

  function Unit(order: nat): (u: nat)
    ensures u > 0
  {
    if order == 0 then 1 else 1024 * Unit(order - 1)
  }

  /** `value` units of the order fit in n, one more does not. */
  predicate Whole(n: nat, order: nat, value: nat) { value * Unit(order) <= n < (value + 1) * Unit(order) }

  lemma NoUnit(n: nat)
    ensures Whole(n, 0, n)
  {
  }

  lemma NextOrder(n: nat, order: nat, value: nat)
    requires Whole(n, order, value)
    ensures Whole(n, order + 1, value / 1024)
  {
    var u, q := Unit(order), value / 1024;
    Regroup(q, u);
    Regroup(q + 1, u);
    MulOrder(1024 * q, value, u);
    MulOrder(value + 1, 1024 * (q + 1), u);
  }

  lemma Regroup(q: nat, u: nat)
    ensures q * (1024 * u) == (1024 * q) * u
  {
  }

  lemma MulOrder(a: nat, b: nat, u: nat)
    ensures a <= b ==> a * u <= b * u
  {
    if a <= b { assert b * u == a * u + (b - a) * u; }
  }

  /** The digit after the point: tenths of the unit, rounded down, follow the whole units. */
  lemma Tenths(n: nat, order: nat, value: nat)
    requires Whole(n, order, value)
    ensures n * 10 / Unit(order) / 10 == value
  {
    var u := Unit(order);
    var t := n * 10 / u;
    assert (10 * value) * u == 10 * (value * u);
    assert (10 * (value + 1)) * u == 10 * ((value + 1) * u);
    Quotient(n * 10, u);
    MulOrder(t + 1, 10 * value, u);
    MulOrder(10 * (value + 1), t, u);
  }

  lemma Quotient(x: nat, u: nat)
    requires u > 0
    ensures x / u * u <= x < (x / u + 1) * u
  {
    assert x == x / u * u + x % u;
  }

  /** Below ten units the product with ten stays within 64 bits. */
  lemma TenFits(n: nat, order: nat, value: nat)
    requires Whole(n, order, value) && order < UNITS && value < 10
    ensures n * 10 <= MAX
  {
    Units();
    MulOrder(value + 1, 10, Unit(order));
  }

  lemma Units()
    ensures Unit(0) == 1 && Unit(1) == 0x400 && Unit(2) == 0x10_0000 && Unit(3) == 0x4000_0000
    ensures Unit(4) == 0x100_0000_0000 && Unit(5) == 0x4_0000_0000_0000
  {
  }

  /** The unit is the largest in which the size is at least one, as far as there are units. Sizes below
      ten units get one decimal, and the product that yields it stays within 64 bits. */
  method Format(n: nat) returns (value: nat, tenths: Option<nat>, order: nat)
    requires n <= MAX
    ensures order < UNITS && Whole(n, order, value)
    ensures order > 0 ==> value > 0
    ensures value >= 1024 ==> order == UNITS - 1
    ensures tenths.Some? <==> value < 10
    ensures tenths.Some? ==> n * 10 <= MAX && tenths.value < 10 && 10 * value + tenths.value == n * 10 / Unit(order)
  {
    hide Whole;
    value, order := n, 0;
    NoUnit(n);
    while value >= 1024 && order + 1 < UNITS
      invariant order < UNITS && Whole(n, order, value) && (order > 0 ==> value > 0)
    {
      NextOrder(n, order, value);
      value := value / 1024;
      order := order + 1;
    }
    if value >= 10 {
      return value, None, order;
    }
    Tenths(n, order, value);
    TenFits(n, order, value);
    tenths := Some(n * 10 / Unit(order) % 10);
  }
}
