/** Regions of the virtual address space. A table at depth d has shift 12 + 10 * d; its slots manage
    regions of 1024^d pages. Pages and regions are numbered from zero. */
module Geometry {
  import opened Common

  /** Number of the depth-d region that holds page p. */
  function Reg(p: nat, d: nat): nat {
    if d == 0 then p else Reg(p, d - 1) / ENTRIES
  }

  /** Slot of a depth-d table that page p goes through. */
  function Index(p: nat, d: nat): nat { Reg(p, d) % ENTRIES }

  /** First page of the depth-d region m. */
  function First(m: nat, d: nat): nat
    decreases d
  {
    if d == 0 then m else First(ENTRIES * m, d - 1)
  }

  /** Byte address at which the depth-d region m starts. */
  function Start(m: nat, d: nat): nat { PAGE * First(m, d) }

  /** Size in bytes of a depth-d region: 1 << shift. */
  function RegionSize(d: nat): (size: nat)
    ensures size >= PAGE
  {
    FirstPositive(1, d);
    Start(1, d)
  }

  /** A page lies at or above a region's start exactly when its region number does. */
  lemma {:induction false} Galois(a: nat, p: nat, d: nat)
    ensures First(a, d) <= p <==> a <= Reg(p, d)
    decreases d
  {
    if d > 0 {
      Galois(ENTRIES * a, p, d - 1);
    }
  }

  /** A page is in a region exactly when it lies between the region's start and the next one's. */
  lemma InRegion(m: nat, p: nat, d: nat)
    ensures Reg(p, d) == m <==> First(m, d) <= p < First(m + 1, d)
  {
    Galois(m, p, d);
    Galois(m + 1, p, d);
  }

  lemma {:induction false} FirstAdd(a: nat, b: nat, d: nat)
    ensures First(a + b, d) == First(a, d) + First(b, d)
    decreases d
  {
    if d > 0 {
      assert ENTRIES * (a + b) == ENTRIES * a + ENTRIES * b;
      FirstAdd(ENTRIES * a, ENTRIES * b, d - 1);
    }
  }

  lemma {:induction false} FirstPositive(m: nat, d: nat)
    ensures First(m, d) >= m && First(0, d) == 0
    decreases d
  {
    if d > 0 {
      FirstPositive(ENTRIES * m, d - 1);
    }
  }

  /** Consecutive regions are one region size apart. */
  lemma NextRegion(m: nat, d: nat)
    ensures Start(m + 1, d) == Start(m, d) + RegionSize(d)
    ensures RegionSize(d) >= PAGE
  {
    FirstAdd(m, 1, d);
    FirstPositive(1, d);
  }

  lemma FirstMonotone(a: nat, b: nat, d: nat)
    requires a <= b
    ensures First(a, d) <= First(b, d)
  {
    FirstAdd(a, b - a, d);
  }

  /** Region starts are exactly the multiples of the region size. */
  lemma {:induction false} FirstMultiple(m: nat, d: nat)
    ensures First(m, d) == m * First(1, d)
  {
    if m > 0 {
      FirstMultiple(m - 1, d);
      FirstAdd(m - 1, 1, d);
    } else {
      FirstPositive(0, d);
    }
  }

  lemma {:induction false} RegOfFirst(m: nat, d: nat)
    ensures Reg(First(m, d), d) == m
  {
    FirstMonotone(m, m + 1, d);
    FirstAdd(m, 1, d);
    FirstPositive(1, d);
    InRegion(m, First(m, d), d);
  }

  /** Pages of one region stay together at every larger depth. */
  lemma {:induction false} RegUp(p: nat, q: nat, d: nat, e: nat)
    requires d <= e && Reg(p, d) == Reg(q, d)
    ensures Reg(p, e) == Reg(q, e)
  {
    if d < e {
      RegUp(p, q, d, e - 1);
    }
  }

  // Alignment of addresses; sizes are region sizes.

  function AlignDown(x: nat, size: nat): nat
    requires size > 0
  {
    x - x % size
  }

  function AlignUp(x: nat, size: nat): nat
    requires size > 0
  {
    AlignDown(x + size - 1, size)
  }

  lemma MultipleGap(a: nat, b: nat, size: nat)
    ensures a < b ==> a * size + size <= b * size
  {
    if a < b {
      assert (a + 1) * size <= b * size;
    }
  }

  lemma DivideRegion(x: nat, m: nat, size: nat)
    requires size > 0 && m * size <= x < m * size + size
    ensures x - x % size == m * size
  {
    var q := x / size;
    assert x == q * size + x % size;
    MultipleGap(q, m, size);
    MultipleGap(m, q, size);
  }

  /** Aligning an address down finds the start of its region. */
  lemma AlignDownRegion(x: nat, d: nat)
    ensures RegionSize(d) > 0
    ensures AlignDown(x, RegionSize(d)) == Start(Reg(x / PAGE, d), d)
    ensures Start(Reg(x / PAGE, d), d) <= x < Start(Reg(x / PAGE, d) + 1, d)
  {
    var p := x / PAGE;
    var m := Reg(p, d);
    FirstPositive(1, d);
    InRegion(m, p, d);
    FirstAdd(m, 1, d);
    FirstMultiple(m, d);
    var f := First(1, d);
    assert First(m, d) == m * f;
    assert PAGE * (m * f) == m * (PAGE * f);
    assert x < PAGE * (p + 1) <= PAGE * First(m + 1, d);
    DivideRegion(x, m, PAGE * f);
  }

  /** Aligning an address up finds the least region start at or above it. */
  lemma AlignUpRegion(x: nat, d: nat) returns (m: nat)
    ensures RegionSize(d) > 0
    ensures AlignUp(x, RegionSize(d)) == Start(m, d)
    ensures x <= Start(m, d) < x + RegionSize(d)
    ensures m > 0 ==> Start(m - 1, d) < x
  {
    FirstPositive(1, d);
    var y := x + RegionSize(d) - 1;
    AlignDownRegion(y, d);
    m := Reg(y / PAGE, d);
    NextRegion(m, d);
    if m > 0 {
      NextRegion(m - 1, d);
    }
  }

  /** Where `unmap_free` really stops. A start that is not aligned drags the end up to the end of
      the start's region. */
  function EffectiveEnd(vaddr: nat, size: nat, d: nat): nat {
    var next := Start(Reg(vaddr / PAGE, d) + 1, d);
    if vaddr != Start(Reg(vaddr / PAGE, d), d) && vaddr + size < next then next else vaddr + size
  }

  /** The address is a multiple of the size of a depth-d region. */
  predicate Aligned(x: nat, d: nat) { x % RegionSize(d) == 0 }

  /** The start of a slot's region is aligned and leads back to the slot. */
  lemma SlotAddress(m: nat, d: nat)
    ensures Reg(Start(m, d) / PAGE, d) == m
    ensures Aligned(Start(m, d), d)
    ensures Index(Start(m, d) / PAGE, d) == m % ENTRIES
  {
    RegOfFirst(m, d);
    FirstMultiple(m, d);
    AlignDownRegion(Start(m, d), d);
  }

  /** The address of slot j of a table leads to slot j. */
  lemma SlotAt(m: nat, j: nat, d: nat)
    requires j < ENTRIES
    ensures Index(Start(ENTRIES * m + j, d) / PAGE, d) == j
  {
    SlotAddress(ENTRIES * m + j, d);
  }

  /** Larger regions end where smaller ones do. */
  lemma {:induction false} RegionBelow(m: nat, d: nat, k: nat, e: nat)
    requires d <= e && First(m, d) < First(k, e)
    ensures First(m + 1, d) <= First(k, e)
    decreases e
  {
    if d < e {
      RegionBelow(m, d, ENTRIES * k, e - 1);
    } else if k <= m {
      FirstMonotone(k, m, d);
    } else {
      FirstMonotone(m + 1, k, d);
    }
  }

  /** A range that starts or ends with its region is not extended at the next depth. */
  lemma SubEnd(vaddr: nat, size: nat, m: nat, d: nat)
    requires d > 0 && Start(m, d) <= vaddr < Start(m + 1, d)
    requires vaddr == Start(m, d) || vaddr + size == Start(m + 1, d)
    ensures EffectiveEnd(vaddr, size, d - 1) == vaddr + size
  {
    var q := vaddr / PAGE;
    if vaddr == Start(m, d) {
      assert First(m, d) == First(ENTRIES * m, d - 1);
      SlotAddress(ENTRIES * m, d - 1);
    } else {
      InRegion(m, q, d);
      Nested(q, d - 1, d);
    }
  }

  /** Regions of different depths around one page are nested. */
  lemma Nested(q: nat, d: nat, e: nat)
    requires d <= e
    ensures First(Reg(q, e), e) <= First(Reg(q, d), d) <= q < First(Reg(q, d) + 1, d) <= First(Reg(q, e) + 1, e)
  {
    var r := Reg(q, d);
    var x, y := First(r, d), First(r + 1, d) - 1;
    InRegion(r, q, d);
    RegOfFirst(r, d);
    RegUp(x, q, d, e);
    InRegion(r, y, d);
    RegUp(y, q, d, e);
    InRegion(Reg(q, e), x, e);
    InRegion(Reg(q, e), y, e);
  }

  /** Addresses of the slots of one table. */
  lemma SlotBound(m: nat, j: nat, d: nat)
    requires j <= ENTRIES
    ensures Start(ENTRIES * m + j, d) < Start(m, d + 1) + RegionSize(d + 1) <==> j < ENTRIES
    ensures Start(ENTRIES * m, d) == Start(m, d + 1)
  {
    NextRegion(m, d + 1);
    var k := ENTRIES * m + j;
    assert First(m + 1, d + 1) == First(ENTRIES * m + ENTRIES, d);
    if j < ENTRIES {
      NextRegion(k, d);
      FirstMonotone(k + 1, ENTRIES * m + ENTRIES, d);
    }
  }

  /** The next slot of a table starts where this one ends, at most where the table's region ends. */
  lemma NextSlot(m: nat, j: nat, d: nat)
    requires j < ENTRIES
    ensures Start(ENTRIES * m + j, d) + RegionSize(d) == Start(ENTRIES * m + (j + 1), d)
    ensures Start(ENTRIES * m + (j + 1), d) <= Start(m, d + 1) + RegionSize(d + 1)
    ensures Start(ENTRIES * m + (j + 1), d) < Start(m, d + 1) + RegionSize(d + 1) <==> j + 1 < ENTRIES
  {
    NextRegion(ENTRIES * m + j, d);
    SlotBound(m, j + 1, d);
    NextRegion(m, d + 1);
    assert First(m + 1, d + 1) == First(ENTRIES * m + ENTRIES, d);
    FirstMonotone(ENTRIES * m + (j + 1), ENTRIES * m + ENTRIES, d);
  }
}
