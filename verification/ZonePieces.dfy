/** The decomposition of a range into zones, one for each bit of its size. */
module ZonePieces {
  import opened Common
  import Geometry

  datatype Piece = Piece(start: nat, size: nat)

  function Pow2(k: nat): (p: nat)
    ensures p > 0
  {
    if k == 0 then 1 else 2 * Pow2(k - 1)
  }

  predicate IsPowerOfTwo(n: nat) {
    n == 1 || (n > 0 && n % 2 == 0 && IsPowerOfTwo(n / 2))
  }

  /** The test `size & (1 << bit) != 0`. */
  predicate HasBit(size: nat, bit: nat) { size / Pow2(bit) % 2 == 1 }

  /** One piece for each bit of `rest`, lowest first; `unit` is the size its lowest bit stands for. */
  function Pieces(start: nat, unit: nat, rest: nat): seq<Piece>
    decreases rest
  {
    if rest == 0 then []
    else if rest % 2 == 1 then [Piece(start, unit)] + Pieces(start + unit, 2 * unit, rest / 2)
    else Pieces(start, 2 * unit, rest / 2)
  }

  function BitCount(n: nat): nat {
    if n == 0 then 0 else n % 2 + BitCount(n / 2)
  }

  /** The pieces follow one another from `start` to `end`. */
  predicate Tile(start: nat, end: nat, pieces: seq<Piece>)
    decreases |pieces|
  {
    if |pieces| == 0 then start == end
    else pieces[0].start == start && Tile(start + pieces[0].size, end, pieces[1..])
  }

  lemma {:induction false} PowerOfPow2(k: nat)
    ensures IsPowerOfTwo(Pow2(k))
  {
    if k > 0 { PowerOfPow2(k - 1); }
  }

  lemma {:induction false} PowerIsPow2(n: nat) returns (k: nat)
    requires IsPowerOfTwo(n)
    ensures n == Pow2(k)
  {
    if n == 1 {
      k := 0;
    } else {
      k := PowerIsPow2(n / 2);
      k := k + 1;
    }
  }

  lemma {:induction false} Pow2Add(i: nat, j: nat)
    ensures Pow2(i + j) == Pow2(i) * Pow2(j)
  {
    if i > 0 {
      Pow2Add(i - 1, j);
      TwiceProduct(Pow2(i - 1), Pow2(j));
    }
  }

  lemma TwiceProduct(a: nat, b: nat)
    ensures 2 * (a * b) == (2 * a) * b
  {
  }

  lemma TwiceFactor(a: nat, b: nat)
    ensures (2 * a) * b == a * (2 * b)
  {
  }

  lemma Regroup(p: nat, q: nat, m: nat)
    ensures (p * (2 * q)) * m == p * (2 * (q * m))
  {
  }

  lemma Cancel(p: nat, x: int, y: int)
    requires p > 0 && p * x == p * y
    ensures x == y
  {
    assert p * (x - y) == 0;
  }

  /** `total` is `rest` units. */
  predicate Spans(unit: nat, rest: nat, total: nat) { total == unit * rest }

  lemma SpansHalf(unit: nat, rest: nat, total: nat)
    requires Spans(unit, rest, total)
    ensures rest % 2 == 0 ==> Spans(2 * unit, rest / 2, total)
    ensures rest % 2 == 1 ==> unit <= total && Spans(2 * unit, rest / 2, total - unit)
  {
    var half := rest / 2;
    assert rest == 2 * half + rest % 2;
    assert unit * (2 * half) == (2 * unit) * half;
    if rest % 2 == 1 { assert unit * rest == unit * (2 * half) + unit; }
  }

  /** A power of two below the block size divides it, so the bit below is clear. */
  lemma LowBitsClear(unit: nat, rest: nat, total: nat)
    requires IsPowerOfTwo(unit) && Spans(unit, rest, total) && total % PAGE == 0 && rest > 0
    ensures rest % 2 == 1 ==> unit % PAGE == 0
  {
    var k := PowerIsPow2(unit);
    if k >= 12 {
      HighPow2(k);
    } else {
      EvenRest(k, rest, total / PAGE);
    }
  }

  lemma EvenRest(k: nat, rest: nat, m: nat)
    requires k < 12 && Pow2(k) * rest == PAGE * m
    ensures rest % 2 == 0
  {
    Pow2Values();
    Pow2Add(k, 12 - k);
    var p, q := Pow2(k), Pow2(11 - k);
    assert Pow2(12 - k) == 2 * q;
    hide Pow2;
    assert p * rest == (p * (2 * q)) * m;
    Regroup(p, q, m);
    Cancel(p, rest, 2 * (q * m));
  }

  lemma {:induction false} HighPow2(k: nat)
    requires k >= 12
    ensures Pow2(k) % PAGE == 0
  {
    if k == 12 {
      Pow2Values();
    } else {
      HighPow2(k - 1);
    }
  }

  lemma Pow2Values()
    ensures Pow2(12) == PAGE && Pow2(32) == 0x1_0000_0000
  {
    assert Pow2(4) == 16;
    assert Pow2(8) == 256;
    assert Pow2(12) == 4096;
    assert Pow2(16) == 0x1_0000;
    assert Pow2(20) == 0x10_0000;
    assert Pow2(24) == 0x100_0000;
    assert Pow2(28) == 0x1000_0000;
  }

  /** Block-aligned and inside [start, end). */
  predicate Within(piece: Piece, start: nat, end: nat) {
    && piece.start % PAGE == 0 && piece.size % PAGE == 0 && piece.size > 0
    && start <= piece.start && piece.start + piece.size <= end
  }

  lemma DoublePower(unit: nat)
    requires IsPowerOfTwo(unit)
    ensures IsPowerOfTwo(2 * unit) && unit > 0
  {
  }

  /** The pieces of a range from the pieces of the next bit. */
  lemma PieceAt(start: nat, unit: nat, rest: nat, i: nat)
    requires i < |Pieces(start, unit, rest)|
    ensures rest > 0
    ensures rest % 2 == 0 ==> Pieces(start, unit, rest) == Pieces(start, 2 * unit, rest / 2)
    ensures rest % 2 == 1 && i == 0 ==> Pieces(start, unit, rest)[i] == Piece(start, unit)
    ensures rest % 2 == 1 && i > 0 ==>
      && i - 1 < |Pieces(start + unit, 2 * unit, rest / 2)|
      && Pieces(start, unit, rest)[i] == Pieces(start + unit, 2 * unit, rest / 2)[i - 1]
  {
  }

  /** The rest of a block-aligned range is block-aligned. */
  lemma NextAligned(start: nat, unit: nat, rest: nat, total: nat)
    requires IsPowerOfTwo(unit) && start % PAGE == 0 && total % PAGE == 0 && Spans(unit, rest, total) && rest > 0
    ensures unit > 0 && IsPowerOfTwo(2 * unit)
    ensures rest % 2 == 0 ==> Spans(2 * unit, rest / 2, total)
    ensures rest % 2 == 1 ==>
      && unit <= total && unit % PAGE == 0 && (start + unit) % PAGE == 0 && (total - unit) % PAGE == 0
      && Spans(2 * unit, rest / 2, total - unit)
  {
    hide Spans;
    hide IsPowerOfTwo;
    LowBitsClear(unit, rest, total);
    SpansHalf(unit, rest, total);
    DoublePower(unit);
    if rest % 2 == 1 { AlignedSum(start, unit, total); }
  }

  lemma AlignedSum(start: nat, unit: nat, total: nat)
    requires start % PAGE == 0 && unit % PAGE == 0 && total % PAGE == 0 && unit <= total
    ensures (start + unit) % PAGE == 0 && (total - unit) % PAGE == 0
  {
  }

  /** Block-aligned ranges give block-aligned pieces inside the range. */
  lemma {:induction false} PiecesAligned(start: nat, unit: nat, rest: nat, total: nat, i: nat)
    requires IsPowerOfTwo(unit) && start % PAGE == 0 && total % PAGE == 0 && Spans(unit, rest, total)
    requires i < |Pieces(start, unit, rest)|
    ensures Within(Pieces(start, unit, rest)[i], start, start + total)
    decreases rest
  {
    hide Spans;
    hide Pieces;
    hide IsPowerOfTwo;
    PieceAt(start, unit, rest, i);
    NextAligned(start, unit, rest, total);
    if rest % 2 == 0 {
      PiecesAligned(start, 2 * unit, rest / 2, total, i);
    } else if i > 0 {
      PiecesAligned(start + unit, 2 * unit, rest / 2, total - unit, i - 1);
    }
  }

  lemma {:induction false} PiecesExist(start: nat, unit: nat, rest: nat)
    requires rest > 0
    ensures |Pieces(start, unit, rest)| > 0
    decreases rest
  {
    if rest % 2 == 0 { PiecesExist(start, 2 * unit, rest / 2); }
  }

  lemma {:induction false} PiecesAbove(start: nat, unit: nat, rest: nat, i: nat)
    requires i < |Pieces(start, unit, rest)|
    ensures start <= Pieces(start, unit, rest)[i].start
    decreases rest
  {
    hide Pieces;
    PieceAt(start, unit, rest, i);
    if rest % 2 == 0 {
      PiecesAbove(start, 2 * unit, rest / 2, i);
    } else if i > 0 {
      PiecesAbove(start + unit, 2 * unit, rest / 2, i - 1);
    }
  }

  /** Later pieces lie above earlier ones. */
  lemma {:induction false} PiecesOrdered(start: nat, unit: nat, rest: nat, i: nat, j: nat)
    requires i < j < |Pieces(start, unit, rest)|
    ensures Pieces(start, unit, rest)[i].start + Pieces(start, unit, rest)[i].size <= Pieces(start, unit, rest)[j].start
    decreases rest
  {
    hide Pieces;
    PieceAt(start, unit, rest, i);
    PieceAt(start, unit, rest, j);
    if rest % 2 == 0 {
      PiecesOrdered(start, 2 * unit, rest / 2, i, j);
    } else if i > 0 {
      PiecesOrdered(start + unit, 2 * unit, rest / 2, i - 1, j - 1);
    } else {
      PiecesAbove(start + unit, 2 * unit, rest / 2, j - 1);
    }
  }

  /** The pieces tile the range, one for each bit, each a power of two. */
  lemma {:induction false} PiecesTile(start: nat, unit: nat, rest: nat, total: nat)
    requires IsPowerOfTwo(unit) && Spans(unit, rest, total)
    ensures Tile(start, start + total, Pieces(start, unit, rest))
    ensures |Pieces(start, unit, rest)| == BitCount(rest)
    ensures forall i :: 0 <= i < |Pieces(start, unit, rest)| ==> IsPowerOfTwo(Pieces(start, unit, rest)[i].size)
    decreases rest
  {
    if rest > 0 {
      SpansHalf(unit, rest, total);
      DoublePower(unit);
      if rest % 2 == 1 {
        PiecesTile(start + unit, 2 * unit, rest / 2, total - unit);
        assert Pieces(start, unit, rest)[1..] == Pieces(start + unit, 2 * unit, rest / 2);
      } else {
        PiecesTile(start, 2 * unit, rest / 2, total);
      }
    }
  }

  /** A power of two is a single piece. */
  lemma {:induction false} PiecesOfPower(start: nat, unit: nat, k: nat)
    ensures Pieces(start, unit, Pow2(k)) == [Piece(start, unit * Pow2(k))]
    decreases k
  {
    if k > 0 {
      PiecesOfPower(start, 2 * unit, k - 1);
      assert Pow2(k) / 2 == Pow2(k - 1) && Pow2(k) % 2 == 0;
      TwiceFactor(unit, Pow2(k - 1));
    } else {
      assert Pieces(start + unit, 2 * unit, 0) == [];
    }
  }

  /** Moving on by one bit. */
  lemma NextBit(size: nat, bit: nat)
    ensures size / Pow2(bit + 1) == size / Pow2(bit) / 2 && Pow2(bit + 1) == 2 * Pow2(bit)
  {
    var p, q := Pow2(bit), size / Pow2(bit);
    assert size == q * p + size % p;
    var h := q / 2;
    assert q == 2 * h + q % 2;
    assert q * p == h * (2 * p) + (q % 2) * p;
    var r := (q % 2) * p + size % p;
    assert 0 <= r < 2 * p;
    assert size == h * (2 * p) + r;
    DivUnique(size, 2 * p, h, r);
  }

  lemma DivUnique(n: nat, d: nat, q: nat, r: nat)
    requires d > 0 && n == q * d + r && r < d
    ensures n / d == q
  {
    var k := n / d;
    assert n == k * d + n % d;
    Geometry.MultipleGap(k, q, d);
    Geometry.MultipleGap(q, k, d);
  }
}
