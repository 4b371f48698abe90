/** What the zones of the frame allocator add up to: the memory they manage, and when it is used up. */
module ZoneTotals {
  import opened Common
  import opened ZonePieces
  import opened ZonedBuddy

  /** The blocks of a zone, and of all zones. */
  function ZoneBlocks(z: Zone): set<nat> { BlockRange(Block(z.start), z.size / PAGE) }

  ghost function UnionBlocks(zones: seq<Zone>): set<nat> {
    set k, b | 0 <= k < |zones| && b in ZoneBlocks(zones[k]) :: b
  }

  /** A block belongs to the union exactly if some zone manages its 4096 bytes. */
  lemma InUnion(zones: seq<Zone>, b: nat)
    requires ZonesValid(zones)
    ensures b in UnionBlocks(zones) <==>
      exists k :: 0 <= k < |zones| && zones[k].start <= PAGE * b && PAGE * (b + 1) <= zones[k].start + zones[k].size
  {
    forall k | 0 <= k < |zones|
      ensures b in ZoneBlocks(zones[k]) <==>
              zones[k].start <= PAGE * b && PAGE * (b + 1) <= zones[k].start + zones[k].size
    {
      assert ZoneValid(zones[k]);
    }
  }

  /** The total memory is that of the zones' union: nothing is counted twice, and nothing is left out. */
  lemma {:induction false} TotalIsUnion(zones: seq<Zone>)
    requires ZonesValid(zones)
    ensures TotalOf(zones) == PAGE * |UnionBlocks(zones)|
  {
    var n := |zones| - 1;
    if n >= 0 {
      TotalIsUnion(zones[..n]);
      var last := ZoneBlocks(zones[n]);
      assert ZoneValid(zones[n]);
      BlockRangeSize(Block(zones[n].start), zones[n].size / PAGE);
      forall b | b in UnionBlocks(zones[..n])
        ensures b !in last
      {
        var k :| 0 <= k < n && b in ZoneBlocks(zones[..n][k]);
        BlockApart(zones, k, n, b);
      }
      UnionLast(zones);
    } else {
      assert UnionBlocks(zones) == {};
    }
  }

  lemma BlockApart(zones: seq<Zone>, i: nat, j: nat, b: nat)
    requires ZonesValid(zones) && i < |zones| && j < |zones| && i != j && b in ZoneBlocks(zones[i])
    ensures b !in ZoneBlocks(zones[j])
  {
    assert ZoneValid(zones[i]) && ZoneValid(zones[j]);
    ZonesApart(zones, i, j);
  }

  lemma UnionLast(zones: seq<Zone>)
    requires |zones| > 0
    ensures UnionBlocks(zones) == UnionBlocks(zones[..|zones| - 1]) + ZoneBlocks(zones[|zones| - 1])
  {
    var n := |zones| - 1;
    forall b
      ensures b in UnionBlocks(zones) <==> b in UnionBlocks(zones[..n]) || b in ZoneBlocks(zones[n])
    {
      if b in UnionBlocks(zones) {
        var k :| 0 <= k < |zones| && b in ZoneBlocks(zones[k]);
        assert k < n ==> zones[..n][k] == zones[k];
      }
      if b in UnionBlocks(zones[..n]) {
        var k :| 0 <= k < n && b in ZoneBlocks(zones[..n][k]);
        assert zones[k] == zones[..n][k];
      }
    }
  }

  /** All zones lie below the end of the address space, and so does their total. */
  lemma TotalFits(zones: seq<Zone>)
    requires ZonesValid(zones)
    ensures TotalOf(zones) < TWO32
  {
    TotalIsUnion(zones);
    var all := BlockRange(0, TWO32 / PAGE - 1);
    BlockRangeSize(0, TWO32 / PAGE - 1);
    forall b | b in UnionBlocks(zones)
      ensures b in all
    {
      InUnion(zones, b);
    }
    SubsetSize(UnionBlocks(zones), all);
  }

  lemma {:induction false} TotalConcat(x: seq<Zone>, y: seq<Zone>)
    ensures TotalOf(x + y) == TotalOf(x) + TotalOf(y)
  {
    if |y| > 0 {
      TotalConcat(x, y[..|y| - 1]);
      assert (x + y)[..|x + y| - 1] == x + y[..|y| - 1];
    } else {
      assert x + y == x;
    }
  }

  /** The total is that of the extents: it does not change as blocks come and go. */
  lemma {:induction false} SameTotal(x: seq<Zone>, y: seq<Zone>)
    requires Extents(x) == Extents(y)
    ensures TotalOf(x) == TotalOf(y)
  {
    var n := |Extents(x)| - 1;
    assert |x| == |y| == n + 1;
    if n >= 0 {
      assert Extents(x)[n] == Extents(y)[n];
      assert Extents(x[..n]) == Extents(x)[..n] && Extents(y[..n]) == Extents(y)[..n];
      SameTotal(x[..n], y[..n]);
    }
  }

  lemma {:induction false} PiecesTotal(start: nat, unit: nat, rest: nat, total: nat)
    requires Spans(unit, rest, total)
    ensures TotalOf(NewZones(Pieces(start, unit, rest))) == total
    decreases rest
  {
    var all := Pieces(start, unit, rest);
    if rest > 0 {
      SpansHalf(unit, rest, total);
      if rest % 2 == 1 {
        var more := Pieces(start + unit, 2 * unit, rest / 2);
        PiecesTotal(start + unit, 2 * unit, rest / 2, total - unit);
        assert NewZones(all) == NewZones([Piece(start, unit)]) + NewZones(more);
        TotalConcat(NewZones([Piece(start, unit)]), NewZones(more));
        OneTotal(Piece(start, unit));
      } else {
        PiecesTotal(start, 2 * unit, rest / 2, total);
      }
    } else {
      assert unit * 0 == 0;
    }
  }

  lemma OneTotal(piece: Piece)
    ensures TotalOf(NewZones([piece])) == piece.size
  {
    var one := NewZones([piece]);
    assert one == [NewZone(piece)] && one[..0] == [];
  }

  /** A zone added in full adds its size to the total. */
  lemma AddedTotal(zones: seq<Zone>, start: nat, size: nat)
    ensures TotalOf(zones + NewZones(Pieces(start, 1, size))) == TotalOf(zones) + size
  {
    assert Spans(1, size, size);
    PiecesTotal(start, 1, size, size);
    TotalConcat(zones, NewZones(Pieces(start, 1, size)));
  }

  // When memory is used up.

  /** The buddies grant a single block whenever they have one. */
  ghost predicate Willing(lib: Library) {
    forall call, z, a {:trigger Available(z, a, 1), lib.grant(call, z, 1)} ::
      ZoneValid(z) && Available(z, a, 1) ==> Grant(lib, call, z, 1).Some?
  }

  /** A zone without an available block is used up. */
  lemma FullZone(z: Zone)
    requires ZoneValid(z) && forall a :: !Available(z, a, 1)
    ensures z.counter == z.size
  {
    var all := ZoneBlocks(z);
    forall b | b in all
      ensures b in UsedBlocks(z.runs)
    {
      assert !Available(z, PAGE * b, 1);
      assert BlockRange(Block(PAGE * b), 1) == {b};
    }
    SubsetSize(all, UsedBlocks(z.runs));
    BlockRangeSize(Block(z.start), z.size / PAGE);
    AllocatedFits(z);
  }

  /** Willing buddies turn a request for one frame down only when every frame is in use. */
  lemma {:induction false} RefusedIsFull(lib: Library, zones: seq<Zone>, call: nat)
    requires Willing(lib) && ZonesValid(zones) && NoneGrants(lib, zones, call, 1)
    ensures CounterSum(zones) == TotalOf(zones)
  {
    var n := |zones| - 1;
    if n >= 0 {
      RefusedIsFull(lib, zones[..n], call);
      var z := zones[n];
      forall a
        ensures !Available(z, a, 1)
      {
        assert Grant(lib, call, z, 1) == None;
        var answer := lib.grant(call, z, 1);
      }
      FullZone(z);
    }
  }
}
