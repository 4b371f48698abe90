/** What of the available memory the zones made at boot manage. */
module BootCoverage {
  import opened Common
  import opened ZonePieces
  import opened ZonedBuddy
  import opened SetupPaging
  import ZoneTotals

  predicate InPiece(piece: Piece, a: nat) { piece.start <= a < piece.start + piece.size }

  predicate InZone(z: Zone, a: nat) { z.start <= a < z.start + z.size }

  /** Some zone manages the byte at a. */
  ghost predicate Managed(zones: seq<Zone>, a: nat) { exists k: nat :: k < |zones| && InZone(zones[k], a) }

  /** Where pieces that follow one another from `start` end. */
  function Reach(start: nat, pieces: seq<Piece>): nat
    decreases |pieces|
  {
    if |pieces| == 0 then start else Reach(start + pieces[0].size, pieces[1..])
  }

  lemma {:induction false} TileReach(start: nat, end: nat, pieces: seq<Piece>, done: nat)
    requires Tile(start, end, pieces) && done <= |pieces|
    ensures Tile(start, Reach(start, pieces[..done]), pieces[..done])
    ensures done == |pieces| ==> Reach(start, pieces[..done]) == end
    decreases |pieces|
  {
    if done > 0 {
      TileReach(start + pieces[0].size, end, pieces[1..], done - 1);
      assert pieces[..done][1..] == pieces[1..][..done - 1];
    }
  }

  /** Pieces that follow one another leave no gap. */
  lemma {:induction false} TileCovers(start: nat, end: nat, pieces: seq<Piece>, a: nat)
    requires Tile(start, end, pieces)
    ensures start <= end
    ensures start <= a < end <==> exists k: nat :: k < |pieces| && InPiece(pieces[k], a)
    decreases |pieces|
  {
    if |pieces| > 0 {
      var middle, rest := start + pieces[0].size, pieces[1..];
      TileCovers(middle, end, rest, a);
      if middle <= a < end {
        var k: nat :| k < |rest| && InPiece(rest[k], a);
        assert InPiece(pieces[k + 1], a);
      }
      if start <= a < middle { assert InPiece(pieces[0], a); }
      if k: nat :| k < |pieces| && InPiece(pieces[k], a) {
        assert k > 0 ==> InPiece(rest[k - 1], a);
      }
    }
  }

  /** Where the zones of an area end of which `done` were made. */
  function AreaEnd(area: Area, kernelEnd: nat, done: nat): nat {
    var pieces := AreaPieces(area, kernelEnd);
    Reach(ZonesStart(area, kernelEnd), if done <= |pieces| then pieces[..done] else [])
  }

  predicate InArea(area: Area, kernelEnd: nat, done: nat, a: nat) {
    ZonesStart(area, kernelEnd) <= a < AreaEnd(area, kernelEnd, done)
  }

  /** The zones of one area are without gap, and reach the end of its range if all were made. */
  lemma AreaCovers(area: Area, kernelEnd: nat, done: nat, a: nat)
    ensures InArea(area, kernelEnd, done, a) <==> Managed(AreaZones(area, kernelEnd, done), a)
    ensures done == |AreaPieces(area, kernelEnd)| ==>
      AreaEnd(area, kernelEnd, done) == ZonesStart(area, kernelEnd) + ZonesSize(area, kernelEnd)
  {
    var start, size := ZonesStart(area, kernelEnd), ZonesSize(area, kernelEnd);
    var pieces, zones := AreaPieces(area, kernelEnd), AreaZones(area, kernelEnd, done);
    PiecesTile(start, 1, size, size);
    if done <= |pieces| {
      TileReach(start, start + size, pieces, done);
      TileCovers(start, AreaEnd(area, kernelEnd, done), pieces[..done], a);
      if k: nat :| k < |pieces[..done]| && InPiece(pieces[..done][k], a) { assert InZone(zones[k], a); }
      if k: nat :| k < |zones| && InZone(zones[k], a) { assert InPiece(pieces[..done][k], a); }
    }
  }

  /** A byte is managed after boot exactly if it lies in the part of some area of which the zones were made. */
  lemma {:induction false} BootCovers(areas: seq<Area>, kernelEnd: nat, done: seq<nat>, a: nat)
    requires |done| == |areas|
    ensures Managed(BootZones(areas, kernelEnd, done), a)
       <==> (exists i: nat :: i < |areas| && InArea(areas[i], kernelEnd, done[i], a))
    decreases |areas|
  {
    var n := |areas| - 1;
    if n >= 0 {
      BootCovers(areas[..n], kernelEnd, done[..n], a);
      AreaCovers(areas[n], kernelEnd, done[n], a);
      var first, last := BootZones(areas[..n], kernelEnd, done[..n]), AreaZones(areas[n], kernelEnd, done[n]);
      var zones := BootZones(areas, kernelEnd, done);
      assert zones == first + last;
      hide BootZones;
      hide AreaZones;
      hide InArea;
      JoinZones(first, last, a);
      if i: nat :| i < |areas| && InArea(areas[i], kernelEnd, done[i], a) {
        assert i < n ==> InArea(areas[..n][i], kernelEnd, done[..n][i], a);
      }
      if i: nat :| i < n && InArea(areas[..n][i], kernelEnd, done[..n][i], a) {
        assert InArea(areas[i], kernelEnd, done[i], a);
      }
    }
  }

  lemma JoinZones(x: seq<Zone>, y: seq<Zone>, a: nat)
    ensures Managed(x + y, a) <==> Managed(x, a) || Managed(y, a)
  {
    if k: nat :| k < |x + y| && InZone((x + y)[k], a) {
      if k < |x| { assert InZone(x[k], a); } else { assert InZone(y[k - |x|], a); }
    }
    if k: nat :| k < |x| && InZone(x[k], a) { assert InZone((x + y)[k], a); }
    if k: nat :| k < |y| && InZone(y[k], a) { assert InZone((x + y)[|x| + k], a); }
  }

  /** No buddy of a zone could not be created. */
  ghost predicate AllMade(areas: seq<Area>, kernelEnd: nat, done: seq<nat>)
    requires |done| == |areas|
  {
    forall i :: 0 <= i < |areas| ==> done[i] == |AreaPieces(areas[i], kernelEnd)|
  }

  /** An area whose zones were not all made is one for which the creation of a buddy failed. */
  lemma {:induction false} MadeUnlessFailed(lib: Library, from: nat, areas: seq<Area>, kernelEnd: nat, done: seq<nat>,
                                            i: nat)
    requires |done| == |areas| && i < |areas| && AllTried(lib, from, areas, kernelEnd, done)
    ensures done[i] <= |AreaPieces(areas[i], kernelEnd)|
    ensures done[i] < |AreaPieces(areas[i], kernelEnd)| ==>
      !lib.create(from + Tries(areas[..i], kernelEnd, done[..i]) + done[i], AreaPieces(areas[i], kernelEnd)[done[i]])
    decreases |areas|
  {
    hide Tries;
    hide AreaPieces;
    var n := |areas| - 1;
    if i < n {
      MadeUnlessFailed(lib, from, areas[..n], kernelEnd, done[..n], i);
      assert areas[..n][..i] == areas[..i] && done[..n][..i] == done[..i];
    }
  }

  /** Every attempt to create a buddy succeeds. */
  ghost predicate Creating(lib: Library) {
    forall n, piece {:trigger lib.create(n, piece)} :: lib.create(n, piece)
  }

  lemma CreatingMakesAll(lib: Library, from: nat, areas: seq<Area>, kernelEnd: nat, done: seq<nat>)
    requires |done| == |areas| && AllTried(lib, from, areas, kernelEnd, done) && Creating(lib)
    ensures AllMade(areas, kernelEnd, done)
  {
    forall i | 0 <= i < |areas|
      ensures done[i] == |AreaPieces(areas[i], kernelEnd)|
    {
      MadeUnlessFailed(lib, from, areas, kernelEnd, done, i);
    }
  }

  /** If every buddy can be created, the zones cover each available area past the kernel but for less than a
      block at either end, and nothing else. */
  lemma FullCoverage(areas: seq<Area>, kernelEnd: nat, done: seq<nat>, a: nat)
    requires AreasValid(areas) && kernelEnd <= LAST_FRAME && |done| == |areas| && AllMade(areas, kernelEnd, done)
    ensures (exists i: nat :: i < |areas| && Inner(areas[i], kernelEnd, a)) ==>
      Managed(BootZones(areas, kernelEnd, done), a)
    ensures Managed(BootZones(areas, kernelEnd, done), a) ==>
      exists i: nat :: i < |areas| && Usable(areas[i], kernelEnd, a)
  {
    hide Inner;
    hide Usable;
    hide InArea;
    BootCovers(areas, kernelEnd, done, a);
    hide BootZones;
    hide Managed;
    forall i: nat | i < |areas|
      ensures Inner(areas[i], kernelEnd, a) ==> InArea(areas[i], kernelEnd, done[i], a)
      ensures InArea(areas[i], kernelEnd, done[i], a) ==> Usable(areas[i], kernelEnd, a)
    {
      AreaBounds(areas[i], kernelEnd, done[i], a);
    }
    if i: nat :| i < |areas| && Inner(areas[i], kernelEnd, a) { assert InArea(areas[i], kernelEnd, done[i], a); }
    if i: nat :| i < |areas| && InArea(areas[i], kernelEnd, done[i], a) { assert Usable(areas[i], kernelEnd, a); }
  }

  /** In an available area past the kernel. */
  predicate Usable(area: Area, kernelEnd: nat, a: nat) {
    area.available && area.start <= a < area.end && kernelEnd <= a
  }

  /** In an available area past the kernel, a block or more away from either end. */
  predicate Inner(area: Area, kernelEnd: nat, a: nat) {
    area.available && Max(area.start, kernelEnd) + PAGE <= a && a + PAGE <= area.end
  }

  lemma AreaBounds(area: Area, kernelEnd: nat, done: nat, a: nat)
    requires (area.available ==> Low(area)) && kernelEnd <= LAST_FRAME && done == |AreaPieces(area, kernelEnd)|
    ensures Inner(area, kernelEnd, a) ==> InArea(area, kernelEnd, done, a)
    ensures InArea(area, kernelEnd, done, a) ==> Usable(area, kernelEnd, a)
  {
    AreaCovers(area, kernelEnd, done, a);
    if area.available { AreaRange(area, kernelEnd); }
  }

  /** Bytes of the ranges of all areas. */
  function RangesSize(areas: seq<Area>, kernelEnd: nat): nat {
    if |areas| == 0 then 0
    else RangesSize(areas[..|areas| - 1], kernelEnd) + ZonesSize(areas[|areas| - 1], kernelEnd)
  }

  /** The total memory after boot. */
  lemma {:induction false} BootTotal(areas: seq<Area>, kernelEnd: nat, done: seq<nat>)
    requires |done| == |areas| && AllMade(areas, kernelEnd, done)
    ensures TotalOf(BootZones(areas, kernelEnd, done)) == RangesSize(areas, kernelEnd)
    decreases |areas|
  {
    var n := |areas| - 1;
    if n >= 0 {
      BootTotal(areas[..n], kernelEnd, done[..n]);
      var pieces := AreaPieces(areas[n], kernelEnd);
      assert pieces[..done[n]] == pieces;
      ZoneTotals.AddedTotal(BootZones(areas[..n], kernelEnd, done[..n]), ZonesStart(areas[n], kernelEnd),
                            ZonesSize(areas[n], kernelEnd));
    }
  }
}
