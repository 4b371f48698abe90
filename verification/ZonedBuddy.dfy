/** The frame allocator: a list of zones, each with its own buddy allocator and byte counter. */
module ZonedBuddy {
  import opened Common
  import opened PageTables
  import opened ZonePieces

  /** The buddy allocator of a zone, known by its contract only: the runs it has handed out, start
      address to number of blocks. */
  type Runs = map<nat, nat>

  datatype Zone = Zone(start: nat, size: nat, counter: nat, runs: Runs)

  /** Number of the block at address a. */
  function Block(a: nat): nat { a / PAGE }

  predicate InRun(b: nat, first: nat, n: nat) { first <= b < first + n }

  /** The blocks from `first` on, `n` of them. */
  function BlockRange(first: nat, n: nat): set<nat> {
    set b | first <= b < first + n && InRun(b, first, n)
  }

  function UsedBlocks(runs: Runs): set<nat> {
    set a, b | a in runs && b in BlockRange(Block(a), runs[a]) :: b
  }

  ghost predicate RunsDisjoint(runs: Runs) {
    forall a, c, b {:trigger InRun(b, Block(a), runs[a]), InRun(b, Block(c), runs[c])} ::
      a in runs && c in runs && InRun(b, Block(a), runs[a]) && InRun(b, Block(c), runs[c]) ==> a == c
  }

  /** The run of `blocks` blocks at a lies in the zone, block-aligned. */
  predicate Inside(z: Zone, a: nat, blocks: nat) {
    a % PAGE == 0 && z.start <= a && a + PAGE * blocks <= z.start + z.size
  }

  ghost predicate ZoneValid(z: Zone) {
    && z.start % PAGE == 0 && z.size % PAGE == 0 && z.start + z.size < TWO32
    && (forall a {:trigger a in z.runs} :: a in z.runs ==> z.runs[a] > 0 && Inside(z, a, z.runs[a]))
    && RunsDisjoint(z.runs)
    && z.counter == PAGE * |UsedBlocks(z.runs)|
  }

  /** A run the buddy may hand out. */
  predicate Available(z: Zone, a: nat, blocks: nat) {
    blocks > 0 && Inside(z, a, blocks) && UsedBlocks(z.runs) !! BlockRange(Block(a), blocks)
  }

  lemma {:induction false} BlockRangeSize(first: nat, n: nat)
    ensures |BlockRange(first, n)| == n
  {
    if n > 0 {
      BlockRangeSize(first, n - 1);
      assert BlockRange(first, n) == BlockRange(first, n - 1) + {first + n - 1};
    }
  }

  lemma SubsetSize<T>(a: set<T>, b: set<T>)
    requires a <= b
    ensures |a| <= |b|
  {
    assert b == a + (b - a);
  }

  /** A counter never exceeds its zone. */
  lemma AllocatedFits(z: Zone)
    requires ZoneValid(z)
    ensures z.counter <= z.size
  {
    var n := z.size / PAGE;
    forall b | b in UsedBlocks(z.runs)
      ensures b in BlockRange(Block(z.start), n)
    {
      var a :| a in z.runs && b in BlockRange(Block(a), z.runs[a]);
    }
    SubsetSize(UsedBlocks(z.runs), BlockRange(Block(z.start), n));
    BlockRangeSize(Block(z.start), n);
  }

  /** Handing out an available run. */
  function Take(z: Zone, a: nat, size: nat): Zone {
    z.(counter := z.counter + size, runs := z.runs[a := size / PAGE])
  }

  lemma StartIsUsed(runs: Runs, a: nat)
    requires a in runs && runs[a] > 0
    ensures Block(a) in UsedBlocks(runs)
  {
    var b := Block(a);
    assert InRun(b, b, runs[a]);
    assert a in runs && b in BlockRange(Block(a), runs[a]);
  }

  lemma AvailableIsNew(z: Zone, a: nat, blocks: nat)
    requires ZoneValid(z) && Available(z, a, blocks)
    ensures a !in z.runs
  {
    assert InRun(Block(a), Block(a), blocks);
    assert Block(a) in BlockRange(Block(a), blocks);
    if a in z.runs { StartIsUsed(z.runs, a); }
  }

  lemma TakenBlocks(runs: Runs, a: nat, blocks: nat)
    requires a !in runs
    ensures UsedBlocks(runs[a := blocks]) == UsedBlocks(runs) + BlockRange(Block(a), blocks)
  {
    var more := runs[a := blocks];
    forall b | b in UsedBlocks(runs)
      ensures b in UsedBlocks(more)
    {
      var c :| c in runs && b in BlockRange(Block(c), runs[c]);
      assert c in more && more[c] == runs[c];
    }
    forall b | b in BlockRange(Block(a), blocks)
      ensures b in UsedBlocks(more)
    {
      assert a in more && more[a] == blocks;
    }
  }

  lemma TakeDisjoint(runs: Runs, a: nat, blocks: nat)
    requires RunsDisjoint(runs) && a !in runs && UsedBlocks(runs) !! BlockRange(Block(a), blocks)
    ensures RunsDisjoint(runs[a := blocks])
  {
    var more := runs[a := blocks];
    forall c, d, b | c in more && d in more && InRun(b, Block(c), more[c]) && InRun(b, Block(d), more[d])
      ensures c == d
    {
      assert b in BlockRange(Block(c), more[c]) && b in BlockRange(Block(d), more[d]);
      assert c != a ==> b in UsedBlocks(runs);
      assert d != a ==> b in UsedBlocks(runs);
      if c != a && d != a {
        assert InRun(b, Block(c), runs[c]) && InRun(b, Block(d), runs[d]);
      }
    }
  }

  lemma TakeValid(z: Zone, a: nat, blocks: nat)
    requires ZoneValid(z) && Available(z, a, blocks)
    ensures ZoneValid(Take(z, a, PAGE * blocks)) && a !in z.runs
  {
    hide RunsDisjoint;
    hide UsedBlocks;
    hide BlockRange;
    AvailableIsNew(z, a, blocks);
    TakenBlocks(z.runs, a, blocks);
    TakeDisjoint(z.runs, a, blocks);
    BlockRangeSize(Block(a), blocks);
  }

  /** Taking a run back. */
  function Release(z: Zone, a: nat, size: nat): Zone
    requires size <= z.counter
  {
    z.(counter := z.counter - size, runs := z.runs - {a})
  }

  lemma ReleaseValid(z: Zone, a: nat)
    requires ZoneValid(z) && a in z.runs
    ensures PAGE * z.runs[a] <= z.counter
    ensures ZoneValid(Release(z, a, PAGE * z.runs[a]))
  {
    var n := z.runs[a];
    var run := BlockRange(Block(a), n);
    BlockRangeSize(Block(a), n);
    assert run <= UsedBlocks(z.runs);
    SubsetSize(run, UsedBlocks(z.runs));
    var left := z.runs - {a};
    forall b
      ensures b in UsedBlocks(left) <==> b in UsedBlocks(z.runs) && b !in run
    {
      if b in UsedBlocks(left) {
        var c :| c in left && b in BlockRange(Block(c), left[c]);
        assert InRun(b, Block(c), z.runs[c]);
        assert b in run <==> InRun(b, Block(a), z.runs[a]);
      }
      if b in UsedBlocks(z.runs) && b !in run {
        var c :| c in z.runs && b in BlockRange(Block(c), z.runs[c]);
        assert c in left;
      }
    }
    assert UsedBlocks(left) == UsedBlocks(z.runs) - run;
    assert RunsDisjoint(left) by {
      forall c, d, b | c in left && d in left && InRun(b, Block(c), left[c]) && InRun(b, Block(d), left[d])
        ensures c == d
      {
        assert InRun(b, Block(c), z.runs[c]) && InRun(b, Block(d), z.runs[d]);
      }
    }
  }

  // The list of zones.

  ghost predicate Apart(y: Zone, z: Zone) { y.start + y.size <= z.start || z.start + z.size <= y.start }

  ghost predicate ZonesValid(zones: seq<Zone>) {
    && (forall i :: 0 <= i < |zones| ==> ZoneValid(zones[i]) && zones[i].size > 0)
    && (forall i, j :: 0 <= i < j < |zones| ==> Apart(zones[i], zones[j]))
  }

  /** `live` lists the runs of all zones, sizes in bytes. */
  ghost predicate LiveIs(zones: seq<Zone>, live: map<nat, nat>) {
    && (forall i, a {:trigger HasRun(zones, i, a)} :: HasRun(zones, i, a) ==>
          a in live && live[a] == PAGE * zones[i].runs[a])
    && (forall a :: a in live ==> exists i :: HasRun(zones, i, a))
  }

  predicate HasRun(zones: seq<Zone>, i: int, a: nat) { 0 <= i < |zones| && a in zones[i].runs }

  function ExtentOf(z: Zone): Extent { Extent(z.start, z.size) }

  function Extents(zones: seq<Zone>): (e: seq<Extent>)
    ensures |e| == |zones| && forall i :: 0 <= i < |e| ==> e[i] == ExtentOf(zones[i])
  {
    seq(|zones|, i requires 0 <= i < |zones| => ExtentOf(zones[i]))
  }

  /** The zone test of `free`, in machine arithmetic. */
  predicate Covers(z: Zone, a: nat, size: nat) { a >= z.start && Sum32(a, size) <= Sum32(z.start, z.size) }

  /** What the test means: the block lies in the zone, unless it reaches the end of the address space. */
  lemma CoversMeans(z: Zone, a: nat, size: nat)
    requires z.start + z.size < TWO32
    ensures a + size < TWO32 ==> (Covers(z, a, size) <==> z.start <= a && a + size <= z.start + z.size)
    ensures a + size == TWO32 ==> (Covers(z, a, size) <==> z.start <= a)
  {
  }

  /** Why zones stay below the end of the address space: one that reaches it passes no test but for
      blocks that reach it too, and its other blocks are never taken back. */
  lemma LastZone(z: Zone, a: nat, size: nat)
    requires z.start + z.size == TWO32 && a + size <= TWO32 && size > 0
    ensures Covers(z, a, size) <==> z.start <= a && a + size == TWO32
  {
  }

  lemma ZoneFits(zones: seq<Zone>, i: nat)
    requires ZonesValid(zones) && i < |zones|
    ensures zones[i].start + zones[i].size < TWO32
  {
    assert ZoneValid(zones[i]);
  }

  lemma AvailableFits(z: Zone, a: nat, blocks: nat)
    requires z.start + z.size < TWO32 && Available(z, a, blocks)
    ensures Covers(z, a, PAGE * blocks)
  {
    CoversMeans(z, a, PAGE * blocks);
  }

  lemma LiveFits(zones: seq<Zone>, live: map<nat, nat>, a: nat)
    requires ZonesValid(zones) && LiveIs(zones, live) && a in live
    ensures a + live[a] < TWO32
  {
    var i :| HasRun(zones, i, a);
    RunInside(zones[i], a);
  }

  function TotalOf(zones: seq<Zone>): nat {
    if |zones| == 0 then 0 else TotalOf(zones[..|zones| - 1]) + zones[|zones| - 1].size
  }

  function CounterSum(zones: seq<Zone>): nat {
    if |zones| == 0 then 0 else CounterSum(zones[..|zones| - 1]) + zones[|zones| - 1].counter
  }

  lemma {:induction false} CounterSumUpdate(zones: seq<Zone>, k: nat, z: Zone)
    requires k < |zones|
    ensures CounterSum(zones[k := z]) == CounterSum(zones) - zones[k].counter + z.counter
  {
    var n := |zones| - 1;
    if k < n {
      CounterSumUpdate(zones[..n], k, z);
      assert zones[k := z][..n] == zones[..n][k := z];
    } else {
      assert zones[k := z][..n] == zones[..n];
    }
  }

  lemma {:induction false} CountersFit(zones: seq<Zone>)
    requires ZonesValid(zones)
    ensures CounterSum(zones) <= TotalOf(zones)
  {
    if |zones| > 0 {
      CountersFit(zones[..|zones| - 1]);
      AllocatedFits(zones[|zones| - 1]);
    }
  }

  lemma ZonesApart(zones: seq<Zone>, i: nat, j: nat)
    requires ZonesValid(zones) && i < |zones| && j < |zones| && i != j
    ensures Apart(zones[i], zones[j])
  {
    if i < j {
      assert Apart(zones[i], zones[j]);
    } else {
      assert Apart(zones[j], zones[i]);
    }
  }

  /** Replacing a zone by one with the same extent keeps the list valid. */
  lemma ReplaceZone(zones: seq<Zone>, k: nat, z: Zone)
    requires ZonesValid(zones) && k < |zones| && ZoneValid(z) && ExtentOf(z) == ExtentOf(zones[k])
    ensures ZonesValid(zones[k := z]) && Extents(zones[k := z]) == Extents(zones)
    ensures CounterSum(zones[k := z]) == CounterSum(zones) - zones[k].counter + z.counter
  {
    CounterSumUpdate(zones, k, z);
    var next := zones[k := z];
    forall i, j | 0 <= i < j < |next|
      ensures Apart(next[i], next[j])
    {
      assert Apart(zones[i], zones[j]);
    }
  }

  /** A run lies in its zone, and the zone passes the test for it. */
  lemma RunInside(z: Zone, a: nat)
    requires ZoneValid(z) && a in z.runs
    ensures z.runs[a] > 0 && z.start <= a && a + PAGE * z.runs[a] <= z.start + z.size < TWO32
    ensures Covers(z, a, PAGE * z.runs[a])
  {
    assert Inside(z, a, z.runs[a]);
    CoversMeans(z, a, PAGE * z.runs[a]);
  }

  /** An address lies in at most one zone. */
  lemma ZoneOf(zones: seq<Zone>, i: nat, j: nat, a: nat)
    requires ZonesValid(zones) && i < |zones| && j < |zones|
    requires zones[i].start <= a < zones[i].start + zones[i].size
    requires zones[j].start <= a < zones[j].start + zones[j].size
    ensures i == j
  {
    if i != j { ZonesApart(zones, i, j); }
  }

  /** At most one zone passes the test for a non-empty block. */
  lemma OneZone(zones: seq<Zone>, i: nat, j: nat, a: nat, size: nat, n: nat)
    requires ZonesValid(zones) && i < |zones| && j < |zones| && size > 0 && n > 0
    requires Covers(zones[i], a, size) && Covers(zones[j], a, n) && a + size < TWO32 && a + n < TWO32
    ensures i == j
  {
    assert ZoneValid(zones[i]) && ZoneValid(zones[j]);
    CoversMeans(zones[i], a, size);
    CoversMeans(zones[j], a, n);
    ZoneOf(zones, i, j, a);
  }

  lemma OneRun(zones: seq<Zone>, i: nat, j: nat, a: nat)
    requires ZonesValid(zones) && HasRun(zones, i, a) && HasRun(zones, j, a)
    ensures i == j
  {
    RunInside(zones[i], a);
    RunInside(zones[j], a);
    ZoneOf(zones, i, j, a);
  }

  lemma NotLive(zones: seq<Zone>, live: map<nat, nat>, k: nat, a: nat, blocks: nat)
    requires ZonesValid(zones) && LiveIs(zones, live) && k < |zones| && Available(zones[k], a, blocks)
    ensures a !in live
  {
    AvailableIsNew(zones[k], a, blocks);
    if a in live {
      var i :| HasRun(zones, i, a);
      RunInside(zones[i], a);
      ZoneOf(zones, k, i, a);
    }
  }

  /** The zone that passes the test for a live block is the one that handed it out. */
  lemma RunOf(zones: seq<Zone>, live: map<nat, nat>, i: nat, a: nat, size: nat)
    requires ZonesValid(zones) && LiveIs(zones, live) && i < |zones| && Covers(zones[i], a, size)
    requires a in live && live[a] == size
    ensures HasRun(zones, i, a) && size == PAGE * zones[i].runs[a]
  {
    hide Covers;
    var j :| HasRun(zones, j, a);
    RunInside(zones[j], a);
    OneZone(zones, i, j, a, size, size);
  }

  lemma TakeLive(zones: seq<Zone>, live: map<nat, nat>, k: nat, a: nat, blocks: nat)
    requires LiveIs(zones, live) && k < |zones| && a !in live
    ensures LiveIs(zones[k := Take(zones[k], a, PAGE * blocks)], live[a := PAGE * blocks])
  {
    var next, more := zones[k := Take(zones[k], a, PAGE * blocks)], live[a := PAGE * blocks];
    assert next[k].runs == zones[k].runs[a := blocks];
    forall i, c | HasRun(next, i, c)
      ensures c in more && more[c] == PAGE * next[i].runs[c]
    {
      assert c == a || HasRun(zones, i, c);
      if c == a && i != k { assert HasRun(zones, i, a); }
    }
    forall c | c in more
      ensures exists i :: HasRun(next, i, c)
    {
      if c == a {
        assert HasRun(next, k, c);
      } else {
        var i :| HasRun(zones, i, c);
        assert HasRun(next, i, c);
      }
    }
  }

  lemma TakeInZones(zones: seq<Zone>, live: map<nat, nat>, k: nat, a: nat, blocks: nat)
    requires ZonesValid(zones) && LiveIs(zones, live) && k < |zones| && Available(zones[k], a, blocks)
    ensures var next := zones[k := Take(zones[k], a, PAGE * blocks)];
            && ZonesValid(next) && LiveIs(next, live[a := PAGE * blocks]) && a !in live
            && Extents(next) == Extents(zones)
            && CounterSum(next) == CounterSum(zones) + PAGE * blocks
  {
    NotLive(zones, live, k, a, blocks);
    TakeValid(zones[k], a, blocks);
    ReplaceZone(zones, k, Take(zones[k], a, PAGE * blocks));
    TakeLive(zones, live, k, a, blocks);
  }

  lemma ReleaseLive(zones: seq<Zone>, live: map<nat, nat>, k: nat, a: nat, z: Zone)
    requires ZonesValid(zones) && LiveIs(zones, live) && k < |zones| && a in zones[k].runs
    requires z.runs == zones[k].runs - {a}
    ensures LiveIs(zones[k := z], live - {a})
  {
    var next, less := zones[k := z], live - {a};
    forall i, c | HasRun(next, i, c)
      ensures c in less && less[c] == PAGE * next[i].runs[c]
    {
      assert HasRun(zones, i, c);
      if a in zones[i].runs { OneRun(zones, i, k, a); }
    }
    forall c | c in less
      ensures exists i :: HasRun(next, i, c)
    {
      var i :| HasRun(zones, i, c);
      assert HasRun(next, i, c);
    }
  }

  lemma ReleaseInZones(zones: seq<Zone>, live: map<nat, nat>, k: nat, a: nat)
    requires ZonesValid(zones) && LiveIs(zones, live) && k < |zones| && a in zones[k].runs
    ensures PAGE * zones[k].runs[a] <= zones[k].counter
    ensures var next := zones[k := Release(zones[k], a, PAGE * zones[k].runs[a])];
            && ZonesValid(next) && LiveIs(next, live - {a})
            && Extents(next) == Extents(zones)
            && CounterSum(next) == CounterSum(zones) - PAGE * zones[k].runs[a]
  {
    ReleaseValid(zones[k], a);
    var z := Release(zones[k], a, PAGE * zones[k].runs[a]);
    ReplaceZone(zones, k, z);
    ReleaseLive(zones, live, k, a, z);
  }

  /** Live allocations do not overlap, and each lies in one zone. */
  lemma LiveDisjoint(zones: seq<Zone>, live: map<nat, nat>, a: nat, c: nat)
    requires ZonesValid(zones) && LiveIs(zones, live) && a in live && c in live && a != c
    ensures a + live[a] <= c || c + live[c] <= a
    ensures exists i :: 0 <= i < |zones| && Covers(zones[i], a, live[a])
  {
    var i :| HasRun(zones, i, a);
    var j :| HasRun(zones, j, c);
    RunInside(zones[i], a);
    RunInside(zones[j], c);
    if i == j {
      RunsApart(zones[i], a, c);
    } else {
      ZonesApart(zones, i, j);
    }
  }

  lemma RunsApart(z: Zone, a: nat, c: nat)
    requires ZoneValid(z) && a in z.runs && c in z.runs && a != c
    ensures a + PAGE * z.runs[a] <= c || c + PAGE * z.runs[c] <= a
  {
    var x, y := Block(a), Block(c);
    var n, m := z.runs[a], z.runs[c];
    assert a == PAGE * x && c == PAGE * y;
    assert !(InRun(x, x, n) && InRun(x, y, m)) && !(InRun(y, x, n) && InRun(y, y, m));
  }

  lemma ManagedAt(zones: seq<Zone>, i: nat, a: nat, size: nat)
    requires i < |zones| && Covers(zones[i], a, size)
    ensures Manages(Extents(zones), a, size)
  {
    assert Extents(zones)[i] == ExtentOf(zones[i]);
  }

  lemma ManagedSomewhere(zones: seq<Zone>, a: nat, size: nat)
    ensures Manages(Extents(zones), a, size) <==> exists k :: 0 <= k < |zones| && Covers(zones[k], a, size)
  {
    forall k | 0 <= k < |zones|
      ensures Extents(zones)[k] == ExtentOf(zones[k])
    {
    }
  }

  /** The blocks of an available run are managed one by one. */
  lemma FirstManaged(zones: seq<Zone>, i: nat, a: nat, blocks: nat)
    requires ZonesValid(zones) && i < |zones| && Available(zones[i], a, blocks)
    ensures Manages(Extents(zones), a, PAGE)
  {
    ZoneFits(zones, i);
    CoversMeans(zones[i], a, PAGE);
    ManagedAt(zones, i, a, PAGE);
  }

  /** A zone as it is pushed. */
  function NewZone(piece: Piece): Zone { Zone(piece.start, piece.size, 0, map[]) }

  function NewZones(pieces: seq<Piece>): (zones: seq<Zone>)
    ensures |zones| == |pieces| && forall i :: 0 <= i < |zones| ==> zones[i] == NewZone(pieces[i])
  {
    seq(|pieces|, i requires 0 <= i < |pieces| => NewZone(pieces[i]))
  }

  /** No zone meets [start, end). */
  ghost predicate RangeFree(zones: seq<Zone>, start: nat, end: nat) {
    forall i :: 0 <= i < |zones| ==> end <= zones[i].start || zones[i].start + zones[i].size <= start
  }

  lemma PushOne(zones: seq<Zone>, live: map<nat, nat>, piece: Piece)
    requires ZonesValid(zones) && LiveIs(zones, live) && RangeFree(zones, piece.start, piece.start + piece.size)
    requires piece.start % PAGE == 0 && piece.size % PAGE == 0 && piece.size > 0 && piece.start + piece.size < TWO32
    ensures ZonesValid(zones + [NewZone(piece)]) && LiveIs(zones + [NewZone(piece)], live)
  {
    var z, more := NewZone(piece), zones + [NewZone(piece)];
    assert UsedBlocks(z.runs) == {};
    forall i, j | 0 <= i < j < |more|
      ensures Apart(more[i], more[j])
    {
      if j < |zones| { assert Apart(zones[i], zones[j]); }
    }
    forall i, a | HasRun(more, i, a)
      ensures a in live && live[a] == PAGE * more[i].runs[a]
    {
      assert HasRun(zones, i, a);
    }
    forall a | a in live
      ensures exists i :: HasRun(more, i, a)
    {
      var i :| HasRun(zones, i, a);
      assert HasRun(more, i, a);
    }
  }

  /** Where the loop of `add_zone` stands: `done` pieces pushed, `rest` bits to go. */
  ghost predicate Progress(all: seq<Piece>, done: nat, start: nat, unit: nat, rest: nat) {
    done <= |all| && all[done..] == Pieces(start, unit, rest)
  }

  lemma ProgressStep(all: seq<Piece>, done: nat, start: nat, unit: nat, rest: nat)
    requires Progress(all, done, start, unit, rest)
    ensures rest % 2 == 1 ==> done < |all| && all[done] == Piece(start, unit)
                              && Progress(all, done + 1, start + unit, 2 * unit, rest / 2)
    ensures rest % 2 == 0 ==> Progress(all, done, start, 2 * unit, rest / 2)
    ensures rest == 0 ==> done == |all|
  {
    if rest % 2 == 1 {
      assert all[done + 1..] == all[done..][1..];
      assert Pieces(start, unit, rest)[1..] == Pieces(start + unit, 2 * unit, rest / 2);
    } else if rest == 0 {
      assert Pieces(start, 2 * unit, 0) == [];
    }
  }

  /** The next piece may be pushed after the ones before it. */
  lemma PieceFits(zones: seq<Zone>, start: nat, size: nat, done: nat)
    requires start % PAGE == 0 && size % PAGE == 0 && RangeFree(zones, start, start + size)
    requires done < |Pieces(start, 1, size)|
    ensures var all := Pieces(start, 1, size);
            && Within(all[done], start, start + size)
            && RangeFree(zones + NewZones(all[..done]), all[done].start, all[done].start + all[done].size)
  {
    var all := Pieces(start, 1, size);
    var more := zones + NewZones(all[..done]);
    PiecesAligned(start, 1, size, size, done);
    forall i | 0 <= i < |more|
      ensures all[done].start + all[done].size <= more[i].start || more[i].start + more[i].size <= all[done].start
    {
      if i >= |zones| {
        assert more[i] == NewZone(all[i - |zones|]);
        PiecesOrdered(start, 1, size, i - |zones|, done);
      }
    }
  }

  lemma OnePiece(start: nat, size: nat)
    requires IsPowerOfTwo(size)
    ensures Pieces(start, 1, size) == [Piece(start, size)]
  {
    var k := PowerIsPow2(size);
    PiecesOfPower(start, 1, k);
  }

  lemma StartProgress(start: nat, size: nat)
    ensures Progress(Pieces(start, 1, size), 0, start, Pow2(0), size / Pow2(0))
  {
  }

  lemma OneMore(zones: seq<Zone>, all: seq<Piece>, done: nat, added: bool)
    requires done < |all|
    ensures var more := zones + NewZones(all[..done]);
            && more + NewZones([all[done]][..1]) == zones + NewZones(all[..done + 1])
            && more + NewZones([all[done]][..0]) == more
  {
    assert all[..done + 1] == all[..done] + [all[done]];
  }

  // The buddies' own decisions.

  /** The buddy library, as far as it decides: what a zone's buddy answers when it is asked for a number
      of blocks in the n-th call, and whether the n-th attempt to create a buddy succeeds. */
  datatype Library = Library(grant: (nat, Zone, nat) -> Option<nat>, create: (nat, Piece) -> bool)

  /** The answer of a zone's buddy: it grants only what is there. */
  function Grant(lib: Library, call: nat, z: Zone, blocks: nat): (r: Option<nat>)
    ensures forall a :: r == Some(a) <==> lib.grant(call, z, blocks) == Some(a) && Available(z, a, blocks)
  {
    var answer := lib.grant(call, z, blocks);
    if answer.Some? && Available(z, answer.value, blocks) then answer else None
  }

  /** Every zone turns the call down. */
  ghost predicate NoneGrants(lib: Library, zones: seq<Zone>, call: nat, blocks: nat) {
    forall k :: 0 <= k < |zones| ==> Grant(lib, call, zones[k], blocks) == None
  }

  /** Zone k grants the block at a, and the zones before it turn the call down. */
  ghost predicate FirstGrants(lib: Library, zones: seq<Zone>, call: nat, blocks: nat, k: nat, a: nat) {
    k < |zones| && Grant(lib, call, zones[k], blocks) == Some(a) && NoneGrants(lib, zones[..k], call, blocks)
  }

  /** What the first zone to grant hands out is managed block by block. */
  lemma GrantedManaged(lib: Library, zones: seq<Zone>, call: nat, blocks: nat, a: nat)
    requires ZonesValid(zones) && exists k: nat :: FirstGrants(lib, zones, call, blocks, k, a)
    ensures Manages(Extents(zones), a, PAGE)
  {
    var k: nat :| FirstGrants(lib, zones, call, blocks, k, a);
    FirstManaged(zones, k, a, blocks);
  }

  /** The first `done` of the pieces get a buddy; the attempts are numbered from `from`. */
  ghost predicate Created(lib: Library, from: nat, pieces: seq<Piece>, done: nat) {
    done <= |pieces| && forall i :: 0 <= i < done ==> lib.create(from + i, pieces[i])
  }

  /** They do, and the next one, if any, does not. */
  ghost predicate Creates(lib: Library, from: nat, pieces: seq<Piece>, done: nat) {
    Created(lib, from, pieces, done) && (done < |pieces| ==> !lib.create(from + done, pieces[done]))
  }

  lemma CreatedNext(lib: Library, from: nat, pieces: seq<Piece>, done: nat)
    requires Created(lib, from, pieces, done)
    ensures done == |pieces| ==> Creates(lib, from, pieces, done)
    ensures done < |pieces| && !lib.create(from + done, pieces[done]) ==> Creates(lib, from, pieces, done)
    ensures done < |pieces| && lib.create(from + done, pieces[done]) ==> Created(lib, from, pieces, done + 1)
  {
  }

  lemma CreatedNone(lib: Library, from: nat, pieces: seq<Piece>)
    ensures Created(lib, from, pieces, 0)
  {
  }

  /** Of a single piece. */
  lemma CreatesOne(lib: Library, from: nat, pieces: seq<Piece>, done: nat, ok: bool)
    requires |pieces| == 1 && Creates(lib, from, pieces, done) && (ok <==> done == 1)
    ensures ok == lib.create(from, pieces[0]) && done == if ok then 1 else 0
  {
  }

  /** Attempts made when `done` of n pieces got a buddy. */
  function Attempts(done: nat, n: nat): nat { if done < n then done + 1 else done }

  class Allocator {
    const lib: Library
    var zones: seq<Zone>
    ghost var live: map<nat, nat>
    /** Calls of `alloc` so far, and attempts to create a buddy. */
    var asked: nat
    var made: nat
    /** The calls that every zone turned down. */
    ghost var refusals: set<nat>

    ghost predicate Valid()
      reads this
    {
      ZonesValid(zones) && LiveIs(zones, live) && forall n :: n in refusals ==> n < asked
    }

    /** Which calls were made, and which of them refused. */
    ghost function Book(): (nat, set<nat>)
      reads this
    {
      (asked, refusals)
    }

    /** The last call, made since call number `since`, was turned down by every zone as it still is. */
    ghost predicate Starved(since: nat, blocks: nat)
      reads this
    {
      since < asked && asked - 1 in refusals && NoneGrants(lib, zones, asked - 1, blocks)
    }

    /** Bytes in use, as the counters say. */
    ghost function Bytes(): nat
      reads this
    {
      CounterSum(zones)
    }

    ghost function Ext(): seq<Extent>
      reads this
    {
      Extents(zones)
    }

    constructor (lib: Library)
      ensures Valid() && zones == [] && live == map[] && this.lib == lib
      ensures asked == 0 && made == 0 && refusals == {}
    {
      this.lib := lib;
      zones, live, asked, made, refusals := [], map[], 0, 0, {};
    }

    method TakeFrom(i: nat, a: nat, size: nat)
      requires Valid() && i < |zones| && size % PAGE == 0 && Available(zones[i], a, size / PAGE)
      modifies this
      ensures Valid() && Ext() == old(Ext()) && zones == old(zones)[i := Take(old(zones)[i], a, size)]
      ensures a !in old(live) && live == old(live)[a := size]
      ensures Manages(Ext(), a, size) && Bytes() == old(Bytes()) + size
      ensures Book() == old(Book()) && made == old(made)
    {
      hide Covers;
      hide ZonesValid;
      hide LiveIs;
      ghost var blocks := size / PAGE;
      assert size == PAGE * blocks;
      ZoneFits(zones, i);
      AvailableFits(zones[i], a, blocks);
      TakeInZones(zones, live, i, a, blocks);
      ManagedAt(zones, i, a, size);
      zones := zones[i := Take(zones[i], a, size)];
      live := live[a := size];
    }

    method GiveBack(i: nat, a: nat, size: nat)
      requires Valid() && i < |zones| && Covers(zones[i], a, size) && size > 0
      requires a in live && live[a] == size
      modifies this
      ensures Valid() && Ext() == old(Ext())
      ensures size <= old(zones)[i].counter && zones == old(zones)[i := Release(old(zones)[i], a, size)]
      ensures live == old(live) - {a} && Bytes() == old(Bytes()) - size
      ensures Book() == old(Book()) && made == old(made)
    {
      hide ZonesValid;
      hide LiveIs;
      hide Covers;
      RunOf(zones, live, i, a, size);
      ReleaseInZones(zones, live, i, a);
      zones := zones[i := Release(zones[i], a, size)];
      live := live - {a};
    }

    lemma LiveEnds(i: nat, a: nat, blocks: nat)
      requires Valid() && i < |zones| && Available(zones[i], a, blocks)
      ensures a + PAGE * blocks < TWO32 && a % PAGE == 0
    {
      ZoneFits(zones, i);
    }

    /** First fit: the block comes from the first zone whose buddy grants it, and there is none exactly if
        every zone's buddy refuses. */
    method Alloc(size: nat) returns (r: Option<nat>)
      requires Valid() && size > 0 && size % PAGE == 0
      modifies this
      ensures Valid() && Ext() == old(Ext()) && made == old(made)
      ensures asked == old(asked) + 1 && refusals == old(refusals) + (if r.None? then {old(asked)} else {})
      ensures r.None? <==> NoneGrants(lib, old(zones), old(asked), size / PAGE)
      ensures r.None? ==> zones == old(zones) && live == old(live)
      ensures r.Some? ==> exists k: nat :: FirstGrants(lib, old(zones), old(asked), size / PAGE, k, r.value)
                                      && zones == old(zones)[k := Take(old(zones)[k], r.value, size)]
      ensures r.Some? ==> r.value !in old(live) && live == old(live)[r.value := size]
      ensures r.Some? ==> r.value % PAGE == 0 && r.value + size < TWO32 && Manages(Ext(), r.value, size)
      ensures r.Some? ==> Bytes() == old(Bytes()) + size
    {
      hide ZonesValid;
      hide LiveIs;
      hide CounterSum;
      hide Extents;
      hide Available;
      hide Manages;
      hide Grant;
      hide Take;
      var blocks := size / PAGE;
      var call := asked;
      asked := asked + 1;
      for i := 0 to |zones|
        invariant zones == old(zones) && live == old(live) && asked == call + 1 && Valid()
        invariant refusals == old(refusals) && made == old(made)
        invariant NoneGrants(lib, zones[..i], call, blocks)
      {
        var a := Grant(lib, call, zones[i], blocks);
        if a.Some? {
          LiveEnds(i, a.value, blocks);
          TakeFrom(i, a.value, size);
          assert FirstGrants(lib, old(zones), call, blocks, i, a.value);
          return a;
        }
      }
      assert zones[..|zones|] == zones;
      refusals := refusals + {call};
      return None;
    }

    /** Every zone that covers the block takes it back; at most one does. */
    method Free(a: nat, size: nat)
      requires Valid() && size > 0
      requires Manages(Ext(), a, size) ==> a in live && live[a] == size
      modifies this
      ensures Valid() && Ext() == old(Ext()) && Book() == old(Book()) && made == old(made)
      ensures !Manages(Ext(), a, size) ==> zones == old(zones) && live == old(live)
      ensures Manages(Ext(), a, size) ==>
        && live == old(live) - {a}
        && Bytes() == old(Bytes()) - size
        && exists k :: 0 <= k < |old(zones)| && size <= old(zones)[k].counter
             && zones == old(zones)[k := Release(old(zones)[k], a, size)]
    {
      hide ZonesValid;
      hide LiveIs;
      hide CounterSum;
      hide Extents;
      ghost var k := -1;
      for i := 0 to |zones|
        invariant |zones| == |old(zones)| && Ext() == old(Ext()) && Valid()
        invariant Book() == old(Book()) && made == old(made)
        invariant forall j :: i <= j < |zones| ==> zones[j] == old(zones)[j]
        invariant k == -1 || (0 <= k < i && Covers(old(zones)[k], a, size))
        invariant k == -1 ==> zones == old(zones) && live == old(live)
        invariant k == -1 ==> forall j :: 0 <= j < i ==> !Covers(zones[j], a, size)
        invariant k != -1 ==> live == old(live) - {a} && Bytes() == old(Bytes()) - size
        invariant k != -1 ==>
          && size <= old(zones)[k].counter
          && zones == old(zones)[k := Release(old(zones)[k], a, size)]
      {
        if Covers(zones[i], a, size) {
          ManagedAt(old(zones), i, a, size);
          LiveFits(old(zones), old(live), a);
          if k != -1 { OneZone(old(zones), i, k, a, size, size); }
          GiveBack(i, a, size);
          k := i;
        }
      }
      ManagedSomewhere(old(zones), a, size);
    }

    /** Adds a zone for each bit of the size, lowest first, until the buddy of one cannot be created; then
        the zones of the bits below stay. `done` counts the zones added. */
    method AddZone(start: nat, size: nat) returns (ok: bool, ghost done: nat)
      requires Valid() && start % PAGE == 0 && size % PAGE == 0 && start + size < TWO32
      requires RangeFree(zones, start, start + size)
      modifies this
      ensures Valid() && live == old(live) && Book() == old(Book())
      ensures Creates(lib, old(made), Pieces(start, 1, size), done) && (ok <==> done == |Pieces(start, 1, size)|)
      ensures zones == old(zones) + NewZones(Pieces(start, 1, size)[..done])
      ensures made == old(made) + Attempts(done, |Pieces(start, 1, size)|)
      decreases if IsPowerOfTwo(size) then 0 else 1
    {
      hide ZonesValid;
      hide LiveIs;
      hide RangeFree;
      hide Pieces;
      hide IsPowerOfTwo;
      hide Pow2;
      hide Creates;
      hide Created;
      ghost var all := Pieces(start, 1, size);
      done := 0;
      if !IsPowerOfTwo(size) {
        var at := start;
        StartProgress(start, size);
        CreatedNone(lib, made, all);
        assert zones + NewZones(all[..0]) == zones;
        for bit := 0 to 32
          invariant Valid() && live == old(live) && Book() == old(Book())
          invariant Progress(all, done, at, Pow2(bit), size / Pow2(bit))
          invariant zones == old(zones) + NewZones(all[..done]) && made == old(made) + done
          invariant Created(lib, old(made), all, done)
        {
          var sizeP2 := Pow2(bit);
          ProgressStep(all, done, at, sizeP2, size / sizeP2);
          NextBit(size, bit);
          if HasBit(size, bit) {
            PieceFits(old(zones), start, size, done);
            PowerOfPow2(bit);
            PiecesOfPower(at, 1, bit);
            CreatedNext(lib, old(made), all, done);
            ghost var one;
            ok, one := AddZone(at, sizeP2);
            CreatesOne(lib, old(made) + done, [all[done]], one, ok);
            OneMore(old(zones), all, done, ok);
            if !ok {
              return;
            }
            at := at + sizeP2;
            done := done + 1;
          }
        }
        Pow2Values();
        ProgressStep(all, done, at, Pow2(32), size / Pow2(32));
        CreatedNext(lib, old(made), all, done);
        return true, done;
      }
      OnePiece(start, size);
      PieceFits(zones, start, size, 0);
      CreatedNone(lib, made, all);
      CreatedNext(lib, made, all, 0);
      assert zones + NewZones(all[..0]) == zones;
      ok := PushZone(start, size);
      done := if ok then 1 else 0;
      CreatedNext(lib, old(made), all, done);
    }

    /** The case of a power of two. */
    method PushZone(start: nat, size: nat) returns (ok: bool)
      requires Valid() && start % PAGE == 0 && size % PAGE == 0 && size > 0 && start + size < TWO32
      requires RangeFree(zones, start, start + size)
      modifies this
      ensures Valid() && live == old(live) && Book() == old(Book())
      ensures ok == lib.create(old(made), Piece(start, size)) && made == old(made) + 1
      ensures zones == old(zones) + NewZones([Piece(start, size)][..if ok then 1 else 0])
    {
      ok := lib.create(made, Piece(start, size));
      made := made + 1;
      if ok {
        PushOne(zones, live, Piece(start, size));
        zones := zones + [Zone(start, size, 0, map[])];
      }
    }

    method TotalMemory() returns (total: nat)
      ensures total == TotalOf(zones)
    {
      total := 0;
      for i := 0 to |zones|
        invariant total == TotalOf(zones[..i])
      {
        total := total + zones[i].size;
        assert zones[..i + 1][..i] == zones[..i];
      }
      assert zones[..|zones|] == zones;
    }

    /** Bytes in use; never more than the total. */
    method AllocatedMemory() returns (bytes: nat)
      requires Valid()
      ensures bytes == Bytes() <= TotalOf(zones)
    {
      bytes := 0;
      for i := 0 to |zones|
        invariant bytes == CounterSum(zones[..i])
      {
        bytes := bytes + zones[i].counter;
        assert zones[..i + 1][..i] == zones[..i];
      }
      assert zones[..|zones|] == zones;
      CountersFit(zones);
    }
  }
}
