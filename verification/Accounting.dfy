/** The allocator's byte counters against the tables and pages of an address space. */
module Accounting {
  import opened Common
  import opened Geometry
  import opened PageTables
  import opened Ownership
  import opened Unmapping
  import opened MapSteps
  import opened MapRange
  import opened Runs
  import opened Overwriting
  import ZonedBuddy

  lemma {:induction false} InjectiveValues<T, U>(m: map<T, U>)
    requires forall x, y :: x in m && y in m && m[x] == m[y] ==> x == y
    ensures |m.Values| == |m.Keys|
    decreases |m|
  {
    if m.Keys != {} {
      var x :| x in m;
      var rest := m - {x};
      assert m.Keys == rest.Keys + {x};
      InjectiveValues(rest);
      assert m.Values == rest.Values + {m[x]} by {
        forall v | v in m.Values
          ensures v in rest.Values + {m[x]}
        {
          var y :| y in m && m[y] == v;
          assert y != x ==> y in rest && rest[y] == v;
        }
      }
      assert forall y :: y in rest ==> rest[y] != m[x];
    } else {
      assert m.Values == {};
    }
  }

  /** The sub-tables on blocks of the allocator. */
  ghost function OwnedTags(s: Space): set<Tag> { set t | t in s.at && OwnedTable(s, t) }

  /** The 4 KiB pages on blocks of the allocator. */
  ghost function OwnedPages(s: Space): set<nat> {
    set p: nat | p < s.Limit() && OwnedSlot(s, TagOf(p, 0), Index(p, 0))
  }

  /** No block larger than a frame is mapped. */
  ghost predicate SmallPages(s: Space) {
    forall t, i {:trigger OwnedSlot(s, t, i)} :: OwnedSlot(s, t, i) ==> t.depth == 0
  }

  lemma TableCount(s: Space, live: Live)
    requires s.Struct() && Own(s, live)
    ensures |TableFrames(s)| == |OwnedTags(s)|
  {
    var m: map<Tag, nat> := map t | t in OwnedTags(s) :: s.at[t];
    InjectiveValues(m);
    assert m.Keys == OwnedTags(s);
    forall a
      ensures a in m.Values <==> a in TableFrames(s)
    {
      if a in m.Values {
        var t :| t in m && m[t] == a;
        assert OwnedTable(s, t);
      }
      if a in TableFrames(s) {
        var t :| t in s.at && OwnedTable(s, t) && a == s.at[t];
        assert t in m && m[t] == a;
      }
    }
    assert m.Values == TableFrames(s);
  }

  lemma PageSlot(s: Space, t: Tag, i: nat)
    requires s.Struct() && OwnedSlot(s, t, i) && t.depth == 0
    ensures var p := SlotRegion(t, i);
            && TagOf(p, 0) == t && Index(p, 0) == i && p in OwnedPages(s)
  {
    var p := SlotRegion(t, i);
    assert Reg(p, 1) == Reg(p, 0) / ENTRIES == t.region;
    WalkThrough(s, p, 0);
  }

  lemma PageCount(s: Space, live: Live)
    requires s.Struct() && Own(s, live) && SmallPages(s)
    ensures |LeafFrames(s)| == |OwnedPages(s)|
  {
    var m := map p | p in OwnedPages(s) :: LeafAddr(s.Slot(TagOf(p, 0), Index(p, 0)));
    forall p, q | p in m && q in m && m[p] == m[q]
      ensures p == q
    {
      assert OwnedSlot(s, TagOf(p, 0), Index(p, 0)) && OwnedSlot(s, TagOf(q, 0), Index(q, 0));
      assert SlotRegion(TagOf(p, 0), Index(p, 0)) == p && SlotRegion(TagOf(q, 0), Index(q, 0)) == q;
    }
    InjectiveValues(m);
    assert m.Keys == OwnedPages(s);
    forall a
      ensures a in m.Values <==> a in LeafFrames(s)
    {
      if a in LeafFrames(s) {
        var t: Tag, i: nat :| t in s.at && i < ENTRIES && OwnedSlot(s, t, i) && a == LeafAddr(s.Slot(t, i));
        PageSlot(s, t, i);
        assert SlotRegion(t, i) in m;
      }
      if a in m.Values {
        var p :| p in m && m[p] == a;
        assert OwnedSlot(s, TagOf(p, 0), Index(p, 0));
      }
    }
    assert m.Values == LeafFrames(s);
  }

  /** Sub-tables and mapped pages use one frame each. */
  lemma OwnedCount(s: Space, live: Live)
    requires s.Struct() && Own(s, live) && SmallPages(s)
    ensures |Owned(s)| == |OwnedTags(s)| + |OwnedPages(s)|
  {
    TableCount(s, live);
    PageCount(s, live);
    assert TableFrames(s) !! LeafFrames(s);
  }

  /** The runs of all zones, in blocks. */
  ghost function RunsOf(live: Live): ZonedBuddy.Runs { map a | a in live :: live[a] / PAGE }

  ghost function LiveBlocks(live: Live): set<nat> { ZonedBuddy.UsedBlocks(RunsOf(live)) }

  ghost function AllBlocks(zones: seq<ZonedBuddy.Zone>): set<nat> {
    if |zones| == 0 then {} else AllBlocks(zones[..|zones| - 1]) + ZonedBuddy.UsedBlocks(zones[|zones| - 1].runs)
  }

  lemma {:induction false} AllBlocksIn(zones: seq<ZonedBuddy.Zone>, b: nat)
    ensures b in AllBlocks(zones) <==> exists i :: 0 <= i < |zones| && b in ZonedBuddy.UsedBlocks(zones[i].runs)
  {
    var n := |zones| - 1;
    if n >= 0 {
      AllBlocksIn(zones[..n], b);
      if b in AllBlocks(zones) && b !in ZonedBuddy.UsedBlocks(zones[n].runs) {
        var i :| 0 <= i < n && b in ZonedBuddy.UsedBlocks(zones[..n][i].runs);
        assert b in ZonedBuddy.UsedBlocks(zones[i].runs);
      }
      forall i | 0 <= i < |zones| && b in ZonedBuddy.UsedBlocks(zones[i].runs)
        ensures b in AllBlocks(zones)
      {
        if i < n { assert b in ZonedBuddy.UsedBlocks(zones[..n][i].runs); }
      }
    }
  }

  lemma UsedInZone(z: ZonedBuddy.Zone, b: nat)
    requires ZonedBuddy.ZoneValid(z) && b in ZonedBuddy.UsedBlocks(z.runs)
    ensures z.start <= PAGE * b && PAGE * (b + 1) <= z.start + z.size
  {
    var a :| a in z.runs && b in ZonedBuddy.BlockRange(ZonedBuddy.Block(a), z.runs[a]);
    assert ZonedBuddy.Inside(z, a, z.runs[a]);
  }

  lemma UsedApart(y: ZonedBuddy.Zone, z: ZonedBuddy.Zone, b: nat)
    requires ZonedBuddy.ZoneValid(y) && ZonedBuddy.ZoneValid(z) && ZonedBuddy.Apart(y, z)
    ensures !(b in ZonedBuddy.UsedBlocks(y.runs) && b in ZonedBuddy.UsedBlocks(z.runs))
  {
    if b in ZonedBuddy.UsedBlocks(y.runs) { UsedInZone(y, b); }
    if b in ZonedBuddy.UsedBlocks(z.runs) { UsedInZone(z, b); }
  }

  lemma {:induction false} CounterIsBlocks(zones: seq<ZonedBuddy.Zone>)
    requires ZonedBuddy.ZonesValid(zones)
    ensures ZonedBuddy.CounterSum(zones) == PAGE * |AllBlocks(zones)|
  {
    var n := |zones| - 1;
    if n >= 0 {
      CounterIsBlocks(zones[..n]);
      var used := ZonedBuddy.UsedBlocks(zones[n].runs);
      forall b | b in AllBlocks(zones[..n])
        ensures b !in used
      {
        AllBlocksIn(zones[..n], b);
        var i :| 0 <= i < n && b in ZonedBuddy.UsedBlocks(zones[..n][i].runs);
        ZonedBuddy.ZonesApart(zones, i, n);
        UsedApart(zones[i], zones[n], b);
      }
      assert ZonedBuddy.ZoneValid(zones[n]);
    }
  }

  lemma BlocksAreLive(zones: seq<ZonedBuddy.Zone>, live: Live)
    requires ZonedBuddy.ZonesValid(zones) && ZonedBuddy.LiveIs(zones, live)
    ensures AllBlocks(zones) == LiveBlocks(live)
  {
    hide ZonedBuddy.ZonesValid;
    hide ZonedBuddy.BlockRange;
    forall b
      ensures b in AllBlocks(zones) <==> b in LiveBlocks(live)
    {
      AllBlocksIn(zones, b);
      if b in AllBlocks(zones) {
        var i :| 0 <= i < |zones| && b in ZonedBuddy.UsedBlocks(zones[i].runs);
        var a :| a in zones[i].runs && b in ZonedBuddy.BlockRange(ZonedBuddy.Block(a), zones[i].runs[a]);
        assert ZonedBuddy.HasRun(zones, i, a);
        assert a in RunsOf(live) && RunsOf(live)[a] == zones[i].runs[a];
      }
      if b in LiveBlocks(live) {
        var a :| a in RunsOf(live) && b in ZonedBuddy.BlockRange(ZonedBuddy.Block(a), RunsOf(live)[a]);
        var i :| ZonedBuddy.HasRun(zones, i, a);
        assert a in zones[i].runs && RunsOf(live)[a] == zones[i].runs[a];
        assert b in ZonedBuddy.UsedBlocks(zones[i].runs);
      }
    }
  }

  /** Blocks of the live allocations at the addresses in `part`. */
  ghost function BlocksOf(live: Live, part: set<nat>): set<nat> {
    ZonedBuddy.UsedBlocks(map a | a in live && a in part :: live[a] / PAGE)
  }

  /** Live allocations do not overlap. */
  ghost predicate Disjoint(live: Live) {
    ZonedBuddy.RunsDisjoint(RunsOf(live)) && forall a :: a in live ==> a % PAGE == 0
  }

  lemma RunAligned(z: ZonedBuddy.Zone, a: nat)
    requires ZonedBuddy.ZoneValid(z) && a in z.runs
    ensures a % PAGE == 0
  {
    assert ZonedBuddy.Inside(z, a, z.runs[a]);
  }

  lemma LiveIsDisjoint(zones: seq<ZonedBuddy.Zone>, live: Live)
    requires ZonedBuddy.ZonesValid(zones) && ZonedBuddy.LiveIs(zones, live)
    ensures Disjoint(live)
  {
    hide ZonedBuddy.ZoneValid;
    var runs := RunsOf(live);
    forall a | a in live
      ensures a % PAGE == 0 && live[a] == PAGE * runs[a]
    {
      var i :| ZonedBuddy.HasRun(zones, i, a);
      RunAligned(zones[i], a);
    }
    forall a, c, b | a in runs && c in runs && ZonedBuddy.InRun(b, ZonedBuddy.Block(a), runs[a])
                     && ZonedBuddy.InRun(b, ZonedBuddy.Block(c), runs[c])
      ensures a == c
    {
      if a != c { PairDisjoint(zones, live, a, c, b); }
    }
  }

  lemma PairDisjoint(zones: seq<ZonedBuddy.Zone>, live: Live, a: nat, c: nat, b: nat)
    requires ZonedBuddy.ZonesValid(zones) && ZonedBuddy.LiveIs(zones, live) && a in live && c in live && a != c
    requires a % PAGE == 0 && c % PAGE == 0
    ensures !(ZonedBuddy.InRun(b, ZonedBuddy.Block(a), live[a] / PAGE)
              && ZonedBuddy.InRun(b, ZonedBuddy.Block(c), live[c] / PAGE))
  {
    hide ZonedBuddy.ZonesValid;
    hide ZonedBuddy.LiveIs;
    ZonedBuddy.LiveDisjoint(zones, live, a, c);
  }

  /** The blocks of a set of 4 KiB allocations, and of the rest. */
  lemma SplitBlocks(live: Live, small: set<nat>)
    requires Disjoint(live) && small <= live.Keys && forall a :: a in small ==> live[a] == PAGE
    ensures |LiveBlocks(live)| == |BlocksOf(live, live.Keys - small)| + |small|
  {
    var rest, blocks := BlocksOf(live, live.Keys - small), BlocksOf(live, small);
    var runs := RunsOf(live);
    forall b
      ensures b in LiveBlocks(live) <==> b in rest || b in blocks
      ensures !(b in rest && b in blocks)
    {
      SplitBlock(live, small, b);
    }
    assert LiveBlocks(live) == rest + blocks;
    SmallBlocks(live, small);
  }

  lemma SplitBlock(live: Live, small: set<nat>, b: nat)
    requires Disjoint(live) && small <= live.Keys
    ensures b in LiveBlocks(live) <==> b in BlocksOf(live, live.Keys - small) || b in BlocksOf(live, small)
    ensures !(b in BlocksOf(live, live.Keys - small) && b in BlocksOf(live, small))
  {
    var runs := RunsOf(live);
    PartBlock(live, live.Keys - small, b);
    PartBlock(live, small, b);
    PartBlock(live, live.Keys, b);
    assert (map a | a in live && a in live.Keys :: live[a] / PAGE) == runs;
  }

  lemma PartBlock(live: Live, part: set<nat>, b: nat)
    requires part <= live.Keys
    ensures b in BlocksOf(live, part) <==>
      exists a :: a in part && ZonedBuddy.InRun(b, ZonedBuddy.Block(a), RunsOf(live)[a])
  {
    var m := map a | a in live && a in part :: live[a] / PAGE;
    if b in BlocksOf(live, part) {
      var a :| a in m && b in ZonedBuddy.BlockRange(ZonedBuddy.Block(a), m[a]);
      assert a in part && ZonedBuddy.InRun(b, ZonedBuddy.Block(a), RunsOf(live)[a]);
    }
    forall a | a in part && ZonedBuddy.InRun(b, ZonedBuddy.Block(a), RunsOf(live)[a])
      ensures b in BlocksOf(live, part)
    {
      assert a in m && b in ZonedBuddy.BlockRange(ZonedBuddy.Block(a), m[a]);
    }
  }

  lemma SmallBlocks(live: Live, small: set<nat>)
    requires Disjoint(live) && small <= live.Keys && forall a :: a in small ==> live[a] == PAGE
    ensures |BlocksOf(live, small)| == |small|
  {
    var m := map a | a in small :: ZonedBuddy.Block(a);
    forall a, c | a in m && c in m && m[a] == m[c]
      ensures a == c
    {
      assert a == PAGE * ZonedBuddy.Block(a) && c == PAGE * ZonedBuddy.Block(c);
    }
    InjectiveValues(m);
    assert m.Keys == small;
    forall b
      ensures b in m.Values <==> b in BlocksOf(live, small)
    {
      PartBlock(live, small, b);
      if b in m.Values {
        var a :| a in m && m[a] == b;
        assert ZonedBuddy.InRun(b, ZonedBuddy.Block(a), RunsOf(live)[a]);
      }
      if b in BlocksOf(live, small) {
        var a :| a in small && ZonedBuddy.InRun(b, ZonedBuddy.Block(a), RunsOf(live)[a]);
        assert m[a] == b;
      }
    }
    assert m.Values == BlocksOf(live, small);
  }

  /** The counters of the allocator that serves an address space. */
  ghost predicate Serves(zones: seq<ZonedBuddy.Zone>, x: State) {
    ZonedBuddy.ZonesValid(zones) && ZonedBuddy.LiveIs(zones, x.live)
  }

  lemma OwnedSmall(s: Space, live: Live)
    requires s.Struct() && Own(s, live) && SmallPages(s)
    ensures Owned(s) <= live.Keys && forall a :: a in Owned(s) ==> live[a] == PAGE
  {
    OwnedIsLive(s, live);
    assert RegionSize(0) == PAGE;
    forall a | a in Owned(s)
      ensures live[a] == PAGE
    {
      if a in TableFrames(s) {
        var t :| t in s.at && OwnedTable(s, t) && a == s.at[t];
      } else {
        var t: Tag, i: nat :| t in s.at && i < ENTRIES && OwnedSlot(s, t, i) && a == LeafAddr(s.Slot(t, i));
      }
    }
  }

  /** Bytes in use: those of others, and 4096 for each sub-table and each mapped page. */
  lemma BytesInUse(zones: seq<ZonedBuddy.Zone>, x: State)
    requires Serves(zones, x) && Fit(x) && SmallPages(x.space)
    ensures ZonedBuddy.CounterSum(zones)
         == PAGE * (|BlocksOf(x.live, Others(x))| + |OwnedTags(x.space)| + |OwnedPages(x.space)|)
  {
    CounterIsBlocks(zones);
    BlocksAreLive(zones, x.live);
    LiveIsDisjoint(zones, x.live);
    OwnedSmall(x.space, x.live);
    SplitBlocks(x.live, Owned(x.space));
    OwnedCount(x.space, x.live);
  }

  /** A step maps no large page of the allocator. */
  lemma StepSmall(x: State, op: Op, y: State)
    requires x.space.Struct() && Step(x, op, y) && SmallPages(x.space)
    ensures SmallPages(y.space)
  {
    hide Step;
    hide Space.Struct;
    forall t, i | OwnedSlot(y.space, t, i)
      ensures t.depth == 0
    {
      if t.depth > 0 { LargeBefore(x, op, y, t, i); }
    }
  }

  /** A large page after a step was there before. */
  lemma LargeBefore(x: State, op: Op, y: State, t: Tag, i: nat)
    requires x.space.Struct() && Step(x, op, y) && OwnedSlot(y.space, t, i) && t.depth > 0
    ensures OwnedSlot(x.space, t, i)
  {
    hide RangeMapped;
    hide MapResult;
    hide Unmapped;
    hide Space.Struct;
    match op
    case MapOp(v, frames, flags) =>
      RangeLeaves(x, y, v, frames, flags);
      assert NewLeaf(x.space, y.space, v, frames, flags, t, i);
    case MapStop(mid, v, frames, g, flags, e, leak) =>
      RangeLeaves(x, mid, v, frames, flags);
      FailedLeaf(mid, y, v, frames, g, flags, e, leak, t, i);
      assert mid.space.Slot(t, i) == mid.space.Slot(t, i);
      assert NewLeaf(x.space, mid.space, v, frames, flags, t, i);
    case UnmapOp(a, b) => ClearedBefore(x.space, y.space, a, b, t, i);
    case UnmapStop(a, b, cut, d, w, e) => ClearedBefore(x.space, y.space, a, cut, t, i);
  }

  lemma ClearedBefore(s: Space, z: Space, a: nat, b: nat, t: Tag, i: nat)
    requires Unmapped(s, z, a, b, s.Top()) && OwnedSlot(z, t, i)
    ensures OwnedSlot(s, t, i)
  {
    assert z.Slot(t, i) == z.Slot(t, i);
    assert Cleared(s, z, t, i);
    NullMapsNothing(s, t.depth);
  }

  lemma {:induction false} RunSmall(states: seq<State>, ops: seq<Op>)
    requires Run(states, ops) && states[0].space.Struct() && SmallPages(states[0].space)
    ensures SmallPages(states[|ops|].space) && states[|ops|].space.Struct()
  {
    hide Step;
    hide SmallPages;
    var n := |ops|;
    if n > 0 {
      RunPrefix(states, ops);
      RunSmall(states[..n], ops[..n - 1]);
      StepSmall(states[n - 1], ops[n - 1], states[n]);
      StepTree(states[n - 1], ops[n - 1], states[n]);
    }
  }

  lemma StepTree(x: State, op: Op, y: State)
    requires Step(x, op, y)
    ensures y.space.Struct()
  {
  }

  /** Over every run without a dangling large page the allocator's byte count moves by 4096 for each
      sub-table and each page gained or gone, and for each block lost. */
  lemma RunAccounting(states: seq<State>, ops: seq<Op>, before: seq<ZonedBuddy.Zone>, after: seq<ZonedBuddy.Zone>)
    requires Run(states, ops) && Fit(states[0]) && SmallPages(states[0].space)
    requires forall i :: 0 <= i < |ops| ==> !Dangles(ops[i])
    requires Serves(before, states[0]) && Serves(after, states[|ops|])
    ensures var s, z := states[0].space, states[|ops|].space;
            ZonedBuddy.CounterSum(after) - ZonedBuddy.CounterSum(before)
            == PAGE * (|OwnedTags(z)| - |OwnedTags(s)|) + PAGE * (|OwnedPages(z)| - |OwnedPages(s)|)
               + PAGE * |AllLost(states, ops)|
  {
    assert |states| == |ops| + 1;
    FitTree(states[0]);
    RunSmall(states, ops);
    hide Run;
    hide Fit;
    hide Serves;
    hide SmallPages;
    hide SameFixed;
    hide BlocksOf;
    hide OwnedTags;
    hide OwnedPages;
    hide Others;
    hide OthersStay;
    hide FramesLost;
    hide AllLost;
    hide ZonedBuddy.CounterSum;
    var x, y := states[0], states[|ops|];
    RunLoses(states, ops);
    BytesInUse(before, x);
    BytesInUse(after, y);
    OthersBlocks(after, x, y, AllLost(states, ops));
  }

  lemma FitTree(x: State)
    requires Fit(x)
    ensures x.space.Struct()
  {
  }

  /** The blocks of others are those they had and the lost ones. */
  lemma OthersBlocks(zones: seq<ZonedBuddy.Zone>, x: State, y: State, lost: set<nat>)
    requires Serves(zones, y) && Others(y) == Others(x) + lost && OthersStay(x, y) && FramesLost(x, y, lost)
    ensures |BlocksOf(y.live, Others(y))| == |BlocksOf(x.live, Others(x))| + |lost|
  {
    hide BlocksOf;
    hide LiveBlocks;
    hide Disjoint;
    hide Owned;
    LiveIsDisjoint(zones, y.live);
    SamePart(x.live, y.live, Others(x));
    var part := Part(y.live, Others(y));
    DisjointPart(y.live, Others(y));
    SplitBlocks(part, lost);
    assert part.Keys - lost == Others(x);
    SamePart(part, y.live, Others(x));
    SamePart(part, y.live, Others(y));
    AllOfPart(part);
  }

  ghost function Part(live: Live, some: set<nat>): (part: Live)
    requires some <= live.Keys
    ensures part.Keys == some && forall a :: a in part ==> part[a] == live[a]
  {
    map a | a in live && a in some :: live[a]
  }

  lemma AllOfPart(part: Live)
    ensures BlocksOf(part, part.Keys) == LiveBlocks(part)
  {
    assert (map a | a in part && a in part.Keys :: part[a] / PAGE) == RunsOf(part);
  }

  lemma DisjointPart(live: Live, some: set<nat>)
    requires Disjoint(live) && some <= live.Keys
    ensures Disjoint(Part(live, some))
  {
    var part := Part(live, some);
    forall a, c, b | a in RunsOf(part) && c in RunsOf(part) && ZonedBuddy.InRun(b, ZonedBuddy.Block(a), RunsOf(part)[a])
                     && ZonedBuddy.InRun(b, ZonedBuddy.Block(c), RunsOf(part)[c])
      ensures a == c
    {
      assert ZonedBuddy.InRun(b, ZonedBuddy.Block(a), RunsOf(live)[a]);
      assert ZonedBuddy.InRun(b, ZonedBuddy.Block(c), RunsOf(live)[c]);
    }
  }

  lemma SamePart(live: Live, other: Live, part: set<nat>)
    requires part <= live.Keys && forall a :: a in part ==> a in other && other[a] == live[a]
    ensures BlocksOf(other, part) == BlocksOf(live, part)
  {
    var m := map a | a in live && a in part :: live[a] / PAGE;
    var n := map a | a in other && a in part :: other[a] / PAGE;
    hide ZonedBuddy.UsedBlocks;
    forall a
      ensures a in m <==> a in n
    {
    }
    assert m.Keys == n.Keys && forall a :: a in m ==> m[a] == n[a];
    assert m == n;
  }

  /** A mapped block that ends at the end of the address space would be freed in every zone below it; no
      ownership invariant holds of tables that map one. */
  lemma EndIsNeverOwned(zones: seq<ZonedBuddy.Zone>, x: State, k: nat, t: Tag, i: nat)
    requires Serves(zones, x) && x.space.ext == ZonedBuddy.Extents(zones) && k < |zones|
    requires x.space.Has(t, i) && IsLeaf(x.space.Slot(t, i), t.depth) && First(SlotRegion(t, i), t.depth) >= x.space.low
    requires zones[k].start <= LeafAddr(x.space.Slot(t, i))
    requires LeafAddr(x.space.Slot(t, i)) + RegionSize(t.depth) == TWO32
    ensures !Own(x.space, x.live)
  {
    var a, size := LeafAddr(x.space.Slot(t, i)), RegionSize(t.depth);
    ZonedBuddy.ZoneFits(zones, k);
    ZonedBuddy.CoversMeans(zones[k], a, size);
    ZonedBuddy.ManagedAt(zones, k, a, size);
    assert OwnedSlot(x.space, t, i);
    if Own(x.space, x.live) {
      assert OwnedBlock(x.space, x.live, a, size);
      ZonedBuddy.LiveFits(zones, x.live, a);
    }
  }
}
