/** The frame allocator used by several processors at once. A call is a series of steps: each buddy
    operation, each counter update and each zone test of a loop is one step, and the steps of
    different processors interleave freely. */
module ConcurrentBuddy {
  import opened Common
  import opened ZonePieces
  import opened ZonedBuddy

  /** Where a processor stands in a call. `Trying` and `Testing` are at the top of the loops of `alloc`
      and `free`; `Adding` and `Subtracting` are between a buddy operation and the counter update.
      `Reading` adds up the counters for `allocated_memory`, one load a step; `over` are the bytes whose
      subtraction was pending in a zone when its counter was loaded. */
  datatype Phase =
    | Idle
    | Trying(size: nat, i: nat)
    | Adding(size: nat, i: nat, a: nat)
    | Testing(a: nat, size: nat, i: nat)
    | Subtracting(a: nat, size: nat, i: nat)
    | Reading(i: nat, sum: nat, over: nat)

  /** `live` lists the blocks the buddies have handed out and `holder` the processor whose call holds
      each one, none once it is with its owner. */
  datatype World = World(zones: seq<Zone>, cpus: seq<Phase>, live: map<nat, nat>, holder: map<nat, Option<nat>>)

  datatype Action =
    | StartAlloc(size: nat)
    | TryZone(got: Option<nat>)
    | Count
    | StartFree(a: nat, size: nat)
    | TestZone
    | Uncount
    | StartRead
    | Load
    | PushZone(piece: Piece)

  predicate Owned(w: World, a: nat, size: nat) {
    a in w.live && w.live[a] == size && a in w.holder && w.holder[a] == None
  }

  /** A free is only begun by the owner of the block. A zone is pushed under the write lock, which waits
      for all loops to end. */
  ghost predicate Enabled(w: World, c: nat, act: Action) {
    && c < |w.cpus|
    && match act
       case StartAlloc(size) => w.cpus[c].Idle? && size > 0 && size % PAGE == 0
       case TryZone(got) =>
         w.cpus[c].Trying? && (got.Some? ==>
           w.cpus[c].i < |w.zones| && Available(w.zones[w.cpus[c].i], got.value, w.cpus[c].size / PAGE))
       case Count => w.cpus[c].Adding?
       case StartFree(a, size) => w.cpus[c].Idle? && Owned(w, a, size)
       case TestZone => w.cpus[c].Testing?
       case Uncount => w.cpus[c].Subtracting?
       case StartRead => w.cpus[c].Idle?
       case Load => w.cpus[c].Reading?
       case PushZone(piece) =>
         && (forall d :: 0 <= d < |w.cpus| ==> w.cpus[d].Idle?)
         && RangeFree(w.zones, piece.start, piece.start + piece.size)
         && piece.start % PAGE == 0 && piece.size % PAGE == 0 && piece.size > 0
         && piece.start + piece.size < TWO32
  }

  function SetCounter(zones: seq<Zone>, i: nat, value: int): seq<Zone> {
    if i < |zones| then zones[i := zones[i].(counter := value % TWO32)] else zones
  }

  function CounterAt(zones: seq<Zone>, i: nat): nat { if i < |zones| then zones[i].counter else 0 }

  function Next(w: World, c: nat, act: Action): World
    requires Enabled(w, c, act)
  {
    var p := w.cpus[c];
    match act
    case StartAlloc(size) => w.(cpus := w.cpus[c := Trying(size, 0)])
    case TryZone(got) =>
      if p.i == |w.zones| then w.(cpus := w.cpus[c := Idle])
      else if got.None? then w.(cpus := w.cpus[c := Trying(p.size, p.i + 1)])
      else Bought(w, c, p.i, got.value, p.size)
    case Count =>
      w.(zones := SetCounter(w.zones, p.i, CounterAt(w.zones, p.i) + p.size),
         cpus := w.cpus[c := Idle],
         holder := w.holder[p.a := None])
    case StartFree(a, size) => w.(cpus := w.cpus[c := Testing(a, size, 0)], holder := w.holder[a := Some(c)])
    case TestZone =>
      if p.i >= |w.zones| then w.(cpus := w.cpus[c := Idle])
      else if Covers(w.zones[p.i], p.a, p.size) then Returned(w, c, p.i, p.a, p.size)
      else w.(cpus := w.cpus[c := Testing(p.a, p.size, p.i + 1)])
    case Uncount =>
      w.(zones := SetCounter(w.zones, p.i, CounterAt(w.zones, p.i) - p.size),
         cpus := w.cpus[c := Testing(p.a, p.size, p.i + 1)])
    case StartRead => w.(cpus := w.cpus[c := Reading(0, 0, 0)])
    case Load =>
      if p.i >= |w.zones| then w.(cpus := w.cpus[c := Idle])
      else w.(cpus := w.cpus[c := Loaded(w, p.i, p.sum, p.over)])
    case PushZone(piece) => w.(zones := w.zones + [NewZone(piece)])
  }

  /** After the counter of zone i was loaded. */
  function Loaded(w: World, i: nat, sum: nat, over: nat): Phase
    requires i < |w.zones|
  {
    Reading(i + 1, Sum32(sum, w.zones[i].counter), over + Pending(w.cpus, i, false))
  }

  /** After the buddy of zone i handed out the block at a. */
  function Bought(w: World, c: nat, i: nat, a: nat, size: nat): World
    requires c < |w.cpus| && i < |w.zones|
  {
    w.(zones := w.zones[i := w.zones[i].(runs := w.zones[i].runs[a := size / PAGE])],
       cpus := w.cpus[c := Adding(size, i, a)],
       live := w.live[a := size],
       holder := w.holder[a := Some(c)])
  }

  /** After the buddy of zone i took the block at a back. */
  function Returned(w: World, c: nat, i: nat, a: nat, size: nat): World
    requires c < |w.cpus| && i < |w.zones|
  {
    w.(zones := w.zones[i := w.zones[i].(runs := w.zones[i].runs - {a})],
       cpus := w.cpus[c := Subtracting(a, size, i)],
       live := w.live - {a},
       holder := w.holder - {a})
  }

  // What the counters say.

  /** Bytes the buddy of the zone has handed out. */
  function LiveBytes(z: Zone): nat { PAGE * |UsedBlocks(z.runs)| }

  /** Bytes of zone k that processor phase p has still to add, or to subtract. */
  function Due(p: Phase, k: nat, adding: bool): nat {
    if adding && p.Adding? && p.i == k then p.size
    else if !adding && p.Subtracting? && p.i == k then p.size
    else 0
  }

  function Pending(cpus: seq<Phase>, k: nat, adding: bool): nat {
    if |cpus| == 0 then 0
    else Pending(cpus[..|cpus| - 1], k, adding) + Due(cpus[|cpus| - 1], k, adding)
  }

  /** The counter of zone k as an unbounded number. */
  function Truth(w: World, k: nat): int
    requires k < |w.zones|
  {
    LiveBytes(w.zones[k]) - Pending(w.cpus, k, true) + Pending(w.cpus, k, false)
  }

  /** The zone as it would be with every pending update done. */
  function Settled(z: Zone): Zone { z.(counter := LiveBytes(z)) }

  function Settle(zones: seq<Zone>): (s: seq<Zone>)
    ensures |s| == |zones| && forall i :: 0 <= i < |s| ==> s[i] == Settled(zones[i])
  {
    seq(|zones|, i requires 0 <= i < |zones| => Settled(zones[i]))
  }

  // The invariant.

  predicate Holds(w: World, c: nat, a: nat) { a in w.holder && w.holder[a] == Some(c) }

  predicate IsRun(w: World, k: nat, a: nat, size: nat) {
    HasRun(w.zones, k, a) && size == PAGE * w.zones[k].runs[a]
  }

  ghost predicate PhaseOk(w: World, c: nat, p: Phase) {
    match p
    case Idle => true
    case Trying(size, i) => size > 0 && size % PAGE == 0 && i <= |w.zones|
    case Adding(size, i, a) => Holds(w, c, a) && IsRun(w, i, a, size)
    case Testing(a, size, i) =>
      && size > 0 && a + size < TWO32
      && (Holds(w, c, a) ==> exists k :: k >= i && IsRun(w, k, a, size))
      && (!Holds(w, c, a) ==> forall k :: i <= k < |w.zones| ==> !Covers(w.zones[k], a, size))
    case Reading(i, sum, over) => i <= |w.zones| && sum <= TotalOf(w.zones[..i]) + over
    case Subtracting(a, size, i) =>
      size > 0 && a + size < TWO32 && i < |w.zones| && Covers(w.zones[i], a, size) && !Holds(w, c, a)
  }

  /** The block a processor's phase is about. */
  predicate About(p: Phase, a: nat) { (p.Adding? || p.Testing?) && p.a == a }

  ghost predicate PhasesOk(w: World) {
    forall c :: 0 <= c < |w.cpus| ==> PhaseOk(w, c, w.cpus[c])
  }

  ghost predicate HoldersOk(w: World) {
    && w.holder.Keys == w.live.Keys
    && forall a, c :: a in w.holder && w.holder[a] == Some(c) ==> c < |w.cpus| && About(w.cpus[c], a)
  }

  ghost predicate Counted(w: World, k: nat)
    requires k < |w.zones|
  {
    w.zones[k].counter == Truth(w, k) % TWO32
  }

  ghost predicate AllCounted(w: World) {
    forall k :: 0 <= k < |w.zones| ==> Counted(w, k) && w.zones[k].size < TWO32
  }

  ghost predicate BlocksOk(w: World) { ZonesValid(Settle(w.zones)) && LiveIs(Settle(w.zones), w.live) }

  ghost predicate Inv(w: World) { BlocksOk(w) && HoldersOk(w) && PhasesOk(w) && AllCounted(w) }

  // Sums.

  lemma {:induction false} PendingUpdate(cpus: seq<Phase>, c: nat, p: Phase, k: nat, adding: bool)
    requires c < |cpus|
    ensures Pending(cpus[c := p], k, adding) == Pending(cpus, k, adding) - Due(cpus[c], k, adding) + Due(p, k, adding)
  {
    var n := |cpus| - 1;
    if c < n {
      PendingUpdate(cpus[..n], c, p, k, adding);
      assert cpus[c := p][..n] == cpus[..n][c := p];
    } else {
      assert cpus[c := p][..n] == cpus[..n];
    }
  }

  lemma {:induction false} PendingCovers(cpus: seq<Phase>, c: nat, k: nat, adding: bool)
    requires c < |cpus|
    ensures Due(cpus[c], k, adding) <= Pending(cpus, k, adding)
  {
    var n := |cpus| - 1;
    if c < n { PendingCovers(cpus[..n], c, k, adding); }
  }

  lemma {:induction false} NothingPending(cpus: seq<Phase>, k: nat, adding: bool)
    requires forall c :: 0 <= c < |cpus| ==> Due(cpus[c], k, adding) == 0
    ensures Pending(cpus, k, adding) == 0
  {
    if |cpus| > 0 { NothingPending(cpus[..|cpus| - 1], k, adding); }
  }

  /** A step changes the true counter of a zone by what it hands out, takes back or makes due. */
  lemma TruthUpdate(w: World, x: World, c: nat, p: Phase, k: nat)
    requires c < |w.cpus| && x.cpus == w.cpus[c := p] && k < |w.zones| == |x.zones|
    ensures Truth(x, k) == Truth(w, k) + LiveBytes(x.zones[k]) - LiveBytes(w.zones[k])
                           + Due(w.cpus[c], k, true) - Due(p, k, true)
                           - Due(w.cpus[c], k, false) + Due(p, k, false)
  {
    PendingUpdate(w.cpus, c, p, k, true);
    PendingUpdate(w.cpus, c, p, k, false);
  }

  // Steps that leave the blocks alone.

  lemma SettleSame(x: seq<Zone>, y: seq<Zone>)
    requires |x| == |y| && forall i :: 0 <= i < |x| ==> Settled(x[i]) == Settled(y[i])
    ensures Settle(x) == Settle(y)
  {
  }

  /** Another processor's phase stays right when no zone moves and its own block is left alone. */
  lemma OtherPhase(w: World, x: World, d: nat, p: Phase)
    requires PhaseOk(w, d, p)
    requires |x.zones| == |w.zones| && forall k :: 0 <= k < |w.zones| ==> ExtentOf(x.zones[k]) == ExtentOf(w.zones[k])
    requires forall a :: Holds(x, d, a) <==> Holds(w, d, a)
    requires forall k, a, size :: Holds(w, d, a) && IsRun(w, k, a, size) ==> IsRun(x, k, a, size)
    ensures PhaseOk(x, d, p)
  {
    if p.Testing? {
      forall k | 0 <= k < |w.zones|
        ensures Covers(x.zones[k], p.a, p.size) == Covers(w.zones[k], p.a, p.size)
      {
        assert ExtentOf(x.zones[k]) == ExtentOf(w.zones[k]);
      }
      if Holds(w, d, p.a) {
        var k :| k >= p.i && IsRun(w, k, p.a, p.size);
        assert IsRun(x, k, p.a, p.size);
      }
    } else if p.Subtracting? {
      assert ExtentOf(x.zones[p.i]) == ExtentOf(w.zones[p.i]);
    } else if p.Reading? {
      SameTotal(w.zones[..p.i], x.zones[..p.i]);
    }
  }

  lemma {:induction false} SameTotal(x: seq<Zone>, y: seq<Zone>)
    requires |x| == |y| && forall i :: 0 <= i < |x| ==> ExtentOf(x[i]) == ExtentOf(y[i])
    ensures TotalOf(x) == TotalOf(y)
  {
    if |x| > 0 {
      assert ExtentOf(x[|x| - 1]) == ExtentOf(y[|x| - 1]);
      SameTotal(x[..|x| - 1], y[..|y| - 1]);
    }
  }

  /** Safety of `free`: the only zone whose test succeeds is the one whose buddy handed the block out,
      and the block is still out, so every buddy release is of a live block of the right size. */
  lemma FreeHitsLive(w: World, c: nat)
    requires BlocksOk(w) && c < |w.cpus| && PhaseOk(w, c, w.cpus[c]) && w.cpus[c].Testing?
    requires w.cpus[c].i < |w.zones| && Covers(w.zones[w.cpus[c].i], w.cpus[c].a, w.cpus[c].size)
    ensures var p := w.cpus[c];
            Holds(w, c, p.a) && IsRun(w, p.i, p.a, p.size) && p.a in w.live && w.live[p.a] == p.size
  {
    var p := w.cpus[c];
    var all := Settle(w.zones);
    var k :| k >= p.i && IsRun(w, k, p.a, p.size);
    hide Covers;
    assert HasRun(all, k, p.a);
    RunInside(all[k], p.a);
    SameCovers(w.zones[p.i], all[p.i], p.a, p.size);
    OneZone(all, p.i, k, p.a, p.size, p.size);
  }

  lemma SameCovers(x: Zone, y: Zone, a: nat, size: nat)
    requires ExtentOf(x) == ExtentOf(y)
    ensures Covers(x, a, size) == Covers(y, a, size)
  {
  }

  lemma BoughtBlocks(w: World, c: nat, i: nat, a: nat, size: nat)
    requires BlocksOk(w) && c < |w.cpus| && i < |w.zones| && size % PAGE == 0
    requires Available(w.zones[i], a, size / PAGE)
    ensures BlocksOk(Bought(w, c, i, a, size)) && a !in w.live
    ensures a !in w.zones[i].runs
    ensures LiveBytes(Bought(w, c, i, a, size).zones[i]) == LiveBytes(w.zones[i]) + size
  {
    hide ZonesValid;
    hide LiveIs;
    var all, blocks, x := Settle(w.zones), size / PAGE, Bought(w, c, i, a, size);
    assert size == PAGE * blocks;
    TakeInZones(all, w.live, i, a, blocks);
    BoughtZone(w.zones[i], a, blocks, all);
    assert Settle(x.zones) == all[i := Take(all[i], a, size)];
  }

  lemma BoughtZone(z: Zone, a: nat, blocks: nat, all: seq<Zone>)
    requires ZonesValid(all) && Settled(z) in all && Available(z, a, blocks)
    ensures a !in z.runs
    ensures Take(Settled(z), a, PAGE * blocks) == Settled(z.(runs := z.runs[a := blocks]))
  {
    assert ZoneValid(Settled(z));
    TakeValid(Settled(z), a, blocks);
  }

  lemma ReturnedBlocks(w: World, c: nat, i: nat, a: nat, size: nat)
    requires BlocksOk(w) && c < |w.cpus| && IsRun(w, i, a, size)
    ensures BlocksOk(Returned(w, c, i, a, size))
    ensures LiveBytes(Returned(w, c, i, a, size).zones[i]) == LiveBytes(w.zones[i]) - size
  {
    hide ZonesValid;
    hide LiveIs;
    var all, x := Settle(w.zones), Returned(w, c, i, a, size);
    ReleaseInZones(all, w.live, i, a);
    ReturnedZone(w.zones[i], a, all);
    assert Settle(x.zones) == all[i := Release(all[i], a, size)];
  }

  lemma ReturnedZone(z: Zone, a: nat, all: seq<Zone>)
    requires ZonesValid(all) && Settled(z) in all && a in z.runs
    ensures PAGE * z.runs[a] <= LiveBytes(z)
    ensures Release(Settled(z), a, PAGE * z.runs[a]) == Settled(z.(runs := z.runs - {a}))
  {
    assert ZoneValid(Settled(z));
    ReleaseValid(Settled(z), a);
  }

  lemma NextBlocks(w: World, c: nat, act: Action)
    requires Inv(w) && Enabled(w, c, act)
    ensures BlocksOk(Next(w, c, act))
  {
    hide ZonesValid;
    hide LiveIs;
    hide RangeFree;
    var p, x := w.cpus[c], Next(w, c, act);
    match act
    case TryZone(got) =>
      if got.Some? { BoughtBlocks(w, c, p.i, got.value, p.size); }
    case TestZone =>
      if p.i < |w.zones| && Covers(w.zones[p.i], p.a, p.size) {
        FreeHitsLive(w, c);
        ReturnedBlocks(w, c, p.i, p.a, p.size);
      }
    case PushZone(piece) => PushBlocks(w, piece);
    case Count => SettleSame(w.zones, x.zones);
    case Uncount => SettleSame(w.zones, x.zones);
    case _ =>
  }

  lemma PushBlocks(w: World, piece: Piece)
    requires BlocksOk(w) && RangeFree(w.zones, piece.start, piece.start + piece.size)
    requires piece.start % PAGE == 0 && piece.size % PAGE == 0 && piece.size > 0 && piece.start + piece.size < TWO32
    ensures BlocksOk(w.(zones := w.zones + [NewZone(piece)]))
  {
    var all := Settle(w.zones);
    forall i | 0 <= i < |all|
      ensures piece.start + piece.size <= all[i].start || all[i].start + all[i].size <= piece.start
    {
      assert ExtentOf(all[i]) == ExtentOf(w.zones[i]);
    }
    PushOne(all, w.live, piece);
    assert UsedBlocks(map[]) == {};
    assert Settle(w.zones + [NewZone(piece)]) == all + [NewZone(piece)];
  }

  /** At the end of the loop of `free` the block has been given back. */
  lemma FreeReleases(w: World, c: nat)
    requires PhasesOk(w) && c < |w.cpus| && w.cpus[c].Testing? && w.cpus[c].i >= |w.zones|
    ensures !Holds(w, c, w.cpus[c].a)
  {
    assert PhaseOk(w, c, w.cpus[c]);
  }

  lemma PhaseAt(w: World, c: nat)
    requires PhasesOk(w) && c < |w.cpus|
    ensures PhaseOk(w, c, w.cpus[c])
  {
  }

  lemma NextHolders(w: World, c: nat, act: Action)
    requires Inv(w) && Enabled(w, c, act)
    ensures HoldersOk(Next(w, c, act))
  {
    hide BlocksOk;
    hide PhasesOk;
    hide AllCounted;
    hide HasRun;
    hide Available;
    var p, x := w.cpus[c], Next(w, c, act);
    PhaseAt(w, c);
    match act
    case TryZone(got) =>
      if got.Some? && p.i < |w.zones| {
        BoughtBlocks(w, c, p.i, got.value, p.size);
        BoughtHolders(w, c, p.i, got.value, p.size);
      }
    case TestZone =>
      if p.i >= |w.zones| {
        FreeReleases(w, c);
      } else if Covers(w.zones[p.i], p.a, p.size) {
        FreeHitsLive(w, c);
        ReturnedHolders(w, c, p.i, p.a, p.size);
      }
    case _ =>
  }

  lemma BoughtHolders(w: World, c: nat, i: nat, a: nat, size: nat)
    requires HoldersOk(w) && c < |w.cpus| && i < |w.zones| && w.cpus[c].Trying? && a !in w.live
    ensures HoldersOk(Bought(w, c, i, a, size))
  {
  }

  lemma ReturnedHolders(w: World, c: nat, i: nat, a: nat, size: nat)
    requires HoldersOk(w) && c < |w.cpus| && i < |w.zones| && w.cpus[c].Testing? && w.cpus[c].a == a
    ensures HoldersOk(Returned(w, c, i, a, size))
  {
  }

  lemma NextOther(w: World, c: nat, act: Action, d: nat)
    requires Inv(w) && Enabled(w, c, act) && !act.PushZone? && d < |w.cpus| && d != c
    ensures PhaseOk(Next(w, c, act), d, w.cpus[d])
  {
    hide BlocksOk;
    hide PhasesOk;
    hide AllCounted;
    hide Available;
    var p, x := w.cpus[c], Next(w, c, act);
    PhaseAt(w, c);
    PhaseAt(w, d);
    if act.TryZone? && act.got.Some? && p.i < |w.zones| { BoughtBlocks(w, c, p.i, act.got.value, p.size); }
    if act.TestZone? && p.i < |w.zones| && Covers(w.zones[p.i], p.a, p.size) { FreeHitsLive(w, c); }
    OtherPhase(w, x, d, w.cpus[d]);
  }

  lemma NextOwn(w: World, c: nat, act: Action)
    requires Inv(w) && Enabled(w, c, act) && !act.PushZone?
    ensures PhaseOk(Next(w, c, act), c, Next(w, c, act).cpus[c])
  {
    hide PhasesOk;
    hide AllCounted;
    hide BlocksOk;
    hide Available;
    var p, x := w.cpus[c], Next(w, c, act);
    PhaseAt(w, c);
    match act
    case TryZone(got) =>
      if got.Some? && p.i < |w.zones| {
        assert p.size == PAGE * (p.size / PAGE);
        assert IsRun(x, p.i, got.value, p.size);
      }
    case StartFree(a, size) =>
      var k := OwnedIsRun(w, a);
      assert IsRun(x, k, a, size);
    case TestZone =>
      if p.i < |w.zones| && Covers(w.zones[p.i], p.a, p.size) {
        FreeHitsLive(w, c);
      } else if p.i < |w.zones| && Holds(w, c, p.a) {
        var k := HeldAbove(w, c);
        assert IsRun(x, k, p.a, p.size);
      }
    case Uncount => OneCover(w, p.i, p.a, p.size);
    case Load =>
      if p.i < |w.zones| { LoadOwn(w, c); }
    case _ =>
  }

  /** A loaded counter is at most the zone's size and what is still to be subtracted from it. */
  lemma LoadOwn(w: World, c: nat)
    requires Inv(w) && c < |w.cpus| && w.cpus[c].Reading? && w.cpus[c].i < |w.zones|
    ensures var p, q := w.cpus[c], Loaded(w, w.cpus[c].i, w.cpus[c].sum, w.cpus[c].over);
            q.sum <= TotalOf(w.zones[..q.i]) + q.over
  {
    var p := w.cpus[c];
    PhaseAt(w, c);
    Accounts(w, p.i);
    hide Inv;
    hide Pending;
    assert w.zones[..p.i + 1][..p.i] == w.zones[..p.i];
  }

  lemma OwnedIsRun(w: World, a: nat) returns (k: nat)
    requires BlocksOk(w) && a in w.live
    ensures IsRun(w, k, a, w.live[a]) && w.live[a] > 0 && a + w.live[a] < TWO32
  {
    var all := Settle(w.zones);
    var i :| HasRun(all, i, a);
    assert ZoneValid(all[i]);
    LiveFits(all, w.live, a);
    return i;
  }

  lemma HeldAbove(w: World, c: nat) returns (k: nat)
    requires BlocksOk(w) && c < |w.cpus| && w.cpus[c].Testing? && PhaseOk(w, c, w.cpus[c])
    requires w.cpus[c].i < |w.zones| && Holds(w, c, w.cpus[c].a)
    requires !Covers(w.zones[w.cpus[c].i], w.cpus[c].a, w.cpus[c].size)
    ensures k > w.cpus[c].i && IsRun(w, k, w.cpus[c].a, w.cpus[c].size)
  {
    var p, all := w.cpus[c], Settle(w.zones);
    k :| k >= p.i && IsRun(w, k, p.a, p.size);
    hide Covers;
    RunInside(all[k], p.a);
    SameCovers(w.zones[k], all[k], p.a, p.size);
  }

  lemma OneCover(w: World, i: nat, a: nat, size: nat)
    requires BlocksOk(w) && i < |w.zones| && size > 0 && a + size < TWO32 && Covers(w.zones[i], a, size)
    ensures forall k :: 0 <= k < |w.zones| && k != i ==> !Covers(w.zones[k], a, size)
  {
    var all := Settle(w.zones);
    forall k | 0 <= k < |w.zones| && k != i
      ensures !Covers(w.zones[k], a, size)
    {
      hide Covers;
      SameCovers(w.zones[k], all[k], a, size);
      SameCovers(w.zones[i], all[i], a, size);
      if Covers(w.zones[k], a, size) { OneZone(all, i, k, a, size, size); }
    }
  }

  lemma NextPhases(w: World, c: nat, act: Action)
    requires Inv(w) && Enabled(w, c, act)
    ensures PhasesOk(Next(w, c, act))
  {
    hide PhaseOk;
    hide Inv;
    var x := Next(w, c, act);
    forall d | 0 <= d < |x.cpus|
      ensures PhaseOk(x, d, x.cpus[d])
    {
      if act.PushZone? {
        assert w.cpus[d].Idle?;
        IdleOk(x, d);
      } else if d == c {
        NextOwn(w, c, act);
      } else {
        NextOther(w, c, act, d);
      }
    }
  }

  lemma IdleOk(w: World, c: nat)
    ensures PhaseOk(w, c, Idle)
  {
  }

  /** Each step of a call keeps each counter equal to the live bytes, less what is still to be added, plus
      what is still to be subtracted. */
  lemma NextCounted(w: World, c: nat, act: Action, k: nat)
    requires Inv(w) && Enabled(w, c, act) && k < |Next(w, c, act).zones|
    ensures Counted(Next(w, c, act), k) && Next(w, c, act).zones[k].size < TWO32
  {
    hide BlocksOk;
    hide PhasesOk;
    hide HoldersOk;
    hide Available;
    hide Pending;
    hide LiveBytes;
    var p, x := w.cpus[c], Next(w, c, act);
    PhaseAt(w, c);
    match act
    case PushZone(piece) => PushCounted(w, piece, k);
    case TryZone(got) =>
      if got.Some? && p.i < |w.zones| { BoughtBlocks(w, c, p.i, got.value, p.size); }
      TruthUpdate(w, x, c, x.cpus[c], k);
    case TestZone =>
      if p.i < |w.zones| && Covers(w.zones[p.i], p.a, p.size) {
        FreeHitsLive(w, c);
        ReturnedBlocks(w, c, p.i, p.a, p.size);
      }
      TruthUpdate(w, x, c, x.cpus[c], k);
    case Count => UpdateCounted(w, x, c, Idle, p.i, p.size, k);
    case Uncount => UpdateCounted(w, x, c, x.cpus[c], p.i, 0 - p.size, k);
    case _ => TruthUpdate(w, x, c, x.cpus[c], k);
  }

  /** `fetch_add` and `fetch_sub` follow the true counter modulo the word size. */
  lemma UpdateCounted(w: World, x: World, c: nat, p: Phase, i: nat, change: int, k: nat)
    requires AllCounted(w) && c < |w.cpus| && x.cpus == w.cpus[c := p] && (p.Idle? || p.Testing?)
    requires i < |w.zones| && k < |w.zones| && x.zones == SetCounter(w.zones, i, CounterAt(w.zones, i) + change)
    requires forall j :: Due(w.cpus[c], j, true) - Due(w.cpus[c], j, false) == if j == i then change else 0
    ensures Counted(x, k) && x.zones[k].size < TWO32
  {
    SameLive(w.zones[k], x.zones[k]);
    TruthUpdate(w, x, c, p, k);
    assert Counted(w, k);
    WrapStep(Truth(w, k), change);
    hide LiveBytes;
    hide Pending;
    hide Truth;
    assert Truth(x, k) == Truth(w, k) + (if k == i then change else 0);
  }

  lemma WrapStep(n: int, change: int)
    ensures (n % TWO32 + change) % TWO32 == (n + change) % TWO32
  {
  }

  lemma SameLive(x: Zone, y: Zone)
    requires x.runs == y.runs
    ensures LiveBytes(x) == LiveBytes(y)
  {
  }

  lemma PushCounted(w: World, piece: Piece, k: nat)
    requires (forall d :: 0 <= d < |w.cpus| ==> w.cpus[d].Idle?) && piece.size < TWO32
    requires AllCounted(w) && k <= |w.zones|
    ensures var x := w.(zones := w.zones + [NewZone(piece)]);
            Counted(x, k) && x.zones[k].size < TWO32
  {
    NothingPending(w.cpus, k, true);
    NothingPending(w.cpus, k, false);
    assert UsedBlocks(map[]) == {};
  }

  lemma NextInv(w: World, c: nat, act: Action)
    requires Inv(w) && Enabled(w, c, act)
    ensures Inv(Next(w, c, act))
  {
    hide BlocksOk;
    hide HoldersOk;
    hide PhasesOk;
    hide Counted;
    NextBlocks(w, c, act);
    NextHolders(w, c, act);
    NextPhases(w, c, act);
    forall k | 0 <= k < |Next(w, c, act).zones|
      ensures Counted(Next(w, c, act), k) && Next(w, c, act).zones[k].size < TWO32
    {
      NextCounted(w, c, act, k);
    }
  }

  // What holds in every reachable state.

  predicate AddsTo(p: Phase, k: nat) { p.Adding? && p.i == k }

  /** The runs still to be added to the counter of zone k are different runs of z. */
  ghost predicate AddsWithin(cpus: seq<Phase>, k: nat, z: Zone) {
    && (forall c :: 0 <= c < |cpus| && AddsTo(cpus[c], k) ==>
          cpus[c].a in z.runs && cpus[c].size == PAGE * z.runs[cpus[c].a])
    && (forall c, d :: 0 <= c < d < |cpus| && AddsTo(cpus[c], k) && AddsTo(cpus[d], k) ==> cpus[c].a != cpus[d].a)
  }

  lemma {:induction false} AddsFit(cpus: seq<Phase>, k: nat, z: Zone)
    requires ZoneValid(z) && AddsWithin(cpus, k, z)
    ensures Pending(cpus, k, true) <= z.counter
  {
    if |cpus| > 0 {
      var n := |cpus| - 1;
      var p := cpus[n];
      if AddsTo(p, k) {
        ReleaseValid(z, p.a);
        AddsFit(cpus[..n], k, Release(z, p.a, p.size));
      } else {
        AddsFit(cpus[..n], k, z);
      }
    }
  }

  lemma AddsWithinZone(w: World, k: nat)
    requires Inv(w) && k < |w.zones|
    ensures AddsWithin(w.cpus, k, Settled(w.zones[k]))
  {
    hide BlocksOk;
    hide AllCounted;
    forall c | 0 <= c < |w.cpus| && AddsTo(w.cpus[c], k)
      ensures Holds(w, c, w.cpus[c].a) && IsRun(w, k, w.cpus[c].a, w.cpus[c].size)
    {
      PhaseAt(w, c);
    }
  }

  /** The accounting of a zone: pending additions are part of the live bytes, which fit the zone, and the
      counter is exact whenever no wrapped subtraction is possible. */
  lemma Accounts(w: World, k: nat)
    requires Inv(w) && k < |w.zones|
    ensures Pending(w.cpus, k, true) <= LiveBytes(w.zones[k]) <= w.zones[k].size
    ensures w.zones[k].counter == Truth(w, k) % TWO32 && Truth(w, k) >= 0
    ensures Truth(w, k) < TWO32 ==> w.zones[k].counter == Truth(w, k)
    ensures Pending(w.cpus, k, false) == 0 ==> w.zones[k].counter == Truth(w, k) <= w.zones[k].size
  {
    hide LiveIs;
    hide Pending;
    var z := Settle(w.zones)[k];
    assert ZoneValid(z);
    AllocatedFits(z);
    AddsWithinZone(w, k);
    AddsFit(w.cpus, k, z);
    assert Counted(w, k);
  }

  /** Adding up the counters never gives more than there is, unless a subtraction is pending. */
  lemma SumFits(w: World)
    requires Inv(w) && forall k :: 0 <= k < |w.zones| ==> Pending(w.cpus, k, false) == 0
    ensures CounterSum(w.zones) <= TotalOf(w.zones)
  {
    hide Inv;
    forall k | 0 <= k < |w.zones|
      ensures w.zones[k].counter <= w.zones[k].size
    {
      Accounts(w, k);
    }
    SumBelow(w.zones);
  }

  lemma {:induction false} SumBelow(zones: seq<Zone>)
    requires forall k :: 0 <= k < |zones| ==> zones[k].counter <= zones[k].size
    ensures CounterSum(zones) <= TotalOf(zones)
  {
    if |zones| > 0 { SumBelow(zones[..|zones| - 1]); }
  }

  /** What `allocated_memory` returns, though it loads the counters one after the other while others work:
      at most the total and what was still to be subtracted when each was loaded. */
  lemma ReadFits(w: World, c: nat)
    requires Inv(w) && c < |w.cpus| && w.cpus[c].Reading? && w.cpus[c].i == |w.zones|
    ensures w.cpus[c].sum <= TotalOf(w.zones) + w.cpus[c].over
    ensures w.cpus[c].over == 0 ==> w.cpus[c].sum <= TotalOf(w.zones)
  {
    PhaseAt(w, c);
    assert w.zones[..|w.zones|] == w.zones;
  }

  /** `fetch_sub` never borrows: the true counter covers the size, and so does the stored one unless
      that many subtractions are outstanding that it has wrapped. */
  lemma NoBorrow(w: World, c: nat)
    requires Inv(w) && c < |w.cpus| && w.cpus[c].Subtracting?
    ensures w.cpus[c].i < |w.zones| && Truth(w, w.cpus[c].i) >= w.cpus[c].size
    ensures Truth(w, w.cpus[c].i) < TWO32 ==> w.zones[w.cpus[c].i].counter >= w.cpus[c].size
  {
    PhaseAt(w, c);
    Accounts(w, w.cpus[c].i);
    PendingCovers(w.cpus, c, w.cpus[c].i, false);
  }

  ghost predicate Quiet(w: World) { forall c :: 0 <= c < |w.cpus| ==> w.cpus[c].Idle? }

  /** With no call in flight the state is one the allocator reaches without interleaving: the counters
      are exact and every block handed out is with its owner. */
  lemma QuietIsSequential(w: World)
    requires Inv(w) && Quiet(w)
    ensures ZonesValid(w.zones) && LiveIs(w.zones, w.live)
    ensures forall a :: a in w.live ==> Owned(w, a, w.live[a])
    ensures CounterSum(w.zones) <= TotalOf(w.zones)
  {
    hide ZonesValid;
    hide LiveIs;
    forall k | 0 <= k < |w.zones|
      ensures Settle(w.zones)[k] == w.zones[k]
    {
      NothingPending(w.cpus, k, true);
      NothingPending(w.cpus, k, false);
      Accounts(w, k);
    }
    assert Settle(w.zones) == w.zones;
    CountersFit(w.zones);
    forall a | a in w.live
      ensures w.holder[a] == None
    {
      assert a in w.holder;
      assert w.holder[a].Some? ==> About(w.cpus[w.holder[a].value], a);
    }
  }

  // Runs.

  datatype Move = Move(cpu: nat, act: Action)

  function Start(n: nat): World { World([], seq(n, i => Idle), map[], map[]) }

  ghost predicate Run(n: nat, worlds: seq<World>, moves: seq<Move>) {
    && |worlds| == |moves| + 1 && worlds[0] == Start(n)
    && forall i :: 0 <= i < |moves| ==> Step(worlds[i], moves[i], worlds[i + 1])
  }

  ghost predicate Step(x: World, m: Move, y: World) { Enabled(x, m.cpu, m.act) && y == Next(x, m.cpu, m.act) }

  lemma {:induction false} RunInv(n: nat, worlds: seq<World>, moves: seq<Move>, i: nat)
    requires Run(n, worlds, moves) && i < |worlds|
    ensures Inv(worlds[i])
  {
    if i == 0 {
      assert Settle([]) == [];
    } else {
      RunInv(n, worlds, moves, i - 1);
      assert Step(worlds[i - 1], moves[i - 1], worlds[i]);
      NextInv(worlds[i - 1], moves[i - 1].cpu, moves[i - 1].act);
    }
  }

  /** The allocator under any interleaving: blocks out at the same time never overlap, every counter is
      the live bytes less pending additions plus pending subtractions, every release is of a live
      block, no subtraction borrows, and quiet states are sequential ones. */
  lemma ConcurrentSafety(n: nat, worlds: seq<World>, moves: seq<Move>, i: nat)
    requires Run(n, worlds, moves) && i < |worlds|
    ensures var w := worlds[i];
            && (forall a, b :: a in w.live && b in w.live && a != b ==> a + w.live[a] <= b || b + w.live[b] <= a)
            && (forall k :: 0 <= k < |w.zones| ==>
                  && Truth(w, k) >= 0
                  && w.zones[k].counter == Truth(w, k) % TWO32
                  && (Pending(w.cpus, k, false) == 0 ==> w.zones[k].counter == Truth(w, k) <= w.zones[k].size))
            && (forall c :: 0 <= c < |w.cpus| && w.cpus[c].Subtracting? ==>
                  w.cpus[c].i < |w.zones| && Truth(w, w.cpus[c].i) >= w.cpus[c].size)
            && (forall c :: 0 <= c < |w.cpus| && HasRead(w, c) ==> w.cpus[c].sum <= TotalOf(w.zones) + w.cpus[c].over)
            && (forall c :: 0 <= c < |w.cpus| && Releases(w, c) ==>
                  IsRun(w, w.cpus[c].i, w.cpus[c].a, w.cpus[c].size) && Holds(w, c, w.cpus[c].a))
            && (Quiet(w) ==> ZonesValid(w.zones) && LiveIs(w.zones, w.live) && CounterSum(w.zones) <= TotalOf(w.zones))
  {
    hide BlocksOk;
    hide HoldersOk;
    hide PhasesOk;
    hide Truth;
    hide ZonesValid;
    hide LiveIs;
    var w := worlds[i];
    RunInv(n, worlds, moves, i);
    forall a, b | a in w.live && b in w.live && a != b
      ensures a + w.live[a] <= b || b + w.live[b] <= a
    {
      BlocksApart(w, a, b);
    }
    forall k | 0 <= k < |w.zones|
      ensures Truth(w, k) >= 0 && w.zones[k].counter == Truth(w, k) % TWO32
      ensures Pending(w.cpus, k, false) == 0 ==> w.zones[k].counter == Truth(w, k) <= w.zones[k].size
    {
      Accounts(w, k);
    }
    forall c | 0 <= c < |w.cpus| && w.cpus[c].Subtracting?
      ensures w.cpus[c].i < |w.zones| && Truth(w, w.cpus[c].i) >= w.cpus[c].size
    {
      NoBorrow(w, c);
    }
    forall c | 0 <= c < |w.cpus| && HasRead(w, c)
      ensures w.cpus[c].sum <= TotalOf(w.zones) + w.cpus[c].over
    {
      ReadFits(w, c);
    }
    forall c | 0 <= c < |w.cpus| && Releases(w, c)
      ensures IsRun(w, w.cpus[c].i, w.cpus[c].a, w.cpus[c].size) && Holds(w, c, w.cpus[c].a)
    {
      PhaseAt(w, c);
      FreeHitsLive(w, c);
    }
    if Quiet(w) { QuietIsSequential(w); }
  }

  /** Processor c has loaded every counter. */
  predicate HasRead(w: World, c: nat) { c < |w.cpus| && w.cpus[c].Reading? && w.cpus[c].i == |w.zones| }

  /** The next step of processor c gives its block back to a buddy. */
  predicate Releases(w: World, c: nat) {
    c < |w.cpus| && w.cpus[c].Testing? && w.cpus[c].i < |w.zones|
    && Covers(w.zones[w.cpus[c].i], w.cpus[c].a, w.cpus[c].size)
  }

  lemma BlocksApart(w: World, a: nat, b: nat)
    requires BlocksOk(w) && a in w.live && b in w.live && a != b
    ensures a + w.live[a] <= b || b + w.live[b] <= a
  {
    LiveDisjoint(Settle(w.zones), w.live, a, b);
  }

  // In between, the counters may say more is in use than there is.

  function Frame0(counter: nat, out: bool): seq<Zone> {
    [Zone(0, PAGE, counter, if out then map[0 := 1] else map[])]
  }

  /** The states of the run below: the first processor takes and counts the one frame and its free has
      reached the buddy but not the counter, then the second takes and counts the frame. */
  function OverWorld(i: nat): World {
    var sub := Subtracting(0, PAGE, 0);
    var out: map<nat, nat> := map[0 := PAGE];
    match i
    case 0 => World([], [Idle, Idle], map[], map[])
    case 1 => World(Frame0(0, false), [Idle, Idle], map[], map[])
    case 2 => World(Frame0(0, false), [Trying(PAGE, 0), Idle], map[], map[])
    case 3 => World(Frame0(0, true), [Adding(PAGE, 0, 0), Idle], out, map[0 := Some(0)])
    case 4 => World(Frame0(PAGE, true), [Idle, Idle], out, map[0 := None])
    case 5 => World(Frame0(PAGE, true), [Testing(0, PAGE, 0), Idle], out, map[0 := Some(0)])
    case 6 => World(Frame0(PAGE, false), [sub, Idle], map[], map[])
    case 7 => World(Frame0(PAGE, false), [sub, Trying(PAGE, 0)], map[], map[])
    case 8 => World(Frame0(PAGE, true), [sub, Adding(PAGE, 0, 0)], out, map[0 := Some(1)])
    case 9 => World(Frame0(2 * PAGE, true), [sub, Idle], out, map[0 := None])
    case 10 => World(Frame0(2 * PAGE, true), [sub, Reading(0, 0, 0)], out, map[0 := None])
    case _ => World(Frame0(2 * PAGE, true), [sub, Reading(1, 2 * PAGE, PAGE)], out, map[0 := None])
  }

  function OverMove(i: nat): Move {
    match i
    case 0 => Move(0, PushZone(Piece(0, PAGE)))
    case 1 => Move(0, StartAlloc(PAGE))
    case 2 => Move(0, TryZone(Some(0)))
    case 3 => Move(0, Count)
    case 4 => Move(0, StartFree(0, PAGE))
    case 5 => Move(0, TestZone)
    case 6 => Move(1, StartAlloc(PAGE))
    case 7 => Move(1, TryZone(Some(0)))
    case 8 => Move(1, Count)
    case 9 => Move(1, StartRead)
    case _ => Move(1, Load)
  }

  lemma OverStepLow(i: nat)
    requires i < 5
    ensures Step(OverWorld(i), OverMove(i), OverWorld(i + 1))
  {
    hide Available;
    FrameFree(0);
  }

  lemma OverStepHigh(i: nat)
    requires 5 <= i < 11
    ensures Step(OverWorld(i), OverMove(i), OverWorld(i + 1))
  {
    hide Available;
    FrameFree(PAGE);
    OnePending();
  }

  lemma OnePending()
    ensures Pending([Subtracting(0, PAGE, 0), Reading(0, 0, 0)], 0, false) == PAGE
  {
    var cpus := [Subtracting(0, PAGE, 0), Reading(0, 0, 0)];
    assert cpus[..1] == [Subtracting(0, PAGE, 0)] && cpus[..1][..0] == [];
    assert Pending(cpus[..1], 0, false) == PAGE;
  }

  /** The counters may add up to more than there is, so `allocated_memory` may return more than
      `total_memory` while a free is in flight. */
  lemma AllocatedAboveTotal() returns (worlds: seq<World>, moves: seq<Move>)
    ensures Run(2, worlds, moves)
    ensures var w := worlds[|moves|];
            HasRead(w, 1) && w.cpus[1].sum == CounterSum(w.zones) == 2 * PAGE && TotalOf(w.zones) == PAGE
  {
    hide Step;
    worlds, moves := seq(12, i requires 0 <= i < 12 => OverWorld(i)), seq(11, i requires 0 <= i < 11 => OverMove(i));
    forall i | 0 <= i < |moves|
      ensures Step(worlds[i], moves[i], worlds[i + 1])
    {
      if i < 5 {
        OverStepLow(i);
      } else {
        OverStepHigh(i);
      }
    }
    assert worlds[0] == Start(2);
    OneZoneSums(worlds[11].zones[0]);
  }

  lemma OneZoneSums(z: Zone)
    ensures CounterSum([z]) == z.counter && TotalOf([z]) == z.size
  {
    assert [z][..0] == [];
  }

  /** An empty zone of one frame has it to give. */
  lemma FrameFree(counter: nat)
    ensures Available(Frame0(counter, false)[0], 0, 1)
  {
    assert UsedBlocks(map[]) == {};
  }
}
