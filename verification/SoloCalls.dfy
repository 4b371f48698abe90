/** Calls of the shared allocator that no other processor disturbs do what the calls of the sequential
    allocator do. */
module SoloCalls {
  import opened Common
  import opened ZonedBuddy
  import opened ConcurrentBuddy
  import Accounting
  import ZoneTotals

  /** Steps that follow one another. */
  ghost predicate Steps(worlds: seq<World>, moves: seq<Move>) {
    |worlds| == |moves| + 1 && forall i :: 0 <= i < |moves| ==> Step(worlds[i], moves[i], worlds[i + 1])
  }

  // Reading the counters.

  predicate Updates(act: Action) { act.Count? || act.Uncount? || act.PushZone? }

  /** The same zones with the same counters, though perhaps with other blocks out. */
  ghost predicate SameCounters(x: seq<Zone>, y: seq<Zone>) {
    |x| == |y| && forall k :: 0 <= k < |x| ==> x[k].counter == y[k].counter
  }

  /** Processor c, if it reads, has read the first counters as they were. */
  ghost predicate ReadSoFar(zones: seq<Zone>, w: World, c: nat) {
    && SameCounters(zones, w.zones) && c < |w.cpus|
    && (w.cpus[c].Reading? ==> w.cpus[c].i <= |zones| && w.cpus[c].sum == CounterSum(zones[..w.cpus[c].i]) % TWO32)
  }

  lemma ReadStep(zones: seq<Zone>, w: World, m: Move, x: World, c: nat)
    requires ReadSoFar(zones, w, c) && Step(w, m, x) && !Updates(m.act)
    ensures ReadSoFar(zones, x, c)
  {
    hide Available;
    hide RangeFree;
    hide Covers;
    hide ConcurrentBuddy.Owned;
    hide Pending;
    var p := w.cpus[c];
    if m.cpu == c && m.act.Load? && p.i < |w.zones| {
      assert zones[..p.i + 1][..p.i] == zones[..p.i];
      assert CounterSum(zones[..p.i + 1]) == CounterSum(zones[..p.i]) + zones[p.i].counter;
    }
  }

  lemma {:induction false} ReadRun(worlds: seq<World>, moves: seq<Move>, c: nat, i: nat)
    requires Steps(worlds, moves) && i < |worlds| && c < |worlds[0].cpus| && worlds[0].cpus[c].Idle?
    requires forall j :: 0 <= j < |moves| ==> !Updates(moves[j].act)
    ensures ReadSoFar(worlds[0].zones, worlds[i], c)
  {
    if i > 0 {
      ReadRun(worlds, moves, c, i - 1);
      ReadStep(worlds[0].zones, worlds[i - 1], moves[i - 1], worlds[i], c);
    }
  }

  /** No update of a counter is under way. */
  ghost predicate NonePending(w: World) {
    forall c :: 0 <= c < |w.cpus| ==> !w.cpus[c].Adding? && !w.cpus[c].Subtracting?
  }

  /** A read of the counters during which no other processor updates one returns exactly what is in use: the
      bytes of the blocks that were out when it began. */
  lemma ReadIsExact(worlds: seq<World>, moves: seq<Move>, c: nat)
    requires Steps(worlds, moves) && Inv(worlds[0]) && NonePending(worlds[0])
    requires c < |worlds[0].cpus| && worlds[0].cpus[c].Idle? && HasRead(worlds[|moves|], c)
    requires forall j :: 0 <= j < |moves| ==> !Updates(moves[j].act)
    ensures worlds[|moves|].cpus[c].sum == PAGE * |Accounting.LiveBlocks(worlds[0].live)|
  {
    hide ReadSoFar;
    hide Inv;
    hide Step;
    hide NonePending;
    hide ZonesValid;
    hide LiveIs;
    hide CounterSum;
    hide TotalOf;
    var w, x := worlds[0], worlds[|moves|];
    ReadRun(worlds, moves, c, |moves|);
    ReadAll(w.zones, x, c);
    PendingNone(w);
    ZoneTotals.TotalFits(w.zones);
    CountersFit(w.zones);
    Accounting.CounterIsBlocks(w.zones);
    Accounting.BlocksAreLive(w.zones, w.live);
  }

  lemma ReadAll(zones: seq<Zone>, x: World, c: nat)
    requires ReadSoFar(zones, x, c) && HasRead(x, c)
    ensures x.cpus[c].sum == CounterSum(zones) % TWO32
  {
    assert zones[..|zones|] == zones;
  }

  /** Then the zones are those of a sequential state. */
  lemma PendingNone(w: World)
    requires Inv(w) && NonePending(w)
    ensures Settle(w.zones) == w.zones && ZonesValid(w.zones) && LiveIs(w.zones, w.live)
  {
    hide ZonesValid;
    hide LiveIs;
    forall k | 0 <= k < |w.zones|
      ensures Settle(w.zones)[k] == w.zones[k]
    {
      NothingPending(w.cpus, k, true);
      NothingPending(w.cpus, k, false);
      Accounts(w, k);
    }
  }

  // Handing out.

  /** All steps are those of one call of processor c. */
  ghost predicate OneCall(worlds: seq<World>, moves: seq<Move>, c: nat) {
    && Steps(worlds, moves) && |moves| > 0 && c < |worlds[0].cpus|
    && (forall i :: 0 <= i < |moves| ==> moves[i].cpu == c)
    && (forall i :: 0 < i < |moves| ==> c < |worlds[i].cpus| && !worlds[i].cpus[c].Idle?)
  }

  /** The buddies' answers are those of a library. */
  ghost predicate Answers(lib: Library, call: nat, w: World, m: Move) {
    m.act.TryZone? && m.cpu < |w.cpus| && w.cpus[m.cpu].Trying? && w.cpus[m.cpu].i < |w.zones| ==>
      m.act.got == Grant(lib, call, w.zones[w.cpus[m.cpu].i], w.cpus[m.cpu].size / PAGE)
  }

  /** How far an undisturbed `alloc` that began in w has come. */
  ghost predicate AllocSoFar(lib: Library, call: nat, w: World, x: World, c: nat, size: nat) {
    && c < |x.cpus| == |w.cpus| && (forall d :: 0 <= d < |w.cpus| && d != c ==> x.cpus[d] == w.cpus[d])
    && match x.cpus[c]
       case Trying(n, i) =>
         && n == size && i <= |w.zones| && x.zones == w.zones && x.live == w.live && x.holder == w.holder
         && NoneGrants(lib, w.zones[..i], call, size / PAGE)
       case Adding(n, i, a) =>
         && n == size && FirstGrants(lib, w.zones, call, size / PAGE, i, a) && x.live == w.live[a := size]
         && x.zones == w.zones[i := w.zones[i].(runs := w.zones[i].runs[a := size / PAGE])]
         && x.holder == w.holder[a := Some(c)]
       case Idle => Allocated(lib, call, w, x, size)
       case _ => false
  }

  /** What the sequential `alloc` does. */
  ghost predicate Allocated(lib: Library, call: nat, w: World, x: World, size: nat) {
    if NoneGrants(lib, w.zones, call, size / PAGE) then
      x.zones == w.zones && x.live == w.live && x.holder == w.holder
    else
      exists k: nat, a: nat :: FirstGrants(lib, w.zones, call, size / PAGE, k, a) && Handed(w, x, k, a, size)
  }

  predicate Handed(w: World, x: World, k: nat, a: nat, size: nat) {
    && k < |w.zones| && x.zones == w.zones[k := Take(w.zones[k], a, size)]
    && x.live == w.live[a := size] && x.holder == w.holder[a := None]
  }

  lemma AllocStep(lib: Library, call: nat, w: World, x: World, m: Move, y: World, c: nat, size: nat)
    requires Inv(w) && NonePending(w) && size > 0 && size % PAGE == 0
    requires AllocSoFar(lib, call, w, x, c, size) && !x.cpus[c].Idle? && m.cpu == c && Step(x, m, y)
    requires Answers(lib, call, x, m)
    ensures AllocSoFar(lib, call, w, y, c, size)
  {
    hide Inv;
    hide NonePending;
    hide Available;
    hide RangeFree;
    hide Covers;
    hide ZonesValid;
    hide LiveIs;
    hide Grant;
    PendingNone(w);
    var p := x.cpus[c];
    if p.Adding? {
      Granted(lib, call, w.zones[p.i], size / PAGE, p.a);
      CountFits(w.zones, p.i, p.a, size);
      assert y.zones == w.zones[p.i := Take(w.zones[p.i], p.a, size)];
      assert y.holder == w.holder[p.a := None];
      assert Handed(w, y, p.i, p.a, size);
      assert Grant(lib, call, w.zones[p.i], size / PAGE) != None;
    } else if p.i == |w.zones| {
      assert w.zones[..p.i] == w.zones;
    } else {
      assert w.zones[..p.i + 1] == w.zones[..p.i] + [w.zones[p.i]];
    }
  }

  lemma Granted(lib: Library, call: nat, z: Zone, blocks: nat, a: nat)
    requires Grant(lib, call, z, blocks) == Some(a)
    ensures Available(z, a, blocks)
  {
  }

  lemma CountFits(zones: seq<Zone>, k: nat, a: nat, size: nat)
    requires ZonesValid(zones) && k < |zones| && Available(zones[k], a, size / PAGE) && size % PAGE == 0
    ensures zones[k].counter + size < TWO32
  {
    assert ZoneValid(zones[k]);
    TakeValid(zones[k], a, size / PAGE);
    AllocatedFits(Take(zones[k], a, PAGE * (size / PAGE)));
  }

  lemma {:induction false} AllocRun(lib: Library, call: nat, worlds: seq<World>, moves: seq<Move>, c: nat, size: nat,
                                    i: nat)
    requires OneCall(worlds, moves, c) && moves[0].act == StartAlloc(size)
    requires Inv(worlds[0]) && NonePending(worlds[0]) && 0 < i < |worlds|
    requires forall j :: 0 <= j < |moves| ==> Answers(lib, call, worlds[j], moves[j])
    ensures AllocSoFar(lib, call, worlds[0], worlds[i], c, size)
  {
    hide Inv;
    hide NonePending;
    assert Step(worlds[0], moves[0], worlds[1]);
    if i > 1 {
      AllocRun(lib, call, worlds, moves, c, size, i - 1);
      assert Step(worlds[i - 1], moves[i - 1], worlds[i]);
      AllocStep(lib, call, worlds[0], worlds[i - 1], moves[i - 1], worlds[i], c, size);
    }
  }

  /** An `alloc` that no one disturbs does what the sequential one does: it takes from the first zone to
      grant, counts the bytes, and gives up exactly if every zone refuses. */
  lemma SoloAlloc(lib: Library, call: nat, worlds: seq<World>, moves: seq<Move>, c: nat, size: nat)
    requires OneCall(worlds, moves, c) && moves[0].act == StartAlloc(size)
    requires Inv(worlds[0]) && NonePending(worlds[0])
    requires forall j :: 0 <= j < |moves| ==> Answers(lib, call, worlds[j], moves[j])
    requires c < |worlds[|moves|].cpus| && worlds[|moves|].cpus[c].Idle?
    ensures Allocated(lib, call, worlds[0], worlds[|moves|], size)
    ensures worlds[|moves|].cpus == worlds[0].cpus
  {
    hide Inv;
    hide NonePending;
    AllocRun(lib, call, worlds, moves, c, size, |moves|);
    assert Step(worlds[0], moves[0], worlds[1]);
  }

  // Taking back.

  /** How far an undisturbed `free` that began in w has come. */
  ghost predicate FreeSoFar(w: World, x: World, c: nat, a: nat, size: nat) {
    && Inv(x) && c < |x.cpus| == |w.cpus| && (forall d :: 0 <= d < |w.cpus| && d != c ==> x.cpus[d] == w.cpus[d])
    && match x.cpus[c]
       case Testing(b, n, i) =>
         && b == a && n == size && i <= |w.zones|
         && if Holds(x, c, a)
            then x.zones == w.zones && x.live == w.live && x.holder == w.holder[a := Some(c)]
            else TakenBack(w, x, a, size)
       case Subtracting(b, n, i) =>
         && b == a && n == size && HasRun(w.zones, i, a) && size == PAGE * w.zones[i].runs[a]
         && x.zones == w.zones[i := w.zones[i].(runs := w.zones[i].runs - {a})]
         && x.live == w.live - {a} && x.holder == w.holder - {a}
       case Idle => TakenBack(w, x, a, size)
       case _ => false
  }

  /** What the sequential `free` does with a live block. */
  ghost predicate TakenBack(w: World, x: World, a: nat, size: nat) {
    && x.live == w.live - {a} && x.holder == w.holder - {a}
    && exists k: nat :: HasRun(w.zones, k, a) && Restored(w.zones, x.zones, k, a, size)
  }

  predicate Restored(zones: seq<Zone>, after: seq<Zone>, k: nat, a: nat, size: nat) {
    && k < |zones| && size <= zones[k].counter && size == PAGE * (if a in zones[k].runs then zones[k].runs[a] else 0)
    && after == zones[k := Release(zones[k], a, size)]
  }

  lemma FreeStep(w: World, x: World, m: Move, y: World, c: nat, a: nat, size: nat)
    requires Inv(w) && NonePending(w) && Owned(w, a, size)
    requires FreeSoFar(w, x, c, a, size) && !x.cpus[c].Idle? && m.cpu == c && Step(x, m, y)
    ensures FreeSoFar(w, y, c, a, size)
  {
    hide Inv;
    hide NonePending;
    hide Covers;
    hide ZonesValid;
    hide LiveIs;
    hide RangeFree;
    hide Available;
    hide BlocksOk;
    hide ConcurrentBuddy.Owned;
    PendingNone(w);
    NextInv(x, c, m.act);
    var p := x.cpus[c];
    PhaseOf(x, c);
    if p.Subtracting? {
      UncountFits(w.zones, p.i, a);
      assert y.zones == w.zones[p.i := Release(w.zones[p.i], a, size)];
      assert Restored(w.zones, y.zones, p.i, a, size);
    } else if p.i < |x.zones| && Covers(x.zones[p.i], a, size) {
      BlocksOf(x);
      FreeHitsLive(x, c);
      assert y.holder == w.holder - {a};
    } else if p.i >= |x.zones| && Holds(x, c, a) {
      assert false;
    }
  }

  lemma PhaseOf(x: World, c: nat)
    requires Inv(x) && c < |x.cpus|
    ensures PhaseOk(x, c, x.cpus[c])
  {
  }

  lemma BlocksOf(x: World)
    requires Inv(x)
    ensures BlocksOk(x)
  {
  }

  lemma UncountFits(zones: seq<Zone>, k: nat, a: nat)
    requires ZonesValid(zones) && HasRun(zones, k, a)
    ensures PAGE * zones[k].runs[a] <= zones[k].counter < TWO32
  {
    assert ZoneValid(zones[k]);
    ReleaseValid(zones[k], a);
    AllocatedFits(zones[k]);
  }

  lemma {:induction false} FreeRun(worlds: seq<World>, moves: seq<Move>, c: nat, a: nat, size: nat, i: nat)
    requires OneCall(worlds, moves, c) && moves[0].act == StartFree(a, size)
    requires Inv(worlds[0]) && NonePending(worlds[0]) && 0 < i < |worlds|
    ensures FreeSoFar(worlds[0], worlds[i], c, a, size)
  {
    hide Inv;
    hide NonePending;
    assert Step(worlds[0], moves[0], worlds[1]);
    NextInv(worlds[0], c, moves[0].act);
    if i > 1 {
      FreeRun(worlds, moves, c, a, size, i - 1);
      assert Step(worlds[i - 1], moves[i - 1], worlds[i]);
      FreeStep(worlds[0], worlds[i - 1], moves[i - 1], worlds[i], c, a, size);
    }
  }

  /** A `free` that no one disturbs takes the block back, in the zone that handed it out and in no other, and
      uncounts its bytes. */
  lemma SoloFree(worlds: seq<World>, moves: seq<Move>, c: nat, a: nat, size: nat)
    requires OneCall(worlds, moves, c) && moves[0].act == StartFree(a, size)
    requires Inv(worlds[0]) && NonePending(worlds[0])
    requires c < |worlds[|moves|].cpus| && worlds[|moves|].cpus[c].Idle?
    ensures TakenBack(worlds[0], worlds[|moves|], a, size) && worlds[|moves|].cpus == worlds[0].cpus
  {
    hide Inv;
    hide NonePending;
    FreeRun(worlds, moves, c, a, size, |moves|);
    assert Step(worlds[0], moves[0], worlds[1]);
  }
}
