/** Properties of whole runs of `map_alloc` and `unmap_free` calls, failed ones included. */
module Runs {
  import opened Common
  import opened PageTableEntry
  import opened PageTables
  import opened Ownership
  import opened Unmapping
  import opened MapSteps
  import opened MapRange
  import opened Overwriting

  /** A call on an address space. `MapOp` mapped the frames from page v on and `UnmapOp` removed the bytes
      [a, b); `MapStop` failed at the page after `frames`, and `UnmapStop` at byte `cut`. */
  datatype Op =
    | MapOp(v: nat, frames: seq<Frame>, flags: bv7)
    | MapStop(mid: State, v: nat, frames: seq<Frame>, g: Frame, flags: bv7, e: MappingError, leak: set<nat>)
    | UnmapOp(a: nat, b: nat)
    | UnmapStop(a: nat, b: nat, cut: nat, d: nat, w: Word, e: MappingError)

  ghost predicate Step(x: State, op: Op, y: State) {
    match op
    case MapOp(v, frames, flags) => RangeMapped(x, y, v, frames, flags)
    case MapStop(mid, v, frames, g, flags, e, leak) => FailedAt(x, mid, y, v, frames, g, flags, e, leak)
    case UnmapOp(a, b) => Done(x, y, a, b, x.space.Top())
    case UnmapStop(a, b, cut, d, w, e) => Stopped(x, y, a, b, x.space.Top(), cut, d, w, e)
  }

  ghost predicate Run(states: seq<State>, ops: seq<Op>) {
    |states| == |ops| + 1 && forall i :: 0 <= i < |ops| ==> Step(states[i], ops[i], states[i + 1])
  }

  /** The address space seen as a flat map: what one call does to page p. */
  function FlatStep(op: Op, p: nat, was: Option<Mapping>): Option<Mapping> {
    match op
    case MapOp(v, frames, flags) => if v <= p < v + |frames| then PageOf(frames[p - v], flags) else was
    case MapStop(_, v, frames, _, flags, _, _) => if v <= p < v + |frames| then PageOf(frames[p - v], flags) else was
    case UnmapOp(a, b) => if Contained(p, a, b) then None else was
    case UnmapStop(a, _, cut, _, _, _) => if Contained(p, a, cut) then None else was
  }

  function Flat(ops: seq<Op>, p: nat, was: Option<Mapping>): Option<Mapping> {
    if |ops| == 0 then was else FlatStep(ops[|ops| - 1], p, Flat(ops[..|ops| - 1], p, was))
  }

  lemma StepFlat(x: State, op: Op, y: State, p: nat)
    requires Step(x, op, y)
    ensures y.space.Trans(p) == FlatStep(op, p, x.space.Trans(p))
  {
    hide RangeMapped;
    hide FailedAt;
    hide Space.Trans;
    match op
    case MapOp(v, frames, flags) => RangeOf(x, y, v, frames, flags);
    case MapStop(_, _, _, _, _, _, _) => StopFlat(x, op, y, p);
    case UnmapOp(a, b) =>
    case UnmapStop(a, b, cut, d, w, e) =>
  }

  /** The failing page of a call maps nothing. */
  lemma StopFlat(x: State, op: Op, y: State, p: nat)
    requires op.MapStop? && Step(x, op, y)
    ensures y.space.Trans(p) == FlatStep(op, p, x.space.Trans(p))
  {
    hide RangeMapped;
    hide MapResult;
    hide Space.Trans;
    RangeOf(x, op.mid, op.v, op.frames, op.flags);
    ErrorKeeps(State(op.mid.space, op.mid.live[op.g := PAGE]), y, op.v + |op.frames|, 0, op.mid.space.top,
               PageWord(op.mid.space, op.g, op.flags), op.e, op.leak);
  }

  lemma RangeOf(x: State, y: State, v: nat, frames: seq<Frame>, flags: bv7)
    requires RangeMapped(x, y, v, frames, flags)
    ensures RangeTrans(x.space, y.space, v, frames, flags)
  {
  }

  lemma ErrorKeeps(x: State, y: State, p: nat, k: nat, d: nat, w: Word, e: MappingError, leak: set<nat>)
    requires MapResult(x, y, p, k, d, w, Err(e), leak)
    ensures forall q: nat {:trigger y.space.Trans(q)} :: y.space.Trans(q) == x.space.Trans(q)
  {
    hide Extended;
    hide Space.Trans;
    hide Barrier;
    hide Untouched;
  }

  lemma RunPrefix(states: seq<State>, ops: seq<Op>)
    requires Run(states, ops) && |ops| > 0
    ensures Run(states[..|ops|], ops[..|ops| - 1])
    ensures Step(states[|ops| - 1], ops[|ops| - 1], states[|ops|])
  {
    var s, o, n := states[..|ops|], ops[..|ops| - 1], |ops|;
    forall i | 0 <= i < |o|
      ensures Step(s[i], o[i], s[i + 1])
    {
      assert Step(states[i], ops[i], states[i + 1]);
    }
  }

  /** The tables refine the flat map over every run: a failed call has the effect of the part before
      the failure. */
  lemma {:induction false} RunRefinesFlatMap(states: seq<State>, ops: seq<Op>, p: nat)
    requires Run(states, ops)
    ensures states[|ops|].space.Trans(p) == Flat(ops, p, states[0].space.Trans(p))
  {
    var n := |ops|;
    if n > 0 {
      RunPrefix(states, ops);
      RunRefinesFlatMap(states[..n], ops[..n - 1], p);
      StepFlat(states[n - 1], ops[n - 1], states[n], p);
    }
  }

  // Ownership and conservation.

  /** The state a run starts from and keeps. */
  ghost predicate Fit(x: State) {
    x.space.Struct() && Own(x.space, x.live)
  }

  /** The blocks that a call leaves without an owner. */
  ghost function Lost(x: State, op: Op): set<nat> {
    match op
    case MapOp(v, frames, flags) => LostByMapping(x.space, v, frames, flags)
    case MapStop(_, v, frames, g, flags, _, leak) => LostByMapping(x.space, v, frames, flags) + {g} + leak
    case UnmapOp(_, _) => {}
    case UnmapStop(_, _, _, _, _, _) => {}
  }

  ghost function LostByMapping(s: Space, v: nat, frames: seq<Frame>, flags: bv7): set<nat> {
    Overwritten(s, v, |frames|) + Unanswered(s.low, v, frames, flags)
  }

  /** The call gave back a large page that stays mapped. */
  predicate Dangles(op: Op) { op.UnmapStop? && op.e.MappingOver? }

  /** The blocks of others stay live and others'. */
  ghost predicate OthersStay(x: State, y: State) {
    Others(x) <= Others(y) && forall a :: a in Others(x) ==> a in y.live && y.live[a] == x.live[a]
  }

  lemma OthersSelf(x: State)
    ensures OthersStay(x, x)
  {
  }

  lemma OthersTwice(x: State, y: State, z: State)
    requires OthersStay(x, y) && OthersStay(y, z)
    ensures OthersStay(x, z)
  {
    hide Others;
  }

  /** The lost blocks are frames, and are lost for the first time. */
  ghost predicate FramesLost(x: State, y: State, lost: set<nat>) {
    lost !! Others(x) && forall a :: a in lost ==> a in y.live && y.live[a] == PAGE
  }

  lemma LostTwice(x: State, y: State, z: State, early: set<nat>, late: set<nat>)
    requires OthersStay(x, y) && OthersStay(y, z) && Others(y) == Others(x) + early
    requires FramesLost(x, y, early) && FramesLost(y, z, late)
    ensures FramesLost(x, z, early + late)
  {
    hide Others;
  }

  lemma NothingLost(x: State)
    ensures FramesLost(x, x, {})
  {
  }

  /** Every call but one that leaves a dangling large page keeps the tables a tree and each block with one
      owner, and loses exactly those blocks. */
  lemma StepLoses(x: State, op: Op, y: State)
    requires Fit(x) && Step(x, op, y) && !Dangles(op)
    ensures Fit(y) && SameFixed(x.space, y.space)
    ensures Others(y) == Others(x) + Lost(x, op)
    ensures OthersStay(x, y) && FramesLost(x, y, Lost(x, op))
  {
    hide RangeMapped;
    hide FailedAt;
    match op
    case MapOp(v, frames, flags) =>
      RangeOwn(x, y, v, frames, flags);
      RangeGrew(x, y, v, frames, flags);
      RangeLeaves(x, y, v, frames, flags);
      LostFrames(x, y, v, frames, flags);
      LostSizes(x, y, Lost(x, op));
    case MapStop(mid, v, frames, g, flags, e, leak) =>
      FailedLoses(x, mid, y, v, frames, g, flags, e, leak);
      FailedMid(x, mid, y, v, frames, g, flags, e, leak);
      LostFrames(x, mid, v, frames, flags);
      LostSizes(x, y, Lost(x, op));
    case UnmapOp(a, b) => ReleasedOthers(x, y);
    case UnmapStop(a, b, cut, d, w, e) => ReleasedOthers(x, y);
  }

  lemma FailedMid(x: State, mid: State, y: State, v: nat, frames: seq<Frame>, g: Frame, flags: bv7, e: MappingError,
                  leak: set<nat>)
    requires FailedAt(x, mid, y, v, frames, g, flags, e, leak)
    ensures RangeMapped(x, mid, v, frames, flags)
  {
  }

  lemma LostSizes(x: State, y: State, lost: set<nat>)
    requires Own(x.space, x.live) && LiveGrew(x.live, y.live) && Others(y) == Others(x) + lost
    requires forall a :: a in lost ==> (a in x.live && x.live[a] == PAGE && a in Owned(x.space)) || a !in x.live
    ensures FramesLost(x, y, lost) && OthersStay(x, y)
  {
  }

  lemma ReleasedOthers(x: State, y: State)
    requires Released(x.space, x.live, y.space, y.live) && Own(x.space, x.live)
    ensures Others(y) == Others(x) && OthersStay(x, y)
  {
    OwnedIsLive(x.space, x.live);
  }

  /** The blocks lost over a run. */
  ghost function AllLost(states: seq<State>, ops: seq<Op>): set<nat>
    requires |states| == |ops| + 1
  {
    if |ops| == 0 then {} else AllLost(states[..|ops|], ops[..|ops| - 1]) + Lost(states[|ops| - 1], ops[|ops| - 1])
  }

  /** Over every run without a dangling large page: a tree, one owner for each block, no block taken from
      others, and exactly the lost blocks without an owner. */
  lemma {:induction false} RunLoses(states: seq<State>, ops: seq<Op>)
    requires Run(states, ops) && Fit(states[0]) && forall i :: 0 <= i < |ops| ==> !Dangles(ops[i])
    ensures Fit(states[|ops|]) && SameFixed(states[0].space, states[|ops|].space)
    ensures Others(states[|ops|]) == Others(states[0]) + AllLost(states, ops)
    ensures OthersStay(states[0], states[|ops|]) && FramesLost(states[0], states[|ops|], AllLost(states, ops))
  {
    hide Step;
    hide Fit;
    hide Others;
    hide Lost;
    hide FramesLost;
    hide OthersStay;
    OthersSelf(states[0]);
    NothingLost(states[0]);
    var n := |ops|;
    if n > 0 {
      RunPrefix(states, ops);
      RunLoses(states[..n], ops[..n - 1]);
      StepLoses(states[n - 1], ops[n - 1], states[n]);
      OthersTwice(states[0], states[n - 1], states[n]);
      LostTwice(states[0], states[n - 1], states[n], AllLost(states[..n], ops[..n - 1]), Lost(states[n - 1], ops[n - 1]));
    }
  }

  /** A successful call that maps only present pages, above the identity mapping, not GLOBAL, and over no
      block of the space. */
  ghost predicate CarefulStep(x: State, op: Op, y: State) {
    && Step(x, op, y)
    && (|| op.UnmapOp?
        || (op.MapOp? && op.flags & PRESENT != 0 && op.flags & GLOBAL == 0 && x.space.low <= op.v
            && Overwritten(x.space, op.v, |op.frames|) == {}))
  }

  /** Careful calls lose nothing. */
  lemma CarefulLoses(x: State, op: Op, y: State)
    requires CarefulStep(x, op, y)
    ensures Lost(x, op) == {} && !Dangles(op)
  {
    if op.MapOp? { AllAnswered(x.space.low, op.v, op.frames, op.flags); }
  }

  ghost predicate CarefulRun(states: seq<State>, ops: seq<Op>) {
    |states| == |ops| + 1 && forall i :: 0 <= i < |ops| ==> CarefulStep(states[i], ops[i], states[i + 1])
  }

  lemma CarefulPrefix(states: seq<State>, ops: seq<Op>)
    requires CarefulRun(states, ops) && |ops| > 0
    ensures CarefulRun(states[..|ops|], ops[..|ops| - 1])
    ensures CarefulStep(states[|ops| - 1], ops[|ops| - 1], states[|ops|])
  {
    hide CarefulStep;
    var s, o, n := states[..|ops|], ops[..|ops| - 1], |ops|;
    forall i | 0 <= i < |o|
      ensures CarefulStep(s[i], o[i], s[i + 1])
    {
      assert CarefulStep(states[i], ops[i], states[i + 1]);
    }
  }

  lemma StepKeeps(x: State, op: Op, y: State)
    requires Fit(x) && CarefulStep(x, op, y)
    ensures Fit(y) && SameFixed(x.space, y.space) && Others(y) == Others(x)
    ensures Tidy(x.space, y.space, x.space.Top())
    ensures OthersStay(x, y)
  {
    CarefulLoses(x, op, y);
    StepLoses(x, op, y);
    hide Fit;
    hide Others;
    match op
    case MapOp(v, frames, flags) =>
      forall t | t in y.space.at && Hollow(y.space, t)
        ensures t in x.space.at && Hollow(x.space, t)
      {
        RangeTidy(x, y, v, frames, flags, t);
      }
    case UnmapOp(a, b) =>
  }

  /** Over every careful run: each block has one owner and is live, blocks of others are untouched, the
      tables are a tree, and no sub-table is empty that was not there and empty at the start. */
  lemma {:induction false} RunConserves(states: seq<State>, ops: seq<Op>)
    requires CarefulRun(states, ops) && Fit(states[0])
    ensures Fit(states[|ops|]) && SameFixed(states[0].space, states[|ops|].space)
    ensures Others(states[|ops|]) == Others(states[0])
    ensures OthersStay(states[0], states[|ops|])
    ensures Tidy(states[0].space, states[|ops|].space, states[0].space.Top())
  {
    var n := |ops|;
    if n > 0 {
      CarefulPrefix(states, ops);
      RunConserves(states[..n], ops[..n - 1]);
      StepKeeps(states[n - 1], ops[n - 1], states[n]);
      OthersTwice(states[0], states[n - 1], states[n]);
    }
  }
}
