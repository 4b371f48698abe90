/** An address space that serves a list of requests. The calls it makes are a run, so the tables, and
    whatever the processor has cached, follow the flat map. */
module Sessions {
  import opened Common
  import opened PageTableEntry
  import opened Geometry
  import opened PageTables
  import opened Ownership
  import opened Unmapping
  import opened Consistency
  import opened UnmapSteps
  import opened MapRange
  import opened Runs
  import opened Overwriting
  import opened Refusal
  import AddressSpaces
  import ZonedBuddy
  import ZoneTotals

  datatype Request = MapRequest(vaddr: nat, size: nat, flags: bv7) | UnmapRequest(vaddr: nat, size: nat)

  datatype Answer = Mapped(result: AllocResult) | Unmapped(outcome: MappingResult)

  /** What the calls demand of their arguments: aligned pages to map, and no overflow of addresses. */
  predicate Proper(req: Request, top: nat) {
    match req
    case MapRequest(vaddr, size, _) => vaddr % PAGE == 0 && vaddr + size <= Start(1, top + 1)
    case UnmapRequest(vaddr, size) => vaddr + size + RegionSize(top) - 1 < Start(1, top + 1)
  }

  /** Unmapping frees nothing that the space does not answer for. */
  ghost predicate MayUnmap(req: Request, s: Space) {
    req.UnmapRequest? ==> Removable(s, req.vaddr, EffectiveEnd(req.vaddr, req.size, s.top))
  }

  /** A page mapped by the first request and unmapped by the second is one that the space answers for. */
  ghost predicate Compatible(req: Request, later: Request, s: Space) {
    req.MapRequest? && later.UnmapRequest? ==>
      AnsweredIn(s.low, req.vaddr / PAGE, req.size / PAGE, req.flags, later.vaddr,
                 EffectiveEnd(later.vaddr, later.size, s.top))
  }

  /** Told from the requests and the first state alone: the calls may be made. */
  ghost predicate Serviceable(requests: seq<Request>, s: Space) {
    && (forall i :: 0 <= i < |requests| ==> Proper(requests[i], s.top) && MayUnmap(requests[i], s))
    && (forall i, j :: 0 <= i < j < |requests| ==> Compatible(requests[i], requests[j], s))
  }

  /** The call recorded for a request, and the answer that was given. */
  predicate Matches(req: Request, answer: Answer, op: Op, top: nat) {
    match req
    case MapRequest(vaddr, size, flags) =>
      && answer.Mapped?
      && (answer.result.MappedAt? ==>
            op.MapOp? && op.v == vaddr / PAGE && op.flags == flags && |op.frames| == size / PAGE)
      && (answer.result.Panicked? ==>
            op.MapOp? && op.v == vaddr / PAGE && op.flags == flags && |op.frames| < size / PAGE)
      && (answer.result.Failed? ==>
            op.MapStop? && op.v == vaddr / PAGE && op.flags == flags && |op.frames| < size / PAGE
            && op.e == answer.result.error)
    case UnmapRequest(vaddr, size) =>
      && answer.Unmapped?
      && (answer.outcome.Ok? ==> op == UnmapOp(vaddr, EffectiveEnd(vaddr, size, top)))
      && (answer.outcome.Err? ==>
            op.UnmapStop? && op.a == vaddr && op.b == EffectiveEnd(vaddr, size, top) && op.e == answer.outcome.error)
  }

  /** Answers after which nothing more is served: a panic, or a large page that was freed and still maps. */
  predicate Final(answer: Answer) {
    answer == Mapped(Panicked) || (answer.Unmapped? && answer.outcome.Err? && answer.outcome.error.MappingOver?)
  }

  /** Answers given when the allocator had no frame. */
  predicate OutOfFrames(answer: Answer) {
    answer == Mapped(Panicked) || answer == Mapped(Failed(PageAllocationFailed))
  }

  /** If buddies grant whatever they have, every byte is in use. */
  ghost predicate UsedUp(lib: ZonedBuddy.Library, zones: seq<ZonedBuddy.Zone>) {
    ZoneTotals.Willing(lib) ==> ZonedBuddy.CounterSum(zones) == ZonedBuddy.TotalOf(zones)
  }

  lemma RefusedMeans(lib: ZonedBuddy.Library, zones: seq<ZonedBuddy.Zone>, call: nat)
    requires ZonedBuddy.ZonesValid(zones) && ZonedBuddy.NoneGrants(lib, zones, call, 1)
    ensures UsedUp(lib, zones)
  {
    if ZoneTotals.Willing(lib) { ZoneTotals.RefusedIsFull(lib, zones, call); }
  }

  /** Whether a request to map is granted is told by the tables it meets. */
  ghost predicate AsRefused(req: Request, answer: Answer, s: Space) {
    req.MapRequest? ==>
      (answer == Mapped(MappedAt(req.vaddr)) <==>
        forall q :: req.vaddr / PAGE <= q < req.vaddr / PAGE + req.size / PAGE ==> !Refused(s, q))
  }

  ghost predicate AllAsRefused(requests: seq<Request>, answers: seq<Answer>, states: seq<State>)
    requires |answers| <= |requests| && |answers| <= |states|
  {
    forall i :: 0 <= i < |answers| ==> AsRefused(requests[i], answers[i], states[i].space)
  }

  method Map(space: AddressSpaces.AddressSpace, req: Request) returns (answer: Answer, ghost op: Op)
    requires space.Sound() && req.MapRequest? && Proper(req, space.top)
    modifies space, space.window, space.alloc
    ensures space.Sound()
    ensures Matches(req, answer, op, space.top) && Step(old(space.Snap()), op, space.Snap())
    ensures old(space.alloc.asked) <= space.alloc.asked && old(space.alloc.refusals) <= space.alloc.refusals
    ensures OutOfFrames(answer) ==>
      space.alloc.Starved(old(space.alloc.asked), 1) && UsedUp(space.alloc.lib, space.alloc.zones)
    ensures space.alloc.refusals == old(space.alloc.refusals) ==> AsRefused(req, answer, old(space.S()))
  {
    hide ZonedBuddy.NoneGrants;
    hide UsedUp;
    hide Start;
    hide RangeMapped;
    hide FailedAt;
    hide Good;
    var r;
    ghost var frames, mid, g, leak;
    r, frames, mid, g, leak := space.MapAlloc(req.vaddr, req.size, req.flags);
    answer := Mapped(r);
    var v := req.vaddr / PAGE;
    if OutOfFrames(answer) { RefusedMeans(space.alloc.lib, space.alloc.zones, space.alloc.asked - 1); }
    op := if r.Failed? then MapStop(mid, v, frames, g, req.flags, r.error, leak) else MapOp(v, frames, req.flags);
  }

  method Unmap(space: AddressSpaces.AddressSpace, req: Request) returns (answer: Answer, ghost op: Op)
    requires space.Sound() && req.UnmapRequest? && Proper(req, space.top) && MayUnmap(req, space.S())
    modifies space, space.window, space.alloc
    ensures space.Ready() && Coherent(space.S(), space.tlb) && (!Final(answer) ==> space.Sound())
    ensures Matches(req, answer, op, space.top) && Step(old(space.Snap()), op, space.Snap())
    ensures answer.Unmapped? && space.alloc.Book() == old(space.alloc.Book())
  {
    hide Start;
    hide EffectiveEnd;
    hide Good;
    hide Coherent;
    hide Outcome;
    hide Step;
    ghost var x := space.Snap();
    var r;
    ghost var stop, b := Nowhere, EffectiveEnd(req.vaddr, req.size, space.top);
    r, stop := space.Unmap(req.vaddr, req.size);
    answer := Answer.Unmapped(r);
    op := UnmapCall(x, space.Snap(), req.vaddr, b, r, stop, space.tlb);
  }

  lemma UnmapAsRefused(req: Request, answer: Answer, s: Space)
    requires req.UnmapRequest?
    ensures AsRefused(req, answer, s)
  {
  }

  lemma UnmapCall(x: State, y: State, a: nat, b: nat, r: MappingResult, stop: Stop, tlb: Tlb) returns (op: Op)
    requires Outcome(x, y, a, b, x.space.Top(), r, stop) && Coherent(y.space, tlb)
    ensures Step(x, op, y)
    ensures r.Ok? ==> op == UnmapOp(a, b)
    ensures r.Err? ==> op.UnmapStop? && op.a == a && op.b == b && op.e == r.error
    ensures r.Ok? || !r.error.MappingOver? ==> Good(y.space, y.live, tlb)
  {
    if r.Ok? {
      DoneGood(x, y, a, b, x.space.Top(), tlb);
      return UnmapOp(a, b);
    }
    return UnmapStop(a, b, stop.cut, stop.depth, stop.word, r.error);
  }

  lemma RunExtend(states: seq<State>, ops: seq<Op>, op: Op, z: State)
    requires Run(states, ops) && Step(states[|ops|], op, z)
    ensures Run(states + [z], ops + [op])
  {
    hide Step;
    var s, o := states + [z], ops + [op];
    forall i | 0 <= i < |o|
      ensures Step(s[i], o[i], s[i + 1])
    {
      if i < |ops| { assert Step(states[i], ops[i], states[i + 1]); }
    }
  }

  /** Requests and answers go with the calls of a run. */
  predicate AllMatch(requests: seq<Request>, answers: seq<Answer>, ops: seq<Op>, top: nat) {
    && |ops| == |answers| <= |requests|
    && forall i :: 0 <= i < |answers| ==> Matches(requests[i], answers[i], ops[i], top)
  }

  /** Serves one request. */
  method ServeOne(space: AddressSpaces.AddressSpace, req: Request) returns (answer: Answer, ghost op: Op)
    requires space.Sound() && Proper(req, space.top) && MayUnmap(req, space.S())
    modifies space, space.window, space.alloc
    ensures space.Ready() && Coherent(space.S(), space.tlb) && (!Final(answer) ==> space.Sound())
    ensures Matches(req, answer, op, space.top) && Step(old(space.Snap()), op, space.Snap())
    ensures old(space.alloc.asked) <= space.alloc.asked && old(space.alloc.refusals) <= space.alloc.refusals
    ensures OutOfFrames(answer) ==>
      space.alloc.Starved(old(space.alloc.asked), 1) && UsedUp(space.alloc.lib, space.alloc.zones)
    ensures space.alloc.refusals == old(space.alloc.refusals) ==> AsRefused(req, answer, old(space.S()))
  {
    hide Good;
    hide Own;
    hide Space.Struct;
    hide Step;
    hide Matches;
    hide Proper;
    hide MayUnmap;
    hide AsRefused;
    hide UsedUp;
    hide ZonedBuddy.NoneGrants;
    hide AddressSpaces.AddressSpace.Ready;
    if req.MapRequest? {
      answer, op := Map(space, req);
      GoodParts(space.S(), space.alloc.live, space.tlb);
    } else {
      answer, op := Unmap(space, req);
      UnmapAsRefused(req, answer, old(space.S()));
    }
  }

  /** Serves the requests in order, until one leaves nothing to go on with. It panics only with no frame left,
      and if the allocator never refuses, requests to map are granted exactly as the tables allow. */
  method Serve(space: AddressSpaces.AddressSpace, requests: seq<Request>)
    returns (answers: seq<Answer>, ghost states: seq<State>, ghost ops: seq<Op>)
    requires space.Sound() && Serviceable(requests, space.S())
    modifies space, space.window, space.alloc
    ensures space.Ready() && AllMatch(requests, answers, ops, space.top)
    ensures |answers| < |requests| ==> answers != [] && Final(answers[|answers| - 1])
    ensures answers != [] && answers[|answers| - 1] == Mapped(Panicked) ==>
      space.alloc.Starved(old(space.alloc.asked), 1) && UsedUp(space.alloc.lib, space.alloc.zones)
    ensures |states| == |ops| + 1 && Run(states, ops) && states[0] == old(space.Snap()) && states[|ops|] == space.Snap()
    ensures space.alloc.refusals == old(space.alloc.refusals) ==> AllAsRefused(requests, answers, states)
    ensures forall p: nat :: space.S().Trans(p) == Flat(ops, p, old(space.S()).Trans(p))
    ensures forall p :: p in space.tlb ==> Flat(ops, p, old(space.S()).Trans(p)) == Some(space.tlb[p])
  {
    hide Good;
    hide Own;
    hide Space.Struct;
    hide Run;
    hide Step;
    hide Matches;
    hide Proper;
    hide MayUnmap;
    hide Compatible;
    hide Space.Trans;
    hide AddressSpaces.AddressSpace.Ready;
    hide AsRefused;
    hide UsedUp;
    hide ZonedBuddy.NoneGrants;
    ghost var x := space.Snap();
    answers, states, ops := [], [x], [];
    OneState(x);
    GoodParts(x.space, x.live, space.tlb);
    var going := true;
    while going && |answers| < |requests|
      invariant space.Ready() && Coherent(space.S(), space.tlb) && (going ==> space.Sound())
      invariant AllMatch(requests, answers, ops, space.top)
      invariant !going ==> answers != [] && Final(answers[|answers| - 1])
      invariant SameFixed(x.space, space.S())
      invariant old(space.alloc.asked) <= space.alloc.asked && old(space.alloc.refusals) <= space.alloc.refusals
      invariant answers != [] && answers[|answers| - 1] == Mapped(Panicked) ==>
        space.alloc.Starved(old(space.alloc.asked), 1) && UsedUp(space.alloc.lib, space.alloc.zones)
      invariant going ==> forall i :: |answers| <= i < |requests| ==> MayUnmap(requests[i], space.S())
      invariant |states| == |ops| + 1 && Run(states, ops) && states[0] == x && states[|ops|] == space.Snap()
      invariant space.alloc.refusals == old(space.alloc.refusals) ==> AllAsRefused(requests, answers, states)
      decreases |requests| - |answers|
    {
      ghost var y := space.Snap();
      assert Proper(requests[|answers|], space.top) && MayUnmap(requests[|answers|], space.S());
      var answer;
      ghost var op;
      answer, op := ServeOne(space, requests[|answers|]);
      RunExtend(states, ops, op, space.Snap());
      StepFixed(y, op, space.Snap());
      if !Final(answer) { AllKept(requests, |answers|, answer, y, op, space.Snap(), x.space); }
      answers, states, ops := answers + [answer], states + [space.Snap()], ops + [op];
      going := !Final(answer);
    }
    forall p: nat
      ensures space.S().Trans(p) == Flat(ops, p, x.space.Trans(p))
    {
      RunRefinesFlatMap(states, ops, p);
    }
  }

  /** What may be unmapped later may still be unmapped after a call. */
  lemma KeepsMayUnmap(x: State, req: Request, answer: Answer, op: Op, y: State, later: Request)
    requires Step(x, op, y) && Matches(req, answer, op, x.space.top)
    requires MayUnmap(later, x.space) && Compatible(req, later, x.space)
    ensures MayUnmap(later, y.space)
  {
    hide RangeMapped;
    hide FailedAt;
    hide Removable;
    hide Unmapping.Unmapped;
    StepFixed(x, op, y);
    if later.UnmapRequest? {
      var a, b := later.vaddr, EffectiveEnd(later.vaddr, later.size, x.space.top);
      match op
      case MapOp(v, frames, flags) => MapKeepsRemovable(x, y, v, frames, flags, a, b);
      case MapStop(mid, v, frames, g, flags, e, leak) =>
        FailKeepsRemovable(x, mid, y, v, frames, g, flags, e, leak, a, b);
      case UnmapOp(c, d) => RemovableCleared(x.space, y.space, c, d, x.space.Top(), a, b);
      case UnmapStop(c, d, cut, _, _, _) => RemovableCleared(x.space, y.space, c, cut, x.space.Top(), a, b);
    }
  }

  lemma AllKept(requests: seq<Request>, n: nat, answer: Answer, x: State, op: Op, y: State, s: Space)
    requires n < |requests| && Serviceable(requests, s) && SameFixed(s, x.space)
    requires Step(x, op, y) && Matches(requests[n], answer, op, x.space.top)
    requires forall i :: n <= i < |requests| ==> MayUnmap(requests[i], x.space)
    ensures forall i :: n + 1 <= i < |requests| ==> MayUnmap(requests[i], y.space)
  {
    hide Step;
    hide Matches;
    hide MayUnmap;
    forall i | n + 1 <= i < |requests|
      ensures MayUnmap(requests[i], y.space)
    {
      assert Compatible(requests[n], requests[i], s);
      KeepsMayUnmap(x, requests[n], answer, op, y, requests[i]);
    }
  }

  lemma OneState(x: State)
    ensures Run([x], [])
  {
  }

  // Requests that map only present pages, and over nothing.

  /** Whether page q is mapped after the requests were served, if it was before. */
  predicate Occupied(requests: seq<Request>, q: nat, was: bool, top: nat) {
    if |requests| == 0 then was
    else
      var before := Occupied(requests[..|requests| - 1], q, was, top);
      match requests[|requests| - 1]
      case MapRequest(vaddr, size, _) => before || vaddr / PAGE <= q < vaddr / PAGE + size / PAGE
      case UnmapRequest(vaddr, size) => before && !Contained(q, vaddr, EffectiveEnd(vaddr, size, top))
  }

  ghost predicate AllPresent(requests: seq<Request>) {
    forall i :: 0 <= i < |requests| && requests[i].MapRequest? ==> requests[i].flags & PRESENT != 0
  }

  ghost predicate AllAnswerable(requests: seq<Request>, low: nat) {
    forall i :: 0 <= i < |requests| && requests[i].MapRequest? ==>
      PAGE * low <= requests[i].vaddr && requests[i].flags & GLOBAL == 0
  }

  predicate InRange(req: Request, q: nat) {
    req.MapRequest? && req.vaddr / PAGE <= q < req.vaddr / PAGE + req.size / PAGE
  }

  /** Told from the requests and the first state alone: only present pages are mapped, none GLOBAL, none
      over another and none in the identity mapping. */
  ghost predicate Disciplined(requests: seq<Request>, s: Space) {
    && AllPresent(requests) && AllAnswerable(requests, s.low)
    && forall i, q {:trigger InRange(requests[i], q)} :: 0 <= i < |requests| && InRange(requests[i], q) ==>
         !Occupied(requests[..i], q, s.Trans(q).Some?, s.top)
  }

  predicate Success(answer: Answer) {
    match answer
    case Mapped(result) => result.MappedAt?
    case Unmapped(outcome) => outcome == Ok
  }

  /** The calls recorded for requests that all succeeded. */
  ghost predicate Served(requests: seq<Request>, answers: seq<Answer>, ops: seq<Op>, top: nat) {
    && AllMatch(requests, answers, ops, top) && |answers| == |requests|
    && forall i :: 0 <= i < |answers| ==> Success(answers[i])
  }

  lemma ServedPrefix(requests: seq<Request>, answers: seq<Answer>, ops: seq<Op>, top: nat, n: nat)
    requires Served(requests, answers, ops, top) && n <= |ops|
    ensures Served(requests[..n], answers[..n], ops[..n], top)
  {
    hide Matches;
  }

  lemma RunFirst(states: seq<State>, ops: seq<Op>, n: nat)
    requires Run(states, ops) && n <= |ops|
    ensures Run(states[..n + 1], ops[..n])
  {
    hide Step;
    forall i | 0 <= i < n
      ensures Step(states[..n + 1][i], ops[..n][i], states[..n + 1][i + 1])
    {
      assert Step(states[i], ops[i], states[i + 1]);
    }
  }

  /** What the requests say is mapped is what the tables map. */
  lemma {:induction false} OccupiedIsMapped(states: seq<State>, ops: seq<Op>, requests: seq<Request>,
                                            answers: seq<Answer>, top: nat, q: nat)
    requires Run(states, ops) && Served(requests, answers, ops, top) && AllPresent(requests)
    ensures states[|ops|].space.Trans(q).Some? == Occupied(requests, q, states[0].space.Trans(q).Some?, top)
    decreases |ops|
  {
    hide Step;
    var n := |ops| - 1;
    if n >= 0 {
      RunPrefix(states, ops);
      ServedPrefix(requests, answers, ops, top, n);
      OccupiedIsMapped(states[..n + 1], ops[..n], requests[..n], answers[..n], top, q);
      StepFlat(states[n], ops[n], states[n + 1], q);
      assert Matches(requests[n], answers[n], ops[n], top) && Success(answers[n]);
    }
  }

  lemma {:induction false} FixedTree(states: seq<State>, ops: seq<Op>, i: nat)
    requires Run(states, ops) && i <= |ops| && states[0].space.Struct()
    ensures SameFixed(states[0].space, states[i].space) && states[i].space.Struct()
  {
    hide Step;
    if i > 0 {
      FixedTree(states, ops, i - 1);
      StepFixed(states[i - 1], ops[i - 1], states[i]);
    }
  }

  lemma StepFixed(x: State, op: Op, y: State)
    requires Step(x, op, y)
    ensures SameFixed(x.space, y.space) && y.space.Struct()
  {
  }

  /** Disciplined requests that all succeed make a careful run, so everything that holds of careful runs
      holds of them. */
  lemma DisciplinedIsCareful(states: seq<State>, ops: seq<Op>, requests: seq<Request>, answers: seq<Answer>)
    requires Run(states, ops) && Served(requests, answers, ops, states[0].space.top)
    requires states[0].space.Struct() && Disciplined(requests, states[0].space)
    ensures CarefulRun(states, ops)
  {
    hide Step;
    var s := states[0].space;
    forall i | 0 <= i < |ops|
      ensures CarefulStep(states[i], ops[i], states[i + 1])
    {
      assert Step(states[i], ops[i], states[i + 1]);
      assert Matches(requests[i], answers[i], ops[i], s.top) && Success(answers[i]);
      FixedTree(states, ops, i);
      if requests[i].MapRequest? {
        RunFirst(states, ops, i);
        ServedPrefix(requests, answers, ops, s.top, i);
        forall q | ops[i].v <= q < ops[i].v + |ops[i].frames|
          ensures states[i].space.Trans(q).None?
        {
          assert InRange(requests[i], q);
          OccupiedIsMapped(states[..i + 1], ops[..i], requests[..i], answers[..i], s.top, q);
        }
        VacatedOwnsNothing(states[i].space, ops[i].v, |ops[i].frames|);
      }
    }
  }
}
