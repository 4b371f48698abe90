/** Who may access what `map_alloc` and the boot code map, as the processor decides it. */
module Rights {
  import opened Common
  import opened PageTableEntry
  import opened PageTables
  import opened Unmapping
  import opened MapRange
  import opened Processor
  import Bootstrap

  /** What the processor reaches at page p. */
  ghost function At(s: Space, p: nat): Option<Access> { Reach(s.mem, s.root, s.top, p) }

  /** A page that was mapped PRESENT is reached in its own frame, writable, uncached and global as asked for. It
      is open to users only if there is no table above its own, whatever its USER flag says. */
  lemma MappedRights(x: State, y: State, v: nat, frames: seq<Frame>, flags: bv7, i: nat)
    requires RangeMapped(x, y, v, frames, flags) && i < |frames| && v + i < y.space.Limit()
    ensures At(y.space, v + i)
         == if FlagBit(flags, 0) then
              Some(Access(frames[i], 0, FlagBit(flags, 2), FlagBit(flags, 4) && y.space.top == 0, FlagBit(flags, 5),
                          FlagBit(flags, 6)))
            else None
  {
    hide RangeMapped;
    hide Space.Struct;
    hide FlagBit;
    hide Reach;
    RangeTree(x, y, v, frames, flags, i);
    ReachIsTrans(y.space, v + i);
    FlagsByBit(flags);
  }

  lemma RangeTree(x: State, y: State, v: nat, frames: seq<Frame>, flags: bv7, i: nat)
    requires RangeMapped(x, y, v, frames, flags) && i < |frames|
    ensures y.space.Struct() && y.space.Trans(v + i) == PageOf(frames[i], flags)
  {
  }

  lemma FlagsByBit(flags: bv7)
    ensures FlagBit(flags, 0) <==> flags & PRESENT != 0
    ensures FlagBit(flags, 2) == FlagBit(flags & ENCODABLE, 2) && FlagBit(flags, 4) == FlagBit(flags & ENCODABLE, 4)
    ensures FlagBit(flags, 5) == FlagBit(flags & ENCODABLE, 5) && FlagBit(flags, 6) == FlagBit(flags & ENCODABLE, 6)
  {
  }

  /** Every other page is reached as before. */
  lemma OthersReached(x: State, y: State, v: nat, frames: seq<Frame>, flags: bv7, p: nat)
    requires x.space.Struct() && RangeMapped(x, y, v, frames, flags) && p < x.space.Limit()
    requires !(v <= p < v + |frames|)
    ensures At(y.space, p) == At(x.space, p)
  {
    hide Reach;
    assert y.space.Trans(p) == x.space.Trans(p);
    ReachIsTrans(x.space, p);
    ReachIsTrans(y.space, p);
  }

  /** A user reaches a page exactly through a USER entry of the first table: with two levels, only in a large
      page. */
  lemma UserReaches(s: Space, p: nat)
    requires s.Struct() && p < s.Limit()
    ensures At(s, p).Some? && At(s, p).value.user <==>
      s.Trans(p).Some? && s.Trans(p).value.depth == s.top && FlagBit(s.Trans(p).value.flags, 4)
  {
    ReachIsTrans(s, p);
  }

  /** What boot maps: nothing is open to users, the kernel's code cannot be written, its data can, and only
      the kernel is global. */
  lemma BootRights(l: Bootstrap.Layout, ext: seq<Extent>, rest: Memory, p: nat)
    requires l.Linked() && l.ReservedEnd() <= Bootstrap.KERNEL_OFFSET + 2 * Bootstrap.LARGE
    requires p < Bootstrap.BootSpace(l, ext, rest).Limit()
    ensures var a, v := At(Bootstrap.BootSpace(l, ext, rest), p), PAGE * p;
            && (a.Some? <==> v < 2 * Bootstrap.LARGE || l.kernelStart <= v < l.kernelEnd)
            && (a.Some? ==>
                 && !a.value.user && !a.value.uncached
                 && (a.value.global <==> l.kernelStart <= v < l.kernelEnd)
                 && (a.value.writable <==>
                      v < Bootstrap.LOW_MEGABYTE || Bootstrap.LARGE <= v < 2 * Bootstrap.LARGE
                      || l.dataStart <= v < l.kernelEnd))
  {
    var s := Bootstrap.BootSpace(l, ext, rest);
    Bootstrap.BootStruct(l, ext, rest);
    Bootstrap.BootWalk(l, ext, rest, p);
    Bootstrap.BootReaches(l, ext, rest, p);
    hide Bootstrap.BootSpace;
    ReachIsTrans(s, p);
  }
}
