/**
  The address space of one task: `get_last_free_addr`, `sys_mmap` and `sys_munmap`
  (kernel/src/syscall/mm.rs, kernel/src/tasks/task.rs) as steps over the area list.
*/
module AddressSpaces {
  import opened Wrappers
  import opened Bytes
  import opened MemAreas
  import opened TrackedMemory

  const MAP_AREA_START: nat := 0x2_0000_0000

  /** `Panicked` stands for the kernel panic of an assertion that fails. */
  datatype Errno = EINVAL | EFAULT | EIO | Panicked

  /** A System V shared-memory segment attached to the task. */
  datatype Attached = Attached(start: nat, size: nat)

  datatype Space = Space(areas: seq<MemArea>, pt: map<nat, Pte>, shms: seq<Attached>)

  datatype Request = Request(start: nat, len: nat, fixed: bool, shared: bool, file: Option<nat>, off: nat, prot: Prot)
  {
    /** Every kind of mapping but the anonymous private one takes its frames at once. */
    predicate Eager() {
      shared || file.Some?
    }

    function MemKind(): MemType {
      if !shared then Mmap else if file.Some? then ShareFile else Shared
    }
  }

  /** The answers of the frame allocator and of the file being mapped. */
  datatype Answers = Answers(frames: Option<seq<Frame>>, readOk: bool)

  /** `alignup(a, PAGE_SIZE)`. */
  function PageUp(a: nat): (r: nat)
    ensures a <= r < a + PAGE_SIZE && r % PAGE_SIZE == 0
  {
    (a + PAGE_SIZE - 1) / PAGE_SIZE * PAGE_SIZE
  }

  function Max(a: nat, b: nat): nat {
    if a >= b then a else b
  }

  function AreasEnd(areas: seq<MemArea>): nat {
    if areas == [] then 0
    else
      var acc := AreasEnd(areas[..|areas| - 1]);
      var a := areas[|areas| - 1];
      if a.mtype == Stack then acc else Max(acc, a.start + a.len)
  }

  function ShmsEnd(shms: seq<Attached>): nat {
    if shms == [] then 0
    else
      var v := shms[|shms| - 1];
      Max(v.start + v.size, ShmsEnd(shms[..|shms| - 1]))
  }

  function LastFreeAddr(s: Space): nat {
    Max(AreasEnd(s.areas), ShmsEnd(s.shms))
  }

  function MmapAddr(s: Space, q: Request): nat {
    if q.start == 0 then Max(LastFreeAddr(s), MAP_AREA_START) else q.start
  }

  predicate AnyOverlapping(areas: seq<MemArea>, lo: nat, hi: nat) {
    exists a :: a in areas && a.Overlapping(lo, hi)
  }

  function Carve(s: Space, lo: nat, hi: nat): Space
    requires lo <= hi
  {
    s.(areas := SubArea(s.areas, lo, hi), pt := s.pt - SubUnmapped(s.areas, lo, hi))
  }

  /** The range `[MmapAddr, MmapAddr + PageUp(len))` is cleared first when MAP_FIXED asks for it. */
  function Prepare(s: Space, q: Request, lo: nat, hi: nat): Space
    requires lo <= hi
  {
    if q.fixed && AnyOverlapping(s.areas, lo, hi) then Carve(s, lo, hi) else s
  }

  /** The area pushed by `map_frames`, or by `sys_mmap` itself for an anonymous private mapping. */
  function NewArea(q: Request, addr: nat, len: nat, frames: seq<Frame>): MemArea {
    if q.shared then
      MemArea(q.MemKind(), TracksFrom(addr, frames), q.file, if q.file.Some? then q.off else 0, addr, len)
    else if q.file.Some? then
      MemArea(Mmap, TracksFrom(addr, frames), None, 0, addr, len)
    else
      MemArea(Mmap, [], None, 0, addr, len)
  }

  function Place(s: Space, q: Request, addr: nat, len: nat, frames: seq<Frame>): Space {
    var a := NewArea(q, addr, len, frames);
    var flags := if q.shared then q.prot else Prot(true, true, true);
    s.(areas := s.areas + [a], pt := MapTracks(s.pt, a.mtrackers, flags))
  }

  /** The allocator hands out one frame per page. */
  predicate MmapDemands(q: Request, env: Answers) {
    env.frames.Some? ==> |env.frames.value| * PAGE_SIZE == PageUp(q.len)
  }

  /**
    The rest of `sys_mmap` once the range is clear.  `map` asserts that the address it maps is
    page-aligned, before the area is pushed.
  */
  function Finish(s: Space, q: Request, env: Answers, addr: nat, len: nat): (Space, Result<nat, Errno>) {
    if q.Eager() && env.frames.None? then
      (s, Err(EFAULT))
    else if q.Eager() && addr % PAGE_SIZE != 0 then
      (s, Err(Panicked))
    else
      var s2 := Place(s, q, addr, len, if q.Eager() then env.frames.value else []);
      if q.file.Some? && !env.readOk then
        (Carve(s2, addr, addr + len), Err(EIO))
      else
        (s2, Ok(addr))
  }

  /** `sys_mmap` once address and length are settled. */
  function MapRange(s: Space, q: Request, env: Answers, addr: nat, len: nat): (Space, Result<nat, Errno>) {
    if len == 0 then
      (s, Ok(addr))
    else if !q.fixed && AnyOverlapping(s.areas, addr, addr + len) then
      (s, Err(EINVAL))
    else
      Finish(Prepare(s, q, addr, addr + len), q, env, addr, len)
  }

  function SysMmap(s: Space, q: Request, env: Answers): (Space, Result<nat, Errno>) {
    MapRange(s, q, env, MmapAddr(s, q), PageUp(q.len))
  }

  function SysMunmap(s: Space, start: nat, len: nat): Space {
    Carve(s, start, start + len)
  }

  /* ---------- Where a fresh mapping goes ---------- */

  /** The stack area sits below the mmap region, as every stack in the kernel does. */
  ghost predicate StackLow(areas: seq<MemArea>) {
    forall a :: a in areas && a.mtype == Stack ==> a.start + a.len <= MAP_AREA_START
  }

  ghost predicate Inv(s: Space) {
    Disjoint(s.areas) && NonEmpty(s.areas) && StackLow(s.areas)
  }

  lemma {:induction false} AreasEndBound(areas: seq<MemArea>, a: MemArea)
    requires a in areas && a.mtype != Stack
    ensures a.start + a.len <= AreasEnd(areas)
  {
    var n := |areas| - 1;
    if a != areas[n] {
      assert a in areas[..n];
      AreasEndBound(areas[..n], a);
    } else if areas[n].mtype == Stack {
      assert false;
    }
  }

  lemma {:induction false} ShmsEndBound(shms: seq<Attached>, v: Attached)
    requires v in shms
    ensures v.start + v.size <= ShmsEnd(shms)
  {
    var n := |shms| - 1;
    if v != shms[n] {
      assert v in shms[..n];
      ShmsEndBound(shms[..n], v);
    }
  }

  /** With no address hint the chosen range meets no area and no attached segment. */
  lemma {:induction false} FreshAddrIsFree(s: Space, q: Request)
    requires StackLow(s.areas)
    requires q.start == 0
    ensures var lo := MmapAddr(s, q); var hi := lo + PageUp(q.len);
      && !AnyOverlapping(s.areas, lo, hi)
      && (forall v :: v in s.shms ==> v.start + v.size <= lo)
  {
    forall a | a in s.areas ensures a.start + a.len <= MmapAddr(s, q) {
      if a.mtype != Stack {
        AreasEndBound(s.areas, a);
      }
    }
    forall v | v in s.shms ensures v.start + v.size <= MmapAddr(s, q) {
      ShmsEndBound(s.shms, v);
    }
  }

  /** And it starts no higher than it must: at the mmap region, or where an area or a segment ends. */
  lemma {:induction false} FreshAddrIsLeast(s: Space, q: Request)
    ensures var lo := MmapAddr(s, q);
      if q.start != 0 then lo == q.start
      else
        || lo == MAP_AREA_START
        || (exists a :: a in s.areas && a.mtype != Stack && a.start + a.len == lo)
        || exists v :: v in s.shms && v.start + v.size == lo
  {
    AreasEndReached(s.areas);
    ShmsEndReached(s.shms);
  }

  lemma {:induction false} AreasEndReached(areas: seq<MemArea>)
    ensures AreasEnd(areas) == 0
      || exists a :: a in areas && a.mtype != Stack && a.start + a.len == AreasEnd(areas)
  {
    if areas != [] {
      var n := |areas| - 1;
      assert areas[n] in areas && forall a :: a in areas[..n] ==> a in areas;
      AreasEndReached(areas[..n]);
    }
  }

  lemma {:induction false} ShmsEndReached(shms: seq<Attached>)
    ensures ShmsEnd(shms) == 0 || exists v :: v in shms && v.start + v.size == ShmsEnd(shms)
  {
    if shms != [] {
      var n := |shms| - 1;
      assert shms[n] in shms && forall v :: v in shms[..n] ==> v in shms;
      ShmsEndReached(shms[..n]);
    }
  }

  lemma {:induction false} FreshMmapNeverEinval(s: Space, q: Request, env: Answers)
    requires StackLow(s.areas)
    requires q.start == 0
    ensures SysMmap(s, q, env).1 != Err(EINVAL)
  {
    FreshAddrIsFree(s, q);
  }

  ghost predicate EndsAligned(s: Space) {
    && (forall a :: a in s.areas && a.mtype != Stack ==> (a.start + a.len) % PAGE_SIZE == 0)
    && (forall v :: v in s.shms ==> (v.start + v.size) % PAGE_SIZE == 0)
  }

  lemma {:induction false} AreasEndAligned(areas: seq<MemArea>)
    requires forall a :: a in areas && a.mtype != Stack ==> (a.start + a.len) % PAGE_SIZE == 0
    ensures AreasEnd(areas) % PAGE_SIZE == 0
  {
    if areas != [] {
      var n := |areas| - 1;
      assert areas[n] in areas && forall a :: a in areas[..n] ==> a in areas;
      AreasEndAligned(areas[..n]);
    }
  }

  lemma {:induction false} ShmsEndAligned(shms: seq<Attached>)
    requires forall v :: v in shms ==> (v.start + v.size) % PAGE_SIZE == 0
    ensures ShmsEnd(shms) % PAGE_SIZE == 0
  {
    if shms != [] {
      var n := |shms| - 1;
      assert shms[n] in shms && forall v :: v in shms[..n] ==> v in shms;
      ShmsEndAligned(shms[..n]);
    }
  }

  /**
    The alignment assertion fails exactly when the call gets as far as mapping a page: a nonempty
    eager mapping with its frames, neither refused for an overlap nor on a page boundary.
  */
  lemma {:induction false} MmapPanicsIff(s: Space, q: Request, env: Answers)
    ensures SysMmap(s, q, env).1 == Err(Panicked) <==>
      var lo := MmapAddr(s, q);
      && q.len > 0 && q.Eager() && env.frames.Some? && lo % PAGE_SIZE != 0
      && (q.fixed || !AnyOverlapping(s.areas, lo, lo + PageUp(q.len)))
  {
    assert PageUp(q.len) == 0 <==> q.len == 0;
  }

  /** The three errors a caller can see, each with its condition, and the empty call that changes nothing. */
  lemma {:induction false} MmapFailsIff(s: Space, q: Request, env: Answers)
    ensures var (t, r), lo := SysMmap(s, q, env), MmapAddr(s, q);
      var refused := !q.fixed && AnyOverlapping(s.areas, lo, lo + PageUp(q.len));
      && (r == Err(EINVAL) <==> q.len > 0 && refused)
      && (r == Err(EFAULT) <==> q.len > 0 && !refused && q.Eager() && env.frames.None?)
      && (r == Err(EIO) <==>
            q.len > 0 && !refused && q.file.Some? && env.frames.Some? && lo % PAGE_SIZE == 0 && !env.readOk)
      && (q.len == 0 || r == Err(EINVAL) ==> t == s)
  {
    assert PageUp(q.len) == 0 <==> q.len == 0;
  }

  /** While everything ends on a page boundary, no mapping without a hint or at a page address panics. */
  lemma {:induction false} AlignedMmapNeverPanics(s: Space, q: Request, env: Answers)
    requires EndsAligned(s) && q.start % PAGE_SIZE == 0
    ensures SysMmap(s, q, env).1 != Err(Panicked)
  {
    FreshAddrAligned(s, q);
    MmapPanicsIff(s, q, env);
  }

  lemma FreshAddrAligned(s: Space, q: Request)
    requires EndsAligned(s) && q.start % PAGE_SIZE == 0
    ensures MmapAddr(s, q) % PAGE_SIZE == 0
  {
    AreasEndAligned(s.areas);
    ShmsEndAligned(s.shms);
  }

  /** An anonymous mapping at an odd hint, then an eager one without a hint: the kernel panics. */
  lemma {:induction false} UnalignedPanicExample(frames: seq<Frame>)
    requires |frames| == 1
    ensures var p := Prot(true, true, true);
      var odd := Request(MAP_AREA_START + 1, PAGE_SIZE, false, false, None, 0, p);
      var next := Request(0, PAGE_SIZE, false, true, None, 0, p);
      var (s, r) := SysMmap(Space([], map[], []), odd, Answers(None, true));
      r == Ok(MAP_AREA_START + 1) && SysMmap(s, next, Answers(Some(frames), true)).1 == Err(Panicked)
  {
    var p := Prot(true, true, true);
    var odd := Request(MAP_AREA_START + 1, PAGE_SIZE, false, false, None, 0, p);
    var next := Request(0, PAGE_SIZE, false, true, None, 0, p);
    var a := MemArea(Mmap, [], None, 0, MAP_AREA_START + 1, PAGE_SIZE);
    var s := Space([a], map[], []);
    assert PageUp(PAGE_SIZE) == PAGE_SIZE;
    assert [] + [a] == [a];
    assert SysMmap(Space([], map[], []), odd, Answers(None, true)) == (s, Ok(MAP_AREA_START + 1));
    assert [a][..0] == [] && AreasEnd([a]) == MAP_AREA_START + 1 + PAGE_SIZE;
    assert MmapAddr(s, next) == MAP_AREA_START + 1 + PAGE_SIZE;
    FreshAddrIsFree(s, next);
  }

  /* ---------- One step ---------- */

  lemma {:induction false} SubAreaTypes(areas: seq<MemArea>, lo: nat, hi: nat, a: MemArea)
    requires lo <= hi
    requires a in SubArea(areas, lo, hi)
    ensures exists b :: b in areas && b.mtype == a.mtype && a.start + a.len <= b.start + b.len
  {
    SubOne(areas[0], lo, hi);
    if a in SubArea(areas[1..], lo, hi) {
      SubAreaTypes(areas[1..], lo, hi, a);
      var b :| b in areas[1..] && b.mtype == a.mtype && a.start + a.len <= b.start + b.len;
      assert b in areas;
    } else {
      assert areas[0] in areas;
    }
  }

  lemma {:induction false} CarveCovers(areas: seq<MemArea>, lo: nat, hi: nat)
    requires lo <= hi
    ensures forall x: nat :: Covered(SubArea(areas, lo, hi), x) <==> Covered(areas, x) && !(lo <= x < hi)
  {
    forall x: nat ensures Covered(SubArea(areas, lo, hi), x) <==> Covered(areas, x) && !(lo <= x < hi) {
      SubAreaCoverage(areas, lo, hi, x);
    }
  }

  lemma {:induction false} MinusTwice(pt: map<nat, Pte>, a: set<nat>, b: set<nat>)
    ensures pt - a - b == pt - (a + b)
  {
  }

  lemma {:induction false} CarveKeepsInv(s: Space, lo: nat, hi: nat)
    requires lo <= hi && Inv(s)
    ensures Inv(Carve(s, lo, hi))
    ensures lo < hi ==> !AnyOverlapping(Carve(s, lo, hi).areas, lo, hi)
  {
    SubAreaDisjoint(s.areas, lo, hi);
    var areas := SubArea(s.areas, lo, hi);
    forall a | a in areas && a.mtype == Stack ensures a.start + a.len <= MAP_AREA_START {
      SubAreaTypes(s.areas, lo, hi, a);
    }
    forall a | a in areas ensures lo < hi ==> !a.Overlapping(lo, hi) {
      assert a.len > 0;
      if lo < hi && a.Overlapping(lo, hi) {
        var x := Max(a.start, lo);
        assert a.Contains(x) && Covered(areas, x);
        SubAreaCoverage(s.areas, lo, hi, x);
      }
    }
  }

  lemma {:induction false} SubUntouched(areas: seq<MemArea>, lo: nat, hi: nat)
    requires lo <= hi && NonEmpty(areas)
    requires !AnyOverlapping(areas, lo, hi)
    ensures SubKept(areas, lo, hi) == areas
    ensures SubTails(areas, lo, hi) == []
    ensures SubUnmapped(areas, lo, hi) == {}
  {
    if areas != [] {
      assert areas[0] in areas;
      assert forall a :: a in areas[1..] ==> a in areas;
      SubUntouched(areas[1..], lo, hi);
      OneUntouched(areas[0], lo, hi);
      assert [areas[0]] + areas[1..] == areas;
    }
  }

  lemma {:induction false} OneUntouched(a: MemArea, lo: nat, hi: nat)
    requires lo <= hi && a.len > 0 && !a.Overlapping(lo, hi)
    ensures Kept(a, lo, hi) == [a] && Tails(a, lo, hi) == [] && Sub(a, lo, hi).unmapped == {}
  {
  }

  lemma {:induction false} SubConcat(xs: seq<MemArea>, ys: seq<MemArea>, lo: nat, hi: nat)
    requires lo <= hi
    ensures SubKept(xs + ys, lo, hi) == SubKept(xs, lo, hi) + SubKept(ys, lo, hi)
    ensures SubTails(xs + ys, lo, hi) == SubTails(xs, lo, hi) + SubTails(ys, lo, hi)
    ensures SubUnmapped(xs + ys, lo, hi) == SubUnmapped(xs, lo, hi) + SubUnmapped(ys, lo, hi)
  {
    if xs == [] {
      assert xs + ys == ys;
    } else {
      var rest := xs[1..];
      assert (xs + ys)[1..] == rest + ys && (xs + ys)[0] == xs[0];
      SubConcat(rest, ys, lo, hi);
      Regroup(Kept(xs[0], lo, hi), SubKept(rest, lo, hi), SubKept(ys, lo, hi));
      Regroup(Tails(xs[0], lo, hi), SubTails(rest, lo, hi), SubTails(ys, lo, hi));
    }
  }

  lemma {:induction false} Regroup(a: seq<MemArea>, b: seq<MemArea>, c: seq<MemArea>)
    ensures a + (b + c) == (a + b) + c
  {
  }

  lemma {:induction false} SubSingle(a: MemArea, lo: nat, hi: nat)
    requires lo <= hi
    ensures SubKept([a], lo, hi) == Kept(a, lo, hi)
    ensures SubTails([a], lo, hi) == Tails(a, lo, hi)
    ensures SubUnmapped([a], lo, hi) == Sub(a, lo, hi).unmapped
  {
    assert [a][1..] == [];
  }

  /** The three accumulators of `sub_area` after one more area. */
  lemma {:induction false} SubPush(areas: seq<MemArea>, i: nat, lo: nat, hi: nat)
    requires lo <= hi && i < |areas|
    ensures SubKept(areas[..i + 1], lo, hi) == SubKept(areas[..i], lo, hi) + Kept(areas[i], lo, hi)
    ensures SubTails(areas[..i + 1], lo, hi) == SubTails(areas[..i], lo, hi) + Tails(areas[i], lo, hi)
    ensures SubUnmapped(areas[..i + 1], lo, hi) == SubUnmapped(areas[..i], lo, hi) + Sub(areas[i], lo, hi).unmapped
  {
    assert areas[..i + 1] == areas[..i] + [areas[i]];
    SubConcat(areas[..i], [areas[i]], lo, hi);
    SubSingle(areas[i], lo, hi);
  }

  /** Carving out exactly the area just pushed gives the old list back. */
  lemma {:induction false} CarveUndoesPush(areas: seq<MemArea>, a: MemArea)
    requires NonEmpty(areas) && a.len > 0
    requires !AnyOverlapping(areas, a.start, a.start + a.len)
    requires TracksIn(a)
    ensures SubArea(areas + [a], a.start, a.start + a.len) == areas
    ensures SubUnmapped(areas + [a], a.start, a.start + a.len) == Pages(a.mtrackers)
  {
    hide Sub, Kept, Tails, SubKept, SubTails;
    var lo, hi := a.start, a.start + a.len;
    SubUntouched(areas, lo, hi);
    SubConcat(areas, [a], lo, hi);
    SubSingle(a, lo, hi);
    SubWhole(a);
    assert (areas + []) + ([] + []) == areas;
  }

  /** Subtracting its own range empties an area. */
  lemma {:induction false} SubWhole(a: MemArea)
    requires a.len > 0 && TracksIn(a)
    ensures Kept(a, a.start, a.start + a.len) == [] && Tails(a, a.start, a.start + a.len) == []
    ensures Sub(a, a.start, a.start + a.len).unmapped == Pages(a.mtrackers)
  {
    DropNothing(a.mtrackers, a.start, a.start);
  }

  lemma {:induction false} TracksFromInside(addr: nat, frames: seq<Frame>, len: nat, t: MapTrack)
    requires |frames| * PAGE_SIZE == len
    requires t in TracksFrom(addr, frames)
    ensures addr <= t.vaddr < addr + len
  {
  }

  lemma {:induction false} PushKeepsInv(areas: seq<MemArea>, a: MemArea)
    requires Disjoint(areas) && NonEmpty(areas) && StackLow(areas)
    requires a.len > 0 && a.mtype != Stack
    requires !AnyOverlapping(areas, a.start, a.start + a.len)
    ensures Disjoint(areas + [a]) && NonEmpty(areas + [a]) && StackLow(areas + [a])
  {
    forall b, c | b in areas && c in [a] ensures Apart(b, c) {
      assert !b.Overlapping(a.start, a.start + a.len);
    }
    assert [a][1..] == [];
    assert Disjoint([a]);
    DisjointConcat(areas, [a]);
  }

  lemma {:induction false} PushCovers(areas: seq<MemArea>, a: MemArea, x: nat)
    ensures Covered(areas + [a], x) <==> Covered(areas, x) || a.Contains(x)
  {
    CoveredConcat(areas, [a], x);
    assert a in [a];
  }

  /** Once prepared, the range is free of areas. */
  lemma {:induction false} PrepareInv(s: Space, q: Request, lo: nat, hi: nat)
    requires Inv(s) && lo < hi
    requires q.fixed || !AnyOverlapping(s.areas, lo, hi)
    ensures var s1 := Prepare(s, q, lo, hi); Inv(s1) && !AnyOverlapping(s1.areas, lo, hi)
  {
    if q.fixed && AnyOverlapping(s.areas, lo, hi) {
      CarveKeepsInv(s, lo, hi);
    }
  }

  /** And nothing else has changed. */
  lemma {:induction false} PrepareCovers(s: Space, q: Request, lo: nat, hi: nat, x: nat)
    requires lo < hi && (q.fixed || !AnyOverlapping(s.areas, lo, hi))
    ensures Covered(Prepare(s, q, lo, hi).areas, x) <==> Covered(s.areas, x) && !(lo <= x < hi)
  {
    if q.fixed && AnyOverlapping(s.areas, lo, hi) {
      SubAreaCoverage(s.areas, lo, hi, x);
    } else if lo <= x < hi {
      UncoveredOutside(s.areas, lo, hi, x);
    }
  }

  lemma {:induction false} UncoveredOutside(areas: seq<MemArea>, lo: nat, hi: nat, x: nat)
    requires !AnyOverlapping(areas, lo, hi) && lo <= x < hi
    ensures !Covered(areas, x)
  {
    forall a | a in areas ensures !a.Contains(x) {
      assert !a.Overlapping(lo, hi);
    }
  }

  /** Carving the range of a fresh area undoes `Place`, up to page-table entries of that range. */
  lemma {:induction false} CarveUndoesPlace(s: Space, q: Request, addr: nat, len: nat, frames: seq<Frame>)
    requires Inv(s) && len > 0 && !AnyOverlapping(s.areas, addr, addr + len)
    requires q.Eager() ==> |frames| * PAGE_SIZE == len
    ensures var s3 := Carve(Place(s, q, addr, len, frames), addr, addr + len);
      && s3.areas == s.areas && s3.shms == s.shms
      && ((forall v :: v in s.pt ==> !(addr <= v < addr + len)) ==> s3.pt == s.pt)
  {
    var a := NewArea(q, addr, len, frames);
    forall t | t in a.mtrackers ensures a.Contains(t.vaddr) {
      TracksFromInside(addr, frames, len, t);
    }
    CarveUndoesPush(s.areas, a);
    UnmapUndoesMap(s.pt, a, if q.shared then q.prot else Prot(true, true, true));
  }

  lemma {:induction false} UnmapUndoesMap(pt: map<nat, Pte>, a: MemArea, prot: Prot)
    requires TracksIn(a)
    ensures (forall v :: v in pt ==> !(a.start <= v < a.start + a.len)) ==>
      MapTracks(pt, a.mtrackers, prot) - Pages(a.mtrackers) == pt
  {
    MapTracksKeys(pt, a.mtrackers, prot);
  }

  /** Whether an address ends up covered, from the answer and the coverage before. */
  ghost predicate RangeMakes(q: Request, ok: bool, lo: nat, len: nat, x: nat, before: bool) {
    var inside := lo <= x < lo + len;
    if ok then before || inside else before && !(q.fixed && inside)
  }

  ghost predicate MmapMakes(s: Space, q: Request, env: Answers, x: nat, before: bool) {
    RangeMakes(q, SysMmap(s, q, env).1.Ok?, MmapAddr(s, q), PageUp(q.len), x, before)
  }

  /** Addresses the call leaves covered, according to its answer. */
  ghost predicate MmapCovers(s: Space, q: Request, env: Answers, x: nat) {
    MmapMakes(s, q, env, x, Covered(s.areas, x))
  }

  lemma {:induction false} FinishInv(s: Space, q: Request, env: Answers, addr: nat, len: nat)
    requires Inv(s) && len > 0 && !AnyOverlapping(s.areas, addr, addr + len)
    requires env.frames.Some? ==> |env.frames.value| * PAGE_SIZE == len
    ensures Inv(Finish(s, q, env, addr, len).0)
  {
    if !q.Eager() || (env.frames.Some? && addr % PAGE_SIZE == 0) {
      var frames := if q.Eager() then env.frames.value else [];
      if q.file.Some? && !env.readOk {
        CarveUndoesPlace(s, q, addr, len, frames);
      } else {
        PushKeepsInv(s.areas, NewArea(q, addr, len, frames));
      }
    }
  }

  /** On a clear range the rest of the call adds exactly that range, or nothing. */
  lemma {:induction false} FinishCovers(s: Space, q: Request, env: Answers, addr: nat, len: nat, x: nat)
    requires Inv(s) && len > 0 && !AnyOverlapping(s.areas, addr, addr + len)
    requires env.frames.Some? ==> |env.frames.value| * PAGE_SIZE == len
    ensures var (t, r) := Finish(s, q, env, addr, len);
      Covered(t.areas, x) <==> Covered(s.areas, x) || (r.Ok? && addr <= x < addr + len)
  {
    if !q.Eager() || (env.frames.Some? && addr % PAGE_SIZE == 0) {
      var frames := if q.Eager() then env.frames.value else [];
      if q.file.Some? && !env.readOk {
        CarveUndoesPlace(s, q, addr, len, frames);
      } else {
        PushCovers(s.areas, NewArea(q, addr, len, frames), x);
      }
    }
  }

  /** Clearing and mapping one range. */
  lemma {:induction false} RangeInv(s: Space, q: Request, env: Answers, lo: nat, len: nat)
    requires Inv(s) && (env.frames.Some? ==> |env.frames.value| * PAGE_SIZE == len)
    ensures Inv(MapRange(s, q, env, lo, len).0)
  {
    hide Finish, Prepare, Inv;
    if len > 0 && (q.fixed || !AnyOverlapping(s.areas, lo, lo + len)) {
      PrepareInv(s, q, lo, lo + len);
      FinishInv(Prepare(s, q, lo, lo + len), q, env, lo, len);
    }
  }

  lemma {:induction false} RangeAt(s: Space, q: Request, env: Answers, lo: nat, len: nat, x: nat)
    requires Inv(s) && (env.frames.Some? ==> |env.frames.value| * PAGE_SIZE == len)
    ensures var (t, r) := MapRange(s, q, env, lo, len);
      Covered(t.areas, x) <==> RangeMakes(q, r.Ok?, lo, len, x, Covered(s.areas, x))
  {
    hide Finish, Prepare, Inv, Covered;
    if len == 0 {
    } else if !q.fixed && AnyOverlapping(s.areas, lo, lo + len) {
    } else {
      FreeRangeAt(s, q, env, lo, len, x);
    }
  }

  lemma {:induction false} FreeRangeAt(s: Space, q: Request, env: Answers, lo: nat, len: nat, x: nat)
    requires Inv(s) && len > 0 && (env.frames.Some? ==> |env.frames.value| * PAGE_SIZE == len)
    requires q.fixed || !AnyOverlapping(s.areas, lo, lo + len)
    ensures var (t, r) := Finish(Prepare(s, q, lo, lo + len), q, env, lo, len);
      Covered(t.areas, x) <==> RangeMakes(q, r.Ok?, lo, len, x, Covered(s.areas, x))
  {
    hide *;
    var s1 := Prepare(s, q, lo, lo + len);
    PrepareInv(s, q, lo, lo + len);
    PrepareCovers(s, q, lo, lo + len, x);
    FinishCovers(s1, q, env, lo, len, x);
    var (t, r) := Finish(s1, q, env, lo, len);
    if !q.fixed && lo <= x < lo + len {
      UncoveredOutside(s.areas, lo, lo + len, x);
    }
    TwoMoves(Covered(s.areas, x), Covered(s1.areas, x), Covered(t.areas, x), q, r.Ok?, lo, len, x);
  }

  /** Clearing a range and then filling it, or not. */
  lemma TwoMoves(before: bool, cleared: bool, after: bool, q: Request, ok: bool, lo: nat, len: nat, x: nat)
    requires cleared <==> before && !(lo <= x < lo + len)
    requires after <==> cleared || (ok && lo <= x < lo + len)
    requires !q.fixed && lo <= x < lo + len ==> !before
    ensures after <==> RangeMakes(q, ok, lo, len, x, before)
  {
  }

  lemma {:induction false} MmapAt(s: Space, q: Request, env: Answers, x: nat)
    requires Inv(s) && MmapDemands(q, env)
    ensures Inv(SysMmap(s, q, env).0)
    ensures Covered(SysMmap(s, q, env).0.areas, x) <==> MmapCovers(s, q, env, x)
  {
    hide MapRange, MmapAddr, PageUp, Inv, Covered;
    RangeInv(s, q, env, MmapAddr(s, q), PageUp(q.len));
    RangeAt(s, q, env, MmapAddr(s, q), PageUp(q.len), x);
  }

  /**
    Every mmap keeps the areas disjoint and nonempty; on success it adds exactly the requested
    range, on failure it leaves the old coverage (without the range if MAP_FIXED had cleared it).
  */
  lemma {:induction false} MmapStep(s: Space, q: Request, env: Answers)
    requires Inv(s) && MmapDemands(q, env)
    ensures Inv(SysMmap(s, q, env).0)
    ensures forall x: nat :: Covered(SysMmap(s, q, env).0.areas, x) <==> MmapCovers(s, q, env, x)
  {
    MmapAt(s, q, env, 0);
    forall x: nat ensures Covered(SysMmap(s, q, env).0.areas, x) <==> MmapCovers(s, q, env, x) {
      MmapAt(s, q, env, x);
    }
  }

  /** A non-fixed mapping whose file read fails puts the whole address space back. */
  lemma {:induction false} FailedReadRestores(s: Space, q: Request, env: Answers)
    requires Inv(s) && MmapDemands(q, env)
    requires !q.fixed && SysMmap(s, q, env).1 == Err(EIO)
    requires forall v :: v in s.pt ==> !(MmapAddr(s, q) <= v < MmapAddr(s, q) + PageUp(q.len))
    ensures SysMmap(s, q, env).0 == s
  {
    RangeRestores(s, q, env, MmapAddr(s, q), PageUp(q.len));
  }

  lemma {:induction false} RangeRestores(s: Space, q: Request, env: Answers, lo: nat, len: nat)
    requires Inv(s) && (env.frames.Some? ==> |env.frames.value| * PAGE_SIZE == len)
    requires !q.fixed && MapRange(s, q, env, lo, len).1 == Err(EIO)
    requires forall v :: v in s.pt ==> !(lo <= v < lo + len)
    ensures MapRange(s, q, env, lo, len).0 == s
  {
    CarveUndoesPlace(s, q, lo, len, env.frames.value);
  }

  /* ---------- What a successful call leaves behind ---------- */

  /** The entry of page address `v` after the frames have been mapped from `lo`. */
  ghost predicate EntryIs(before: map<nat, Pte>, after: map<nat, Pte>, lo: nat, frames: seq<Frame>, p: Prot, v: nat) {
    if lo <= v < lo + |frames| * PAGE_SIZE && v % PAGE_SIZE == 0
    then v in after && after[v] == Pte(frames[(v - lo) / PAGE_SIZE], p)
    else (v in after <==> v in before) && (v in before ==> after[v] == before[v])
  }

  /**
    The area over the range is the one asked for: shared with a file, shared without, or private;
    only a shared mapping remembers its file and the offset into it.
  */
  ghost predicate AsAsked(a: MemArea, q: Request, lo: nat, len: nat) {
    && a.start == lo && a.len == len
    && (q.shared && q.file.Some? ==> a.mtype == ShareFile && a.file == q.file && a.offset == q.off)
    && (q.shared && q.file.None? ==> a.mtype == Shared && a.file.None? && a.offset == 0)
    && (!q.shared ==> a.mtype == Mmap && a.file.None? && a.offset == 0)
  }

  /** Shared mappings get the protection asked for, private ones all rights. */
  function EntryProt(q: Request): Prot {
    if q.shared then q.prot else Prot(true, true, true)
  }

  lemma {:induction false} PlaceMaps(s: Space, q: Request, lo: nat, len: nat, frames: seq<Frame>, v: nat)
    requires lo % PAGE_SIZE == 0 || !q.Eager()
    ensures var t := Place(s, q, lo, len, frames);
      && t.shms == s.shms
      && EntryIs(s.pt, t.pt, lo, if q.Eager() then frames else [], EntryProt(q), v)
  {
    if q.Eager() {
      MappedEntry(s.pt, lo, frames, EntryProt(q), v);
    }
  }

  lemma {:induction false} PlaceFinds(s: Space, q: Request, lo: nat, len: nat, frames: seq<Frame>, x: nat)
    requires !AnyOverlapping(s.areas, lo, lo + len)
    ensures var found := FindArea(Place(s, q, lo, len, frames).areas, x);
      if lo <= x < lo + len then found.Some? && AsAsked(found.value, q, lo, len) else found == FindArea(s.areas, x)
  {
    FindAreaAppend(s.areas, NewArea(q, lo, len, frames), x);
    FindAreaIn(s.areas, x);
    if lo <= x < lo + len {
      UncoveredOutside(s.areas, lo, lo + len, x);
    }
  }

  /** What mapping `[lo, lo + len)` leaves at one address of a space whose range was clear. */
  ghost predicate MadeAt(s: Space, t: Space, q: Request, frames: Option<seq<Frame>>, lo: nat, len: nat, x: nat) {
    && (if q.Eager() then frames.Some? && EntryIs(s.pt, t.pt, lo, frames.value, EntryProt(q), x) else t.pt == s.pt)
    && (if lo <= x < lo + len
        then FindArea(t.areas, x).Some? && AsAsked(FindArea(t.areas, x).value, q, lo, len)
        else FindArea(t.areas, x) == FindArea(s.areas, x))
  }

  lemma {:induction false} RangeMaps(s: Space, q: Request, env: Answers, lo: nat, len: nat, x: nat)
    requires Inv(s) && len > 0 && MapRange(s, q, env, lo, len).1.Ok?
    ensures var (t, r) := MapRange(s, q, env, lo, len);
      r == Ok(lo) && t.shms == s.shms && MadeAt(Prepare(s, q, lo, lo + len), t, q, env.frames, lo, len, x)
  {
    hide Inv, AnyOverlapping, Place, Carve, EntryIs, AsAsked, FindArea;
    var s1 := Prepare(s, q, lo, lo + len);
    PrepareInv(s, q, lo, lo + len);
    var frames := if q.Eager() then env.frames.value else [];
    PlaceMaps(s1, q, lo, len, frames, x);
    PlaceFinds(s1, q, lo, len, frames, x);
    AnonymousMapsNothing(s1, q, lo, len, frames);
    CarveKeepsShms(s, q, lo, lo + len);
  }

  lemma AnonymousMapsNothing(s: Space, q: Request, lo: nat, len: nat, frames: seq<Frame>)
    ensures !q.Eager() ==> Place(s, q, lo, len, frames).pt == s.pt
  {
  }

  lemma CarveKeepsShms(s: Space, q: Request, lo: nat, hi: nat)
    requires lo <= hi
    ensures Prepare(s, q, lo, hi).shms == s.shms
  {
  }

  /**
    A nonempty call that succeeds answers the start of its range.  Over the range lies one area, of
    the kind asked for.  A mapping that takes its frames at once has every page of the range mapped
    to its frame, with the protection asked for if it is shared and all rights otherwise; an
    anonymous private one maps nothing.  Everything outside is as in the prepared space.
  */
  lemma {:induction false} MmapMaps(s: Space, q: Request, env: Answers, x: nat)
    requires Inv(s) && q.len > 0 && SysMmap(s, q, env).1.Ok?
    ensures var lo, len, (t, r) := MmapAddr(s, q), PageUp(q.len), SysMmap(s, q, env);
      r == Ok(lo) && t.shms == s.shms && MadeAt(Prepare(s, q, lo, lo + len), t, q, env.frames, lo, len, x)
  {
    hide MapRange, Prepare, MadeAt, Inv, MmapAddr;
    RangeMaps(s, q, env, MmapAddr(s, q), PageUp(q.len), x);
  }

  /** The same page by page: the frames granted lie in the range in their order. */
  lemma {:induction false} MmapMapsPage(s: Space, q: Request, env: Answers, k: nat)
    requires Inv(s) && MmapDemands(q, env) && q.len > 0 && q.Eager() && SysMmap(s, q, env).1.Ok?
    requires env.frames.Some? && k < |env.frames.value|
    ensures var v, t := MmapAddr(s, q) + k * PAGE_SIZE, SysMmap(s, q, env).0;
      && v in t.pt && t.pt[v] == Pte(env.frames.value[k], if q.shared then q.prot else Prot(true, true, true))
      && KindAt(t.areas, v) == Some(if !q.shared then MemType.Mmap else if q.file.Some? then ShareFile else Shared)
  {
    hide Prepare, SysMmap, FindArea, Inv;
    var lo := MmapAddr(s, q);
    MmapMaps(s, q, env, lo + k * PAGE_SIZE);
    AlignedWhenOk(s, q, env);
    Arith.MultipleMod(k, PAGE_SIZE);
    AlignedSum(lo, k * PAGE_SIZE);
    Arith.MulMonotone(k + 1, |env.frames.value|, PAGE_SIZE);
  }

  lemma AlignedWhenOk(s: Space, q: Request, env: Answers)
    requires q.len > 0 && q.Eager() && SysMmap(s, q, env).1.Ok?
    ensures MmapAddr(s, q) % PAGE_SIZE == 0
  {
  }

  /** Outside its range a successful call leaves every address its kind. */
  lemma {:induction false} MmapKeepsKinds(s: Space, q: Request, env: Answers, x: nat)
    requires Inv(s) && q.len > 0 && SysMmap(s, q, env).1.Ok?
    requires !(MmapAddr(s, q) <= x < MmapAddr(s, q) + PageUp(q.len))
    ensures KindAt(SysMmap(s, q, env).0.areas, x) == KindAt(s.areas, x)
  {
    hide SysMmap, SubArea, EntryIs, AsAsked;
    var lo, hi := MmapAddr(s, q), MmapAddr(s, q) + PageUp(q.len);
    MmapMaps(s, q, env, x);
    SubKindAt(s.areas, lo, hi, x);
  }

  /* ---------- Runs ---------- */

  datatype Call = CallMmap(q: Request, env: Answers) | CallMunmap(start: nat, len: nat)

  ghost predicate Demands(calls: seq<Call>) {
    forall c :: c in calls && c.CallMmap? ==> MmapDemands(c.q, c.env)
  }

  function Apply(s: Space, c: Call): Space {
    match c
    case CallMmap(q, env) => SysMmap(s, q, env).0
    case CallMunmap(start, len) => SysMunmap(s, start, len)
  }

  function Run(s: Space, calls: seq<Call>): Space
    decreases |calls|
  {
    if calls == [] then s else Run(Apply(s, calls[0]), calls[1..])
  }

  /* ---------- Runs that keep to page boundaries ---------- */

  /** What a caller can check: the hint of the mmap, or the start of the munmap, is a page address. */
  predicate StartAligned(c: Call) {
    match c
    case CallMmap(q, _) => q.start % PAGE_SIZE == 0
    case CallMunmap(start, _) => start % PAGE_SIZE == 0
  }

  ghost predicate NoPanics(s: Space, calls: seq<Call>)
    decreases |calls|
  {
    calls != [] ==>
      && (calls[0].CallMmap? ==> SysMmap(s, calls[0].q, calls[0].env).1 != Err(Panicked))
      && NoPanics(Apply(s, calls[0]), calls[1..])
  }

  /** What is left of an area ends where the area ended, or where the hole begins. */
  lemma {:induction false} SubAreaEnds(areas: seq<MemArea>, lo: nat, hi: nat, a: MemArea)
    requires lo <= hi
    requires a in SubArea(areas, lo, hi)
    ensures a.start + a.len == lo
      || exists b :: b in areas && b.mtype == a.mtype && a.start + a.len == b.start + b.len
  {
    if a in Kept(areas[0], lo, hi) || a in Tails(areas[0], lo, hi) {
      SubPieces(areas[0], lo, hi);
      assert areas[0] in areas;
    } else {
      assert a in SubArea(areas[1..], lo, hi);
      SubAreaEnds(areas[1..], lo, hi, a);
      assert forall b :: b in areas[1..] ==> b in areas;
    }
  }

  lemma {:induction false} CarveAligned(s: Space, lo: nat, hi: nat)
    requires EndsAligned(s) && lo <= hi && lo % PAGE_SIZE == 0
    ensures EndsAligned(Carve(s, lo, hi))
  {
    forall a | a in SubArea(s.areas, lo, hi) && a.mtype != Stack ensures (a.start + a.len) % PAGE_SIZE == 0 {
      SubAreaEnds(s.areas, lo, hi, a);
    }
  }

  lemma {:induction false} FinishAligned(s: Space, q: Request, env: Answers, addr: nat, len: nat)
    requires EndsAligned(s) && addr % PAGE_SIZE == 0 && len % PAGE_SIZE == 0
    ensures EndsAligned(Finish(s, q, env, addr, len).0)
  {
    hide Carve;
    AlignedSum(addr, len);
    if q.Eager() ==> env.frames.Some? {
      var s2 := Place(s, q, addr, len, if q.Eager() then env.frames.value else []);
      assert EndsAligned(s2);
      CarveAligned(s2, addr, addr + len);
    }
  }

  lemma {:induction false} MmapAligned(s: Space, q: Request, env: Answers)
    requires EndsAligned(s) && q.start % PAGE_SIZE == 0
    ensures SysMmap(s, q, env).1 != Err(Panicked)
    ensures EndsAligned(SysMmap(s, q, env).0)
  {
    hide Carve, Finish;
    FreshAddrAligned(s, q);
    AlignedMmapNeverPanics(s, q, env);
    var lo, len := MmapAddr(s, q), PageUp(q.len);
    CarveAligned(s, lo, lo + len);
    FinishAligned(Prepare(s, q, lo, lo + len), q, env, lo, len);
  }

  /** Page-aligned hints and starts never fail the assertion, however long the run. */
  lemma {:induction false} AlignedRunNeverPanics(s: Space, calls: seq<Call>)
    requires EndsAligned(s)
    requires forall c :: c in calls ==> StartAligned(c)
    ensures NoPanics(s, calls) && EndsAligned(Run(s, calls))
    decreases |calls|
  {
    hide Carve, SysMmap;
    if calls != [] {
      var c := calls[0];
      assert c in calls && forall d :: d in calls[1..] ==> d in calls;
      match c {
        case CallMmap(q, env) => MmapAligned(s, q, env);
        case CallMunmap(start, len) => CarveAligned(s, start, start + len);
      }
      AlignedRunNeverPanics(Apply(s, c), calls[1..]);
    }
  }

  /* ---------- Coverage over runs ---------- */

  /** Coverage of one address after a call, from its answer and the coverage before. */
  ghost predicate CallCovers(s: Space, c: Call, x: nat, before: bool) {
    match c
    case CallMmap(q, env) => MmapMakes(s, q, env, x, before)
    case CallMunmap(start, len) => before && !(start <= x < start + len)
  }

  /** Coverage of one address after a run, computed from the calls' answers alone. */
  ghost predicate RunCovers(s: Space, calls: seq<Call>, x: nat, before: bool)
    decreases |calls|
  {
    if calls == [] then before
    else RunCovers(Apply(s, calls[0]), calls[1..], x, CallCovers(s, calls[0], x, before))
  }

  /** One call keeps the invariant and changes the coverage of one address as its answer says. */
  lemma {:induction false} CallStep(s: Space, c: Call, x: nat)
    requires Inv(s) && (c.CallMmap? ==> MmapDemands(c.q, c.env))
    ensures Inv(Apply(s, c)) && (Covered(Apply(s, c).areas, x) <==> CallCovers(s, c, x, Covered(s.areas, x)))
  {
    match c {
      case CallMmap(q, env) =>
        MmapAt(s, q, env, x);
      case CallMunmap(start, len) => MunmapAt(s, start, len, x);
    }
  }

  lemma {:induction false} MunmapAt(s: Space, start: nat, len: nat, x: nat)
    requires Inv(s)
    ensures Inv(SysMunmap(s, start, len))
    ensures Covered(SysMunmap(s, start, len).areas, x) <==> Covered(s.areas, x) && !(start <= x < start + len)
  {
    MunmapInv(s, start, len);
    MunmapCovers(s, start, len, x);
  }

  lemma {:induction false} MunmapInv(s: Space, start: nat, len: nat)
    requires Inv(s)
    ensures Inv(SysMunmap(s, start, len))
  {
    CarveKeepsInv(s, start, start + len);
  }

  lemma {:induction false} MunmapCovers(s: Space, start: nat, len: nat, x: nat)
    ensures Covered(SysMunmap(s, start, len).areas, x) <==> Covered(s.areas, x) && !(start <= x < start + len)
  {
    SubAreaCoverage(s.areas, start, start + len, x);
  }

  /** Over every run the areas stay disjoint, and coverage is what the calls asked for. */
  lemma {:induction false} RunKeepsInv(s: Space, calls: seq<Call>, x: nat)
    requires Inv(s) && Demands(calls)
    ensures Inv(Run(s, calls))
    ensures Covered(Run(s, calls).areas, x) <==> RunCovers(s, calls, x, Covered(s.areas, x))
    decreases |calls|
  {
    if calls != [] {
      assert calls[0] in calls && forall d :: d in calls[1..] ==> d in calls;
      CallStep(s, calls[0], x);
      RunKeepsInv(Apply(s, calls[0]), calls[1..], x);
    }
  }

  /* ---------- The task's own copy, updated in place ---------- */

  class AddressSpace {
    var areas: seq<MemArea>
    var pt: map<nat, Pte>
    var shms: seq<Attached>

    function View(): Space
      reads this
    {
      Space(areas, pt, shms)
    }

    /** `MemSet::sub_area`: subtract from each area in turn, drop the empty ones, append the tails. */
    method SubtractRange(lo: nat, hi: nat)
      requires lo <= hi
      modifies this
      ensures View() == Carve(old(View()), lo, hi)
      ensures forall x: nat :: Covered(areas, x) <==> Covered(old(areas), x) && !(lo <= x < hi)
    {
      var before := areas;
      var kept: seq<MemArea>, newSet: seq<MemArea> := [], [];
      for i := 0 to |before|
        invariant areas == before && shms == old(shms)
        invariant kept == SubKept(before[..i], lo, hi)
        invariant newSet == SubTails(before[..i], lo, hi)
        invariant pt == old(pt) - SubUnmapped(before[..i], lo, hi)
      {
        var r := Sub(before[i], lo, hi);
        SubPush(before, i, lo, hi);
        if r.tail.Some? {
          newSet := newSet + [r.tail.value];
        }
        if r.area.len != 0 {
          kept := kept + [r.area];
        }
        MinusTwice(old(pt), SubUnmapped(before[..i], lo, hi), r.unmapped);
        pt := pt - r.unmapped;
      }
      assert before[..|before|] == before;
      areas := kept + newSet;
      CarveCovers(before, lo, hi);
    }

    method AnyOverlap(lo: nat, hi: nat) returns (found: bool)
      ensures found == AnyOverlapping(areas, lo, hi)
    {
      for i := 0 to |areas|
        invariant forall a :: a in areas[..i] ==> !a.Overlapping(lo, hi)
      {
        if areas[i].Overlapping(lo, hi) {
          return true;
        }
      }
      assert areas[..|areas|] == areas;
      return false;
    }

    method MapAll(ts: seq<MapTrack>, prot: Prot)
      modifies this`pt
      ensures pt == MapTracks(old(pt), ts, prot)
    {
      for i := 0 to |ts|
        invariant MapTracks(old(pt), ts, prot) == MapTracks(pt, ts[i..], prot)
      {
        assert ts[i..][1..] == ts[i + 1..];
        pt := pt[ts[i].vaddr := Pte(ts[i].frame, prot)];
      }
    }

    method Mmap(q: Request, env: Answers) returns (r: Result<nat, Errno>)
      requires MmapDemands(q, env)
      modifies this
      ensures (View(), r) == SysMmap(old(View()), q, env)
    {
      hide Finish, Carve, AnyOverlapping, MmapAddr, PageUp;
      var len := PageUp(q.len);
      var addr := MmapAddr(View(), q);
      if len == 0 {
        return Ok(addr);
      }
      var overlaps := AnyOverlap(addr, addr + len);
      if q.fixed {
        if overlaps {
          SubtractRange(addr, addr + len);
        }
      } else if overlaps {
        return Err(EINVAL);
      }
      r := FinishMmap(q, env, addr, len);
    }

    method FinishMmap(q: Request, env: Answers, addr: nat, len: nat) returns (r: Result<nat, Errno>)
      modifies this
      ensures (View(), r) == Finish(old(View()), q, env, addr, len)
    {
      if q.Eager() && env.frames.None? {
        return Err(EFAULT);
      }
      if q.Eager() && addr % PAGE_SIZE != 0 {
        return Err(Panicked);
      }
      var a := NewArea(q, addr, len, if q.Eager() then env.frames.value else []);
      MapAll(a.mtrackers, if q.shared then q.prot else Prot(true, true, true));
      areas := areas + [a];
      if q.file.Some? && !env.readOk {
        SubtractRange(addr, addr + len);
        return Err(EIO);
      }
      return Ok(addr);
    }

    method Munmap(start: nat, len: nat)
      modifies this
      ensures View() == SysMunmap(old(View()), start, len)
      ensures Inv(old(View())) ==> Inv(View())
    {
      if Inv(View()) {
        CarveKeepsInv(View(), start, start + len);
      }
      SubtractRange(start, start + len);
    }
  }
}
