/**
  All regions together, and every run of takes, releases and writes from boot: outstanding frames
  are distinct and in range, the free count is exact, and every frame handed out is zero.
  (crates/runtime/src/frame.rs, kernel/src/main.rs)
*/
module FramePool {
  import opened Wrappers
  import opened Bits
  import opened Bytes
  import opened FrameAllocator

  predicate RegionsApart(a: Region, b: Region) {
    a.end <= b.start || b.end <= a.start
  }

  ghost predicate GoodAll(rs: seq<Region>) {
    rs != [] ==> Good(rs[0]) && (forall r :: r in rs[1..] ==> RegionsApart(rs[0], r)) && GoodAll(rs[1..])
  }

  ghost function AllFrames(rs: seq<Region>): set<nat>
    requires GoodAll(rs)
  {
    if rs == [] then {} else Frames(rs[0]) + AllFrames(rs[1..])
  }

  ghost function AllFree(rs: seq<Region>): set<nat>
    requires GoodAll(rs)
  {
    if rs == [] then {} else FreeFrames(rs[0]) + AllFree(rs[1..])
  }

  /** `get_free_page_count` over every region. */
  function FreeCount(rs: seq<Region>): nat {
    if rs == [] then 0 else CountClear(rs[0].bits, |rs[0].bits| * WORD_BITS) + FreeCount(rs[1..])
  }

  /* ---------- Operations over the regions ---------- */

  function AllocAny(rs: seq<Region>): (seq<Region>, Option<nat>) {
    if rs == [] then ([], None)
    else
      var (r, a) := AllocOne(rs[0]);
      if a.Some? then ([r] + rs[1..], a)
      else
        var (rest, b) := AllocAny(rs[1..]);
        ([rs[0]] + rest, b)
  }

  ghost function AllocMuchAny(rs: seq<Region>, pages: nat): (seq<Region>, Option<seq<nat>>)
    requires GoodAll(rs)
  {
    if rs == [] then ([], None)
    else
      GoodCovers(rs[0]);
      var (r, a) := AllocRun(rs[0], pages);
      if a.Some? then ([r] + rs[1..], a)
      else
        var (rest, b) := AllocMuchAny(rs[1..], pages);
        ([rs[0]] + rest, b)
  }

  ghost function FreeAny(rs: seq<Region>, p: nat): seq<Region>
    requires GoodAll(rs)
  {
    if rs == [] then []
    else if rs[0].start <= p < rs[0].end then
      FreeOneStep(rs[0], p);
      [FreeOne(rs[0], p)] + rs[1..]
    else [rs[0]] + FreeAny(rs[1..], p)
  }

  /* ---------- Sets of all regions ---------- */

  lemma {:induction false} AllFramesWithin(rs: seq<Region>, p: nat)
    requires GoodAll(rs)
    ensures p in AllFree(rs) ==> p in AllFrames(rs)
    ensures p in AllFrames(rs) ==> p % PAGE_SIZE == 0 && exists r :: r in rs && r.start <= p < r.end
  {
    if rs != [] {
      FreeFramesIn(rs[0], p);
      AllFramesWithin(rs[1..], p);
      if p in Frames(rs[0]) {
        assert rs[0] in rs;
      } else if p in AllFrames(rs) {
        var r :| r in rs[1..] && r.start <= p < r.end;
        assert r in rs;
      }
    }
  }

  /** A frame of the first region belongs to no later one. */
  lemma HeadApart(rs: seq<Region>, p: nat)
    requires GoodAll(rs) && rs != [] && p in Frames(rs[0])
    ensures p !in AllFrames(rs[1..]) && p !in AllFree(rs[1..])
  {
    FreeFramesIn(rs[0], p);
    AllFramesWithin(rs[1..], p);
  }

  lemma {:induction false} CountIsFree(rs: seq<Region>)
    requires GoodAll(rs)
    ensures FreeCount(rs) == |AllFree(rs)|
  {
    if rs != [] {
      var r := rs[0];
      GoodCovers(r);
      CountIsFree(rs[1..]);
      CountIsSize(r, r.Total());
      CountAllSet(r.bits, r.Total(), |r.bits| * WORD_BITS);
      forall p | p in FreeFrames(r) ensures p !in AllFree(rs[1..]) {
        FreeFramesIn(r, p);
        HeadApart(rs, p);
      }
    }
  }

  ghost predicate SameRegions(rs: seq<Region>, rs': seq<Region>) {
    |rs| == |rs'| && forall i :: 0 <= i < |rs| ==> rs'[i].start == rs[i].start && rs'[i].end == rs[i].end
  }

  lemma ReplaceHead(rs: seq<Region>, r: Region)
    requires GoodAll(rs) && rs != [] && Good(r) && r.start == rs[0].start && r.end == rs[0].end
    requires Frames(r) == Frames(rs[0])
    ensures var rs' := [r] + rs[1..];
      && GoodAll(rs') && AllFrames(rs') == AllFrames(rs) && SameRegions(rs, rs')
      && AllFree(rs') == FreeFrames(r) + AllFree(rs[1..])
  {
    var rs' := [r] + rs[1..];
    assert rs'[1..] == rs[1..];
  }

  lemma ReplaceTail(rs: seq<Region>, rest: seq<Region>)
    requires GoodAll(rs) && rs != [] && GoodAll(rest) && SameRegions(rs[1..], rest)
    requires AllFrames(rest) == AllFrames(rs[1..])
    ensures var rs' := [rs[0]] + rest;
      && GoodAll(rs') && AllFrames(rs') == AllFrames(rs) && SameRegions(rs, rs')
      && AllFree(rs') == FreeFrames(rs[0]) + AllFree(rest)
  {
    var rs' := [rs[0]] + rest;
    assert rs'[1..] == rest;
    forall r | r in rest ensures RegionsApart(rs[0], r) {
      var i :| 0 <= i < |rest| && rest[i] == r;
      assert rs[1..][i] in rs[1..];
    }
  }

  /** One frame: some free frame, only that one; `None` only when no region has one. */
  lemma {:induction false} AllocAnyStep(rs: seq<Region>)
    requires GoodAll(rs)
    ensures var (rs', a) := AllocAny(rs);
      && GoodAll(rs') && AllFrames(rs') == AllFrames(rs) && SameRegions(rs, rs')
      && match a
         case None => AllFree(rs) == {} && AllFree(rs') == {}
         case Some(p) => p in AllFree(rs) && AllFree(rs') == AllFree(rs) - {p}
  {
    if rs != [] {
      AllocOneStep(rs[0]);
      var (r, a) := AllocOne(rs[0]);
      if a.Some? {
        ReplaceHead(rs, r);
        FreeFramesIn(rs[0], a.value);
        HeadApart(rs, a.value);
      } else {
        AllocAnyStep(rs[1..]);
        ReplaceTail(rs, AllocAny(rs[1..]).0);
        assert AllFree(rs) == AllFree(rs[1..]);
      }
    }
  }

  /** The frame comes from the first region that has one, and is the lowest there. */
  lemma {:induction false} AllocAnyFirst(rs: seq<Region>) returns (k: nat)
    requires GoodAll(rs) && AllocAny(rs).1.Some?
    ensures k < |rs| && Good(rs[k]) && AllocAny(rs).1.value in FreeFrames(rs[k])
    ensures forall q :: q in FreeFrames(rs[k]) ==> AllocAny(rs).1.value <= q
    ensures forall j :: 0 <= j < k ==> Good(rs[j]) && FreeFrames(rs[j]) == {}
  {
    AllocOneStep(rs[0]);
    if AllocOne(rs[0]).1.Some? {
      k := 0;
    } else {
      var i := AllocAnyFirst(rs[1..]);
      k := i + 1;
      assert forall j :: 1 <= j <= k ==> rs[j] == rs[1..][j - 1];
    }
  }

  lemma RunApart(rs: seq<Region>, ps: seq<nat>, pages: nat)
    requires GoodAll(rs) && rs != [] && LeftmostRun(FreeFrames(rs[0]), ps, pages)
    ensures AsSet(ps) <= FreeFrames(rs[0]) && AsSet(ps) !! AllFree(rs[1..])
  {
    forall p | p in ps ensures p in FreeFrames(rs[0]) && p !in AllFree(rs[1..]) {
      var i :| 0 <= i < |ps| && ps[i] == p;
      assert ps[0] + i * PAGE_SIZE in FreeFrames(rs[0]);
      FreeFramesIn(rs[0], p);
      HeadApart(rs, p);
    }
  }

  lemma TailRunApart(rs: seq<Region>, ps: seq<nat>)
    requires GoodAll(rs) && rs != [] && AsSet(ps) <= AllFree(rs[1..])
    ensures AsSet(ps) !! FreeFrames(rs[0])
  {
    forall p | p in ps && p in FreeFrames(rs[0]) ensures false {
      assert p in AsSet(ps);
      FreeFramesIn(rs[0], p);
      HeadApart(rs, p);
    }
  }

  /** The leftmost run of the first region that has one; `None` only when no region has one. */
  lemma {:induction false} AllocMuchStep(rs: seq<Region>, pages: nat)
    requires GoodAll(rs) && pages > 0
    ensures var (rs', a) := AllocMuchAny(rs, pages);
      && GoodAll(rs') && AllFrames(rs') == AllFrames(rs) && SameRegions(rs, rs')
      && match a
         case None =>
           && AllFree(rs') == AllFree(rs)
           && forall r, q: nat :: r in rs && Good(r) ==> !FreeRun(FreeFrames(r), q, pages)
         case Some(ps) =>
           && AsSet(ps) <= AllFree(rs) && AllFree(rs') == AllFree(rs) - AsSet(ps)
           && exists r :: r in rs && Good(r) && LeftmostRun(FreeFrames(r), ps, pages)
  {
    if rs != [] {
      GoodCovers(rs[0]);
      AllocRunStep(rs[0], pages);
      var (r, a) := AllocRun(rs[0], pages);
      if a.Some? {
        ReplaceHead(rs, r);
        RunApart(rs, a.value, pages);
        assert rs[0] in rs;
      } else {
        AllocMuchStep(rs[1..], pages);
        var (rest, b) := AllocMuchAny(rs[1..], pages);
        ReplaceTail(rs, rest);
        if b.Some? {
          TailRun(rs, b.value, pages);
        }
      }
    }
  }

  lemma TailRun(rs: seq<Region>, ps: seq<nat>, pages: nat)
    requires GoodAll(rs) && rs != [] && AsSet(ps) <= AllFree(rs[1..])
    requires exists r :: r in rs[1..] && Good(r) && LeftmostRun(FreeFrames(r), ps, pages)
    ensures AsSet(ps) !! FreeFrames(rs[0])
    ensures exists r :: r in rs && Good(r) && LeftmostRun(FreeFrames(r), ps, pages)
  {
    var q :| q in rs[1..] && Good(q) && LeftmostRun(FreeFrames(q), ps, pages);
    assert q in rs;
    TailRunApart(rs, ps);
  }

  lemma {:induction false} AllocMuchZero(rs: seq<Region>)
    requires GoodAll(rs)
    ensures AllocMuchAny(rs, 0).0 == rs
    ensures AllocMuchAny(rs, 0).1.Some? ==> AllocMuchAny(rs, 0).1.value == []
  {
    if rs != [] {
      GoodCovers(rs[0]);
      AllocMuchZero(rs[1..]);
      assert [rs[0]] + rs[1..] == rs;
    }
  }

  /** An address outside a region lies in none of its frames. */
  lemma FrameElsewhere(r: Region, p: nat)
    requires Good(r)
    ensures FrameAt(p) in Frames(r) <==> r.start <= p < r.end
  {
    FreeFramesIn(r, FrameAt(p));
    FrameAtFacts(p);
    if r.start <= p < r.end {
      FreeOneStep(r, p);
    }
  }

  lemma {:induction false} FreeAnyStep(rs: seq<Region>, p: nat)
    requires GoodAll(rs) && FrameAt(p) in AllFrames(rs)
    ensures var rs' := FreeAny(rs, p);
      && GoodAll(rs') && AllFrames(rs') == AllFrames(rs) && SameRegions(rs, rs')
      && AllFree(rs') == AllFree(rs) + {FrameAt(p)}
  {
    FrameElsewhere(rs[0], p);
    if rs[0].start <= p < rs[0].end {
      FreeOneStep(rs[0], p);
      ReplaceHead(rs, FreeOne(rs[0], p));
    } else {
      FreeAnyStep(rs[1..], p);
      ReplaceTail(rs, FreeAny(rs[1..], p));
    }
  }

  /* ---------- Runs ---------- */

  /** `out` is the set of frames handed out and not yet released. */
  datatype Machine = Machine(regions: seq<Region>, mem: map<nat, Page>, out: set<nat>)

  datatype Op =
    | Take
    | TakeRun(pages: nat)
    | DropTracker(p: nat)      // clear, then release
    | PageDealloc(p: nat)      // release, then clear
    | Write(p: nat, c: Page)

  ghost predicate Inv(s: Machine) {
    && GoodAll(s.regions)
    && s.mem.Keys == AllFrames(s.regions)
    && s.out == AllFrames(s.regions) - AllFree(s.regions)
    && forall p :: p in AllFree(s.regions) && p in s.mem ==> s.mem[p] == ZeroPage()
  }

  /** At boot every frame of every region is free and zero, and none is out. */
  ghost predicate Boot(s: Machine) {
    && GoodAll(s.regions) && (forall r :: r in s.regions && Good(r) ==> FreeFrames(r) == Frames(r))
    && s.mem.Keys == AllFrames(s.regions) && s.out == {}
    && forall p :: p in s.mem ==> s.mem[p] == ZeroPage()
  }

  lemma {:induction false} AllFreeAtBoot(rs: seq<Region>)
    requires GoodAll(rs) && forall r :: r in rs && Good(r) ==> FreeFrames(r) == Frames(r)
    ensures AllFree(rs) == AllFrames(rs)
  {
    if rs != [] {
      assert rs[0] in rs && forall r :: r in rs[1..] ==> r in rs;
      AllFreeAtBoot(rs[1..]);
    }
  }

  lemma BootInv(s: Machine)
    requires Boot(s)
    ensures Inv(s)
  {
    AllFreeAtBoot(s.regions);
  }

  ghost predicate Legal(s: Machine, op: Op) {
    match op
    case Take => true
    case TakeRun(_) => true
    case DropTracker(p) => p in s.out
    case PageDealloc(p) => p in s.out
    case Write(p, _) => p in s.out
  }

  ghost function Step(s: Machine, op: Op): Machine
    requires Inv(s) && Legal(s, op)
  {
    match op
    case Take =>
      var (rs, a) := AllocAny(s.regions);
      s.(regions := rs, out := if a.Some? then s.out + {a.value} else s.out)
    case TakeRun(pages) =>
      var (rs, a) := AllocMuchAny(s.regions, pages);
      s.(regions := rs, out := if a.Some? then s.out + AsSet(a.value) else s.out)
    case DropTracker(p) =>
      var cleared := s.(mem := s.mem[p := ZeroPage()]);
      cleared.(regions := FreeAny(s.regions, p), out := s.out - {p})
    case PageDealloc(p) =>
      var released := s.(regions := FreeAny(s.regions, p), out := s.out - {p});
      released.(mem := released.mem[p := ZeroPage()])
    case Write(p, c) => s.(mem := s.mem[p := c])
  }

  lemma FreeWithinAll(rs: seq<Region>)
    requires GoodAll(rs)
    ensures AllFree(rs) <= AllFrames(rs)
  {
    forall p: nat | p in AllFree(rs) ensures p in AllFrames(rs) {
      AllFramesWithin(rs, p);
    }
  }

  lemma StepKeeps(s: Machine, op: Op)
    requires Inv(s) && Legal(s, op)
    ensures Inv(Step(s, op)) && SameRegions(s.regions, Step(s, op).regions)
    ensures AllFrames(Step(s, op).regions) == AllFrames(s.regions)
  {
    match op {
      case Take => TakeKeeps(s);
      case TakeRun(pages) => TakeRunKeeps(s, pages);
      case DropTracker(p) => ReleaseKeeps(s, p);
      case PageDealloc(p) => ReleaseKeeps(s, p);
      case Write(p, c) => SameRegionsRefl(s.regions);
    }
  }

  lemma SameRegionsRefl(rs: seq<Region>)
    ensures SameRegions(rs, rs)
  {
  }

  /** Frames leave the free set for the clients. */
  lemma GrantKeeps(s: Machine, rs: seq<Region>, given: set<nat>)
    requires Inv(s) && GoodAll(rs) && AllFrames(rs) == AllFrames(s.regions)
    requires given <= AllFree(s.regions) && AllFree(rs) == AllFree(s.regions) - given
    ensures Inv(s.(regions := rs, out := s.out + given))
  {
    FreeWithinAll(s.regions);
  }

  lemma TakeKeeps(s: Machine)
    requires Inv(s)
    ensures var t := Step(s, Take);
      Inv(t) && SameRegions(s.regions, t.regions) && AllFrames(t.regions) == AllFrames(s.regions)
  {
    AllocAnyStep(s.regions);
    var (rs, a) := AllocAny(s.regions);
    GrantKeeps(s, rs, if a.Some? then {a.value} else {});
    assert s.out + {} == s.out;
  }

  lemma TakeRunKeeps(s: Machine, pages: nat)
    requires Inv(s)
    ensures var t := Step(s, TakeRun(pages));
      Inv(t) && SameRegions(s.regions, t.regions) && AllFrames(t.regions) == AllFrames(s.regions)
  {
    var (rs, a) := AllocMuchAny(s.regions, pages);
    RunGiven(s.regions, pages);
    GrantKeeps(s, rs, Given(a));
    assert s.out + {} == s.out;
  }

  ghost function Given(a: Option<seq<nat>>): set<nat> {
    if a.Some? then AsSet(a.value) else {}
  }

  /** A request for a run, of no frames even, takes from the free set what it hands out. */
  lemma RunGiven(rs: seq<Region>, pages: nat)
    requires GoodAll(rs)
    ensures var (rs', a) := AllocMuchAny(rs, pages);
      && GoodAll(rs') && AllFrames(rs') == AllFrames(rs) && SameRegions(rs, rs')
      && Given(a) <= AllFree(rs) && AllFree(rs') == AllFree(rs) - Given(a)
  {
    if pages == 0 {
      AllocMuchZero(rs);
      SameRegionsRefl(rs);
    } else {
      AllocMuchStep(rs, pages);
    }
  }

  /** Whichever of clearing and releasing comes first. */
  lemma ReleaseKeeps(s: Machine, p: nat)
    requires Inv(s) && p in s.out
    ensures var t := s.(mem := s.mem[p := ZeroPage()], regions := FreeAny(s.regions, p), out := s.out - {p});
      Inv(t) && SameRegions(s.regions, t.regions) && AllFrames(t.regions) == AllFrames(s.regions)
  {
    AllFramesWithin(s.regions, p);
    FrameAtFacts(p);
    FreeAnyStep(s.regions, p);
    assert s.mem[p := ZeroPage()].Keys == s.mem.Keys;
  }

  ghost predicate LegalRun(s: Machine, ops: seq<Op>)
    requires Inv(s)
    decreases |ops|
  {
    ops != [] ==> Legal(s, ops[0]) && (StepKeeps(s, ops[0]); LegalRun(Step(s, ops[0]), ops[1..]))
  }

  ghost function Run(s: Machine, ops: seq<Op>): Machine
    requires Inv(s) && LegalRun(s, ops)
    decreases |ops|
  {
    if ops == [] then s else StepKeeps(s, ops[0]); Run(Step(s, ops[0]), ops[1..])
  }

  /**
    After every run: the frames out are frames of the regions, none of them is free, and
    `get_free_page_count` is the number of frames minus the number out.
  */
  lemma {:induction false} RunCounts(s: Machine, ops: seq<Op>)
    requires Inv(s) && LegalRun(s, ops)
    ensures var t := Run(s, ops);
      && Inv(t) && AllFrames(t.regions) == AllFrames(s.regions)
      && t.out <= AllFrames(s.regions) && t.out !! AllFree(t.regions)
      && FreeCount(t.regions) == |AllFrames(s.regions)| - |t.out|
    decreases |ops|
  {
    if ops == [] {
      CountIsFree(s.regions);
      FreeWithinAll(s.regions);
      assert AllFrames(s.regions) == s.out + AllFree(s.regions);
    } else {
      StepKeeps(s, ops[0]);
      RunCounts(Step(s, ops[0]), ops[1..]);
    }
  }

  /** In every state reached, a frame about to be handed out is zero and held by nobody. */
  lemma GrantsAreFreshAndZero(s: Machine, ops: seq<Op>, pages: nat)
    requires Inv(s) && LegalRun(s, ops)
    ensures Inv(Run(s, ops))
    ensures var t := Run(s, ops); var a := AllocAny(t.regions).1;
      a.Some? ==> a.value !in t.out && a.value in t.mem && t.mem[a.value] == ZeroPage()
    ensures var t := Run(s, ops); var a := AllocMuchAny(t.regions, pages).1;
      a.Some? ==> forall p :: p in a.value ==> p !in t.out && p in t.mem && t.mem[p] == ZeroPage()
  {
    RunCounts(s, ops);
    var t := Run(s, ops);
    AllocAnyStep(t.regions);
    if pages == 0 {
      AllocMuchZero(t.regions);
    } else {
      AllocMuchStep(t.regions, pages);
    }
    FreeWithinAll(t.regions);
    var a := AllocMuchAny(t.regions, pages).1;
    if a.Some? {
      forall p | p in a.value ensures p !in t.out && p in t.mem && t.mem[p] == ZeroPage() {
        assert p in AsSet(a.value);
      }
    }
  }

  /* ---------- The allocator object ---------- */

  class Allocator {
    var maps: seq<FrameRegionMap>

    ghost function Views(): seq<Region>
      reads this, maps
    {
      seq(|maps|, i requires 0 <= i < |maps| reads this, maps => maps[i].View())
    }

    ghost predicate Valid()
      reads this, maps
    {
      GoodAll(Views()) && forall i, j :: 0 <= i < j < |maps| ==> maps[i] != maps[j]
    }

    method GetFreePageCount() returns (sum: nat)
      requires Valid()
      ensures sum == FreeCount(Views()) == |AllFree(Views())|
    {
      ghost var rs := Views();
      CountIsFree(rs);
      sum := 0;
      for i := 0 to |maps|
        invariant sum + FreeCount(rs[i..]) == FreeCount(rs)
      {
        GoodAt(rs, i);
        assert rs[i..][1..] == rs[i + 1..];
        var n := maps[i].GetFreePageCount();
        sum := sum + n;
      }
    }

    /** The first region with a free frame serves the request. */
    method Alloc() returns (a: Option<nat>)
      requires Valid()
      modifies maps
      ensures maps == old(maps) && (Views(), a) == AllocAny(old(Views()))
    {
      ghost var rs := Views();
      var i := 0;
      while i < |maps|
        invariant 0 <= i <= |maps| && maps == old(maps) && Views() == rs
        invariant forall k :: 0 <= k < i ==> AllocOne(rs[k]).1.None?
      {
        GoodAt(rs, i);
        a := maps[i].Alloc();
        assert maps[i].View() == AllocOne(rs[i]).0;
        assert Views() == rs[i := AllocOne(rs[i]).0];
        if a.Some? {
          AllocAnyAt(rs, i);
          return;
        }
        i := i + 1;
      }
      AllocAnyNone(rs);
      return None;
    }

    /** The first region with a long enough run serves the request. */
    method AllocMuch(pages: nat) returns (a: Option<seq<nat>>)
      requires Valid()
      modifies maps
      ensures maps == old(maps) && (Views(), a) == AllocMuchAny(old(Views()), pages)
    {
      ghost var rs := Views();
      var i := 0;
      while i < |maps|
        invariant 0 <= i <= |maps| && maps == old(maps) && Views() == rs
        invariant forall k :: 0 <= k < i ==> Good(rs[k]) && NoRun(rs[k], pages)
      {
        GoodAt(rs, i);
        GoodCovers(rs[i]);
        a := maps[i].AllocMuch(pages);
        assert maps[i].View() == AllocRun(rs[i], pages).0;
        assert Views() == rs[i := AllocRun(rs[i], pages).0];
        if a.Some? {
          AllocMuchAt(rs, i, pages);
          return;
        }
        i := i + 1;
      }
      AllocMuchNone(rs, pages);
      return None;
    }

    /** The region containing the address, if any, takes the frame back. */
    method Dealloc(p: nat)
      requires Valid()
      modifies maps
      ensures maps == old(maps) && Views() == FreeAny(old(Views()), p)
    {
      ghost var rs := Views();
      var i := 0;
      while i < |maps|
        invariant 0 <= i <= |maps| && maps == old(maps) && Views() == rs
        invariant forall k :: 0 <= k < i ==> !(rs[k].start <= p < rs[k].end)
      {
        if maps[i].paddr <= p < maps[i].paddrEnd {
          GoodAt(rs, i);
          FreeAnyAt(rs, i, p);
          maps[i].Release(p);
          assert Views() == rs[i := FreeOne(rs[i], p)];
          return;
        }
        i := i + 1;
      }
      FreeAnyNone(rs, p);
    }
  }

  lemma {:induction false} AllocAnyAt(rs: seq<Region>, i: nat)
    requires i < |rs| && AllocOne(rs[i]).1.Some? && forall k :: 0 <= k < i ==> AllocOne(rs[k]).1.None?
    ensures AllocAny(rs) == (rs[i := AllocOne(rs[i]).0], AllocOne(rs[i]).1)
  {
    if i > 0 {
      AllocAnyAt(rs[1..], i - 1);
      assert AllocOne(rs[0]).1.None?;
      assert [rs[0]] + rs[1..][i - 1 := AllocOne(rs[i]).0] == rs[i := AllocOne(rs[i]).0];
    } else {
      assert [AllocOne(rs[0]).0] + rs[1..] == rs[0 := AllocOne(rs[0]).0];
    }
  }

  lemma {:induction false} AllocAnyNone(rs: seq<Region>)
    requires forall k :: 0 <= k < |rs| ==> AllocOne(rs[k]).1.None?
    ensures AllocAny(rs) == (rs, None)
  {
    if rs != [] {
      assert AllocOne(rs[0]).1.None?;
      AllocAnyNone(rs[1..]);
      assert [rs[0]] + rs[1..] == rs;
    }
  }

  ghost predicate NoRun(r: Region, pages: nat)
    requires Good(r)
  {
    GoodCovers(r);
    AllocRun(r, pages).1.None?
  }

  lemma {:induction false} AllocMuchAt(rs: seq<Region>, i: nat, pages: nat)
    requires GoodAll(rs) && i < |rs| && Good(rs[i]) && !NoRun(rs[i], pages)
    requires forall k :: 0 <= k < i ==> Good(rs[k]) && NoRun(rs[k], pages)
    ensures rs[i].Total() <= |rs[i].bits| * WORD_BITS
    ensures AllocMuchAny(rs, pages) == (rs[i := AllocRun(rs[i], pages).0], AllocRun(rs[i], pages).1)
  {
    GoodCovers(rs[i]);
    if i > 0 {
      assert NoRun(rs[0], pages);
      AllocMuchAt(rs[1..], i - 1, pages);
      assert [rs[0]] + rs[1..][i - 1 := AllocRun(rs[i], pages).0] == rs[i := AllocRun(rs[i], pages).0];
    } else {
      assert [AllocRun(rs[0], pages).0] + rs[1..] == rs[0 := AllocRun(rs[0], pages).0];
    }
  }

  lemma {:induction false} AllocMuchNone(rs: seq<Region>, pages: nat)
    requires GoodAll(rs)
    requires forall k :: 0 <= k < |rs| ==> Good(rs[k]) && NoRun(rs[k], pages)
    ensures AllocMuchAny(rs, pages) == (rs, None)
  {
    if rs != [] {
      assert NoRun(rs[0], pages);
      AllocMuchNone(rs[1..], pages);
      assert [rs[0]] + rs[1..] == rs;
    }
  }

  lemma {:induction false} FreeAnyAt(rs: seq<Region>, i: nat, p: nat)
    requires GoodAll(rs) && i < |rs| && rs[i].start <= p < rs[i].end && Good(rs[i])
    requires forall k :: 0 <= k < i ==> !(rs[k].start <= p < rs[k].end)
    ensures p / PAGE_SIZE - rs[i].start / PAGE_SIZE < |rs[i].bits| * WORD_BITS
    ensures FreeAny(rs, p) == rs[i := FreeOne(rs[i], p)]
  {
    FreeOneStep(rs[i], p);
    if i > 0 {
      FreeAnyAt(rs[1..], i - 1, p);
      assert !(rs[0].start <= p < rs[0].end);
      assert [rs[0]] + rs[1..][i - 1 := FreeOne(rs[i], p)] == rs[i := FreeOne(rs[i], p)];
    } else {
      assert [FreeOne(rs[0], p)] + rs[1..] == rs[0 := FreeOne(rs[0], p)];
    }
  }

  lemma {:induction false} FreeAnyNone(rs: seq<Region>, p: nat)
    requires GoodAll(rs)
    requires forall k :: 0 <= k < |rs| ==> !(rs[k].start <= p < rs[k].end)
    ensures FreeAny(rs, p) == rs
  {
    if rs != [] {
      FreeAnyNone(rs[1..], p);
    }
  }

  lemma {:induction false} GoodAt(rs: seq<Region>, i: nat)
    requires GoodAll(rs) && i < |rs|
    ensures Good(rs[i]) && GoodAll(rs[i..]) && GoodAll(rs[i + 1..])
  {
    if i == 0 {
      assert rs[0..] == rs;
    } else {
      GoodAt(rs[1..], i - 1);
      assert rs[1..][i - 1..] == rs[i..] && rs[1..][i..] == rs[i + 1..];
    }
  }
}
