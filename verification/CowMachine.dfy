/**
  Copy-on-write processes: `cow_fork`, the branch of `user_cow_int` that finds an area, mapping,
  unmapping and exit, over any number of processes sharing one frame store.
  (kernel/src/tasks/task.rs, kernel/src/user/mod.rs, crates/runtime/src/frame.rs)
*/
module CowMachine {
  import opened Wrappers
  import opened Bytes
  import opened MemAreas
  import opened TrackedMemory

  type Offset = o: nat | o < PAGE_SIZE

  /** `segv` records that the handler has queued SIGSEGV for the process. */
  datatype Process = Process(areas: seq<MemArea>, pt: map<nat, Pte>, alive: bool, segv: bool)

  /**
    `refs[f]` is the strong count of the `Arc<FrameTracker>` owning frame `f`; `free` holds the
    frames the allocator may hand out.
  */
  datatype System = System(procs: seq<Process>, refs: multiset<Frame>, mem: map<Frame, Page>, free: set<Frame>)

  datatype Op =
    | Fork(pid: nat)
    | Fault(pid: nat, addr: nat, answer: Option<Frame>)
    | Store(pid: nat, addr: nat, b: Byte)
    | Exit(pid: nat)
    | MapAnon(pid: nat, start: nat, len: nat)
    | MapFrames(pid: nat, kind: MemType, start: nat, frames: seq<Frame>, prot: Prot)
    | Unmap(pid: nat, lo: nat, hi: nat)

  /* ---------- Reference counts ---------- */

  function AllOwned(procs: seq<Process>): multiset<Frame> {
    if procs == [] then multiset{}
    else AllOwned(procs[..|procs| - 1]) + Owned(procs[|procs| - 1].areas)
  }

  function Unreferenced(gone: multiset<Frame>, left: multiset<Frame>): set<Frame> {
    set f | f in gone && left[f] == 0
  }

  function ClearFrames(mem: map<Frame, Page>, dead: set<Frame>): map<Frame, Page> {
    map f | f in mem :: if f in dead then ZeroPage() else mem[f]
  }

  /**
    Dropping references: a frame whose count reaches zero is cleared and goes back to the
    allocator, as `FrameTracker::drop` does.
  */
  function Release(s: System, gone: multiset<Frame>): System {
    var left := s.refs - gone;
    var dead := Unreferenced(gone, left);
    System(s.procs, left, ClearFrames(s.mem, dead), s.free + dead)
  }

  /* ---------- Steps ---------- */

  function ForkStep(s: System, pid: nat): System
    requires pid < |s.procs|
  {
    var p := s.procs[pid];
    var child := Process(p.areas, MapAreas(map[], p.areas), true, false);
    s.(procs := s.procs[pid := p.(pt := MapAreas(p.pt, p.areas))] + [child],
       refs := s.refs + Owned(p.areas))
  }

  function FaultProt(mtype: MemType, addr: nat): Prot {
    Prot(true, true, !(mtype == Mmap && addr >= 0x200000000))
  }

  function Segv(s: System, pid: nat): System
    requires pid < |s.procs|
  {
    s.(procs := s.procs[pid := s.procs[pid].(segv := true)])
  }

  function PageOf(mem: map<Frame, Page>, f: Frame): Page {
    if f in mem then mem[f] else ZeroPage()
  }

  /** Copy the shared frame `src` of page `v` into `dst` and own the copy alone. */
  function CopyPage(s: System, pid: nat, v: nat, src: Frame, dst: Frame, prot: Prot): System
    requires pid < |s.procs|
  {
    var p := s.procs[pid];
    var q := p.(areas := Retrack(p.areas, v, dst), pt := p.pt[v := Pte(dst, prot)]);
    System(s.procs[pid := q],
           s.refs - multiset{src} + multiset{dst},
           s.mem[dst := PageOf(s.mem, src)],
           s.free - {dst})
  }

  /** The page is already owned alone: map it writable again. */
  function RemapPage(s: System, pid: nat, v: nat, f: Frame, prot: Prot): System
    requires pid < |s.procs|
  {
    s.(procs := s.procs[pid := s.procs[pid].(pt := s.procs[pid].pt[v := Pte(f, prot)])])
  }

  /** First touch of a page: track a frame as the allocator hands it out. */
  function FreshPage(s: System, pid: nat, v: nat, f: Frame, prot: Prot): System
    requires pid < |s.procs|
  {
    var p := s.procs[pid];
    var q := p.(areas := Track(p.areas, MapTrack(v, f, 7)), pt := p.pt[v := Pte(f, prot)]);
    System(s.procs[pid := q], s.refs + multiset{f}, s.mem, s.free - {f})
  }

  /** `user_cow_int` at an address inside some area. */
  function FaultStep(s: System, pid: nat, addr: nat, answer: Option<Frame>): System
    requires pid < |s.procs|
    requires FindArea(s.procs[pid].areas, addr).Some?
  {
    var area := FindArea(s.procs[pid].areas, addr).value;
    var v := Floor(addr);
    var prot := FaultProt(area.mtype, addr);
    match FindTrack(area.mtrackers, v)
    case Some(t) =>
      if area.mtype == Shared then Segv(s, pid)
      else if s.refs[t.frame] > 1 then
        if answer.None? then Segv(s, pid)
        else CopyPage(s, pid, v, t.frame, answer.value, prot)
      else RemapPage(s, pid, v, t.frame, prot)
    case None =>
      if |s.free| < 10 || answer.None? then Segv(s, pid)
      else FreshPage(s, pid, v, answer.value, prot)
  }

  function StoreStep(s: System, pid: nat, addr: nat, b: Byte): System
    requires pid < |s.procs| && Floor(addr) in s.procs[pid].pt
  {
    var f := s.procs[pid].pt[Floor(addr)].frame;
    s.(mem := s.mem[f := PageOf(s.mem, f)[addr % PAGE_SIZE := b]])
  }

  function ExitStep(s: System, pid: nat): System
    requires pid < |s.procs|
  {
    var p := s.procs[pid];
    Release(s.(procs := s.procs[pid := p.(areas := [], alive := false)]), Owned(p.areas))
  }

  function MapAnonStep(s: System, pid: nat, start: nat, len: nat): System
    requires pid < |s.procs|
  {
    var p := s.procs[pid];
    s.(procs := s.procs[pid := p.(areas := p.areas + [MemArea(Mmap, [], None, 0, start, len)])])
  }

  function FrameSet(frames: seq<Frame>): set<Frame> {
    set f | f in frames
  }

  /** `map_frames` and `frame_alloc`: every page gets its frame and its mapping at once. */
  function MapFramesStep(s: System, pid: nat, kind: MemType, start: nat, frames: seq<Frame>, prot: Prot): System
    requires pid < |s.procs|
  {
    var p := s.procs[pid];
    var ts := TracksFrom(start, frames);
    var area := MemArea(kind, ts, None, 0, start, |frames| * PAGE_SIZE);
    s.(procs := s.procs[pid := p.(areas := p.areas + [area], pt := MapTracks(p.pt, ts, prot))],
       refs := s.refs + multiset(frames),
       free := s.free - FrameSet(frames))
  }

  function UnmapStep(s: System, pid: nat, lo: nat, hi: nat): System
    requires pid < |s.procs| && lo <= hi
  {
    var p := s.procs[pid];
    var q := p.(areas := SubArea(p.areas, lo, hi), pt := p.pt - SubUnmapped(p.areas, lo, hi));
    Release(s.(procs := s.procs[pid := q]), FramesOf(KeepTracks(AllTracks(p.areas), lo, hi)))
  }

  /** A live process, and an allocator that answers `None` only when it has no frame. */
  ghost predicate Legal(s: System, op: Op) {
    && op.pid < |s.procs| && s.procs[op.pid].alive
    && var p := s.procs[op.pid];
       match op
       case Fork(_) => true
       case Fault(_, addr, answer) =>
         && FindArea(p.areas, addr).Some?
         && (if answer.Some? then answer.value in s.free else s.free == {})
       case Store(_, addr, _) => Floor(addr) in p.pt && p.pt[Floor(addr)].prot.write
       case Exit(_) => true
       case MapAnon(_, start, len) =>
         start % PAGE_SIZE == 0 && len % PAGE_SIZE == 0 && len > 0 && FreeRange(p.areas, start, start + len)
       case MapFrames(_, kind, start, frames, _) =>
         && (kind == Shared || kind == Mmap || kind == CodeSection)
         && start > 0 && start % PAGE_SIZE == 0 && |frames| > 0
         && (forall f :: f in frames ==> f in s.free)
         && (forall i, j :: 0 <= i < j < |frames| ==> frames[i] != frames[j])
         && FreeRange(p.areas, start, start + |frames| * PAGE_SIZE)
       case Unmap(_, lo, hi) =>
         lo <= hi && lo % PAGE_SIZE == 0 && hi % PAGE_SIZE == 0 && NoLostTracks(p.areas, lo, hi)
  }

  ghost function Step(s: System, op: Op): System
    requires Legal(s, op)
  {
    match op
    case Fork(pid) => ForkStep(s, pid)
    case Fault(pid, addr, answer) => FaultStep(s, pid, addr, answer)
    case Store(pid, addr, b) => StoreStep(s, pid, addr, b)
    case Exit(pid) => ExitStep(s, pid)
    case MapAnon(pid, start, len) => MapAnonStep(s, pid, start, len)
    case MapFrames(pid, kind, start, frames, prot) => MapFramesStep(s, pid, kind, start, frames, prot)
    case Unmap(pid, lo, hi) => UnmapStep(s, pid, lo, hi)
  }

  /* ---------- Invariant ---------- */

  /** The tracker of page `v` in process `i`. */
  function Slot(s: System, i: nat, v: nat): Option<MapTrack>
    requires i < |s.procs|
  {
    TrackAt(s.procs[i].areas, v)
  }

  predicate SharedAt(s: System, i: nat, v: nat)
    requires i < |s.procs|
  {
    KindAt(s.procs[i].areas, v) == Some(Shared)
  }

  ghost predicate GoodProcs(s: System) {
    forall i :: 0 <= i < |s.procs| ==>
      GoodAreas(s.procs[i].areas) && (!s.procs[i].alive ==> s.procs[i].areas == [])
  }

  /** Counts are exact; every frame is either free and zero, or owned; nothing leaks. */
  ghost predicate Accounts(s: System) {
    && s.refs == AllOwned(s.procs)
    && s.free <= s.mem.Keys
    && (forall f :: f in s.free ==> s.mem[f] == ZeroPage())
    && (forall f :: f in s.mem ==> (f in s.free <==> s.refs[f] == 0))
    && (forall f :: f in s.refs ==> f in s.mem)
  }

  /** The page table of a live process maps only tracked pages, each to its tracker's frame. */
  ghost predicate PtTracked(s: System) {
    forall i, v :: 0 <= i < |s.procs| && s.procs[i].alive && v in s.procs[i].pt ==>
      Slot(s, i, v).Some? && Slot(s, i, v).value.frame == s.procs[i].pt[v].frame
  }

  /** A writable private page's frame has exactly one tracker. */
  ghost predicate WritableIsSole(s: System) {
    forall i, v ::
      (0 <= i < |s.procs| && s.procs[i].alive && v in s.procs[i].pt
       && s.procs[i].pt[v].prot.write && !SharedAt(s, i, v))
      ==> s.refs[s.procs[i].pt[v].frame] == 1
  }

  /** No frame is tracked both by a shared and by a private area. */
  ghost predicate KindsAgree(s: System) {
    forall i, v: nat, j, u: nat ::
      (0 <= i < |s.procs| && 0 <= j < |s.procs| && Slot(s, i, v).Some? && Slot(s, j, u).Some?
       && Slot(s, i, v).value.frame == Slot(s, j, u).value.frame)
      ==> SharedAt(s, i, v) == SharedAt(s, j, u)
  }

  ghost predicate Inv(s: System) {
    GoodProcs(s) && Accounts(s) && PtTracked(s) && WritableIsSole(s) && KindsAgree(s)
  }

  /* ---------- The machine that copies eagerly ---------- */

  /** One byte of a process: absent, its own, or one byte of a shared object. */
  datatype Cell = Unmapped | Private(b: Byte) | SharedByte(obj: Frame, off: Offset)

  /** No frames, no page tables, no counts: each process has its own total memory. */
  datatype Eager = Eager(procs: seq<imap<nat, Cell>>, objs: imap<Frame, Page>)

  ghost predicate EagerTotal(e: Eager) {
    && (forall i, a: nat :: 0 <= i < |e.procs| ==> a in e.procs[i])
    && (forall f: Frame :: f in e.objs)
  }

  /** `cells` with `[lo, hi)` removed. */
  ghost function Erase(cells: imap<nat, Cell>, lo: nat, hi: nat): imap<nat, Cell> {
    imap a | a in cells :: if lo <= a < hi then Unmapped else cells[a]
  }

  /** `cells` with zero bytes over `[lo, hi)`. */
  ghost function ZeroCells(cells: imap<nat, Cell>, lo: nat, hi: nat): imap<nat, Cell> {
    imap a | a in cells :: if lo <= a < hi then Private(0) else cells[a]
  }

  /** `cells` with the shared objects `frames` laid out from `start`. */
  ghost function Shares(cells: imap<nat, Cell>, start: nat, frames: seq<Frame>): imap<nat, Cell> {
    imap a | a in cells :: SharedOver(cells[a], start, frames, a)
  }

  function SharedOver(c: Cell, start: nat, frames: seq<Frame>, a: nat): Cell {
    if start <= a < start + |frames| * PAGE_SIZE
    then SharedByte(frames[(a - start) / PAGE_SIZE], a % PAGE_SIZE)
    else c
  }

  ghost function NewObjects(objs: imap<Frame, Page>, frames: seq<Frame>): imap<Frame, Page> {
    imap f | f in objs :: if f in frames then ZeroPage() else objs[f]
  }

  ghost function NoCells(cells: imap<nat, Cell>): imap<nat, Cell> {
    imap a | a in cells :: Unmapped
  }

  /** What each operation means when fork copies every private byte at once. */
  ghost function EagerStep(e: Eager, op: Op): Eager
    requires EagerTotal(e) && op.pid < |e.procs|
  {
    var cells := e.procs[op.pid];
    match op
    case Fork(_) => Eager(e.procs + [cells], e.objs)
    case Fault(_, _, _) => e
    case Store(pid, addr, b) =>
      (match cells[addr]
       case Private(_) => Eager(e.procs[pid := cells[addr := Private(b)]], e.objs)
       case SharedByte(f, o) => Eager(e.procs, e.objs[f := e.objs[f][o := b]])
       case Unmapped => e)
    case Exit(pid) => Eager(e.procs[pid := NoCells(cells)], e.objs)
    case MapAnon(pid, start, len) => Eager(e.procs[pid := ZeroCells(cells, start, start + len)], e.objs)
    case MapFrames(pid, kind, start, frames, _) =>
      if kind == Shared then Eager(e.procs[pid := Shares(cells, start, frames)], NewObjects(e.objs, frames))
      else Eager(e.procs[pid := ZeroCells(cells, start, start + |frames| * PAGE_SIZE)], e.objs)
    case Unmap(pid, lo, hi) => Eager(e.procs[pid := Erase(cells, lo, hi)], e.objs)
  }

  function EagerLoad(e: Eager, i: nat, a: nat): Option<Byte>
    requires i < |e.procs| && a in e.procs[i]
    requires e.procs[i][a].SharedByte? ==> e.procs[i][a].obj in e.objs
  {
    match e.procs[i][a]
    case Unmapped => None
    case Private(b) => Some(b)
    case SharedByte(f, o) => Some(e.objs[f][o])
  }

  /* ---------- The memory a process sees ---------- */

  function CellAt(areas: seq<MemArea>, mem: map<Frame, Page>, a: nat): Cell {
    match KindAt(areas, a)
    case None => Unmapped
    case Some(kind) =>
      match TrackAt(areas, Floor(a))
      case None => Private(0)
      case Some(t) =>
        if kind == Shared then SharedByte(t.frame, a % PAGE_SIZE)
        else Private(PageOf(mem, t.frame)[a % PAGE_SIZE])
  }

  /** One byte of one process agrees with the eager machine. */
  ghost predicate ByteAgrees(s: System, e: Eager, i: nat, a: nat)
    requires EagerTotal(e) && i < |s.procs| && |e.procs| == |s.procs|
  {
    && e.procs[i][a] == CellAt(s.procs[i].areas, s.mem, a)
    && (e.procs[i][a].SharedByte? ==>
          var c := e.procs[i][a];
          c.obj in s.mem && e.objs[c.obj][c.off] == s.mem[c.obj][c.off])
  }

  ghost predicate Refines(s: System, e: Eager) {
    && EagerTotal(e)
    && |e.procs| == |s.procs|
    && (forall i, a: nat :: 0 <= i < |s.procs| ==> ByteAgrees(s, e, i, a))
  }

  /* ---------- Counting owners ---------- */

  lemma AddBoth(a: multiset<Frame>, b: multiset<Frame>, x: multiset<Frame>, y: multiset<Frame>, z: multiset<Frame>)
    requires a + x == b + y
    ensures (a + z) + x == (b + z) + y
  {
    forall f ensures ((a + z) + x)[f] == ((b + z) + y)[f] {
      assert (a + x)[f] == (b + y)[f];
    }
  }

  lemma {:induction false} AllOwnedUpdate(procs: seq<Process>, i: nat, p: Process)
    requires i < |procs|
    ensures AllOwned(procs[i := p]) + Owned(procs[i].areas) == AllOwned(procs) + Owned(p.areas)
  {
    var n := |procs| - 1;
    if i == n {
      assert procs[i := p][..n] == procs[..n];
    } else {
      assert procs[i := p][..n] == procs[..n][i := p];
      AllOwnedUpdate(procs[..n], i, p);
      assert procs[..n][i] == procs[i];
      assert AllOwned(procs[i := p]) == AllOwned(procs[..n][i := p]) + Owned(procs[n].areas);
      AddBoth(AllOwned(procs[..n][i := p]), AllOwned(procs[..n]),
              Owned(procs[i].areas), Owned(p.areas), Owned(procs[n].areas));
    }
  }

  lemma {:induction false} AllOwnedHas(procs: seq<Process>, i: nat)
    requires i < |procs|
    ensures Owned(procs[i].areas) <= AllOwned(procs)
  {
    var n := |procs| - 1;
    if i < n {
      assert procs[..n][i] == procs[i];
      AllOwnedHas(procs[..n], i);
    }
  }

  lemma {:induction false} AllOwnedHasBoth(procs: seq<Process>, i: nat, j: nat)
    requires i < j < |procs|
    ensures Owned(procs[i].areas) + Owned(procs[j].areas) <= AllOwned(procs)
  {
    var n := |procs| - 1;
    var rest, last := procs[..n], Owned(procs[n].areas);
    assert rest[i] == procs[i];
    if j == n {
      AllOwnedHas(rest, i);
      GrowBoth(Owned(procs[i].areas), AllOwned(rest), last);
    } else {
      assert rest[j] == procs[j];
      AllOwnedHasBoth(rest, i, j);
      GrowRight(Owned(procs[i].areas) + Owned(procs[j].areas), AllOwned(rest), last);
    }
  }

  lemma GrowBoth(a: multiset<Frame>, b: multiset<Frame>, c: multiset<Frame>)
    requires a <= b
    ensures a + c <= b + c
  {
  }

  lemma GrowRight(a: multiset<Frame>, b: multiset<Frame>, c: multiset<Frame>)
    requires a <= b
    ensures a <= b + c
  {
  }

  lemma {:induction false} FoundIsOwned(ts: seq<MapTrack>, v: nat)
    requires FindTrack(ts, v).Some?
    ensures FindTrack(ts, v).value.frame in FramesOf(ts)
  {
    if ts[0].vaddr != v {
      FoundIsOwned(ts[1..], v);
    }
  }

  lemma {:induction false} FoundTwice(ts: seq<MapTrack>, v: nat, u: nat, f: Frame)
    requires u != v
    requires FindTrack(ts, v).Some? && FindTrack(ts, v).value.frame == f
    requires FindTrack(ts, u).Some? && FindTrack(ts, u).value.frame == f
    ensures FramesOf(ts)[f] >= 2
  {
    if ts[0].vaddr == v {
      FoundIsOwned(ts[1..], u);
    } else if ts[0].vaddr == u {
      FoundIsOwned(ts[1..], v);
    } else {
      FoundTwice(ts[1..], v, u, f);
    }
  }

  lemma SlotIsOwned(s: System, i: nat, v: nat)
    requires i < |s.procs| && Slot(s, i, v).Some?
    ensures Slot(s, i, v).value.frame in Owned(s.procs[i].areas)
    ensures Slot(s, i, v).value.frame in AllOwned(s.procs)
  {
    FoundIsOwned(AllTracks(s.procs[i].areas), v);
    AllOwnedHas(s.procs, i);
  }

  /** Two different slots holding the same frame make its count at least two. */
  lemma TwoSlotsTwoRefs(s: System, i: nat, v: nat, j: nat, u: nat)
    requires i < |s.procs| && j < |s.procs| && (i != j || v != u)
    requires Slot(s, i, v).Some? && Slot(s, j, u).Some?
    requires Slot(s, i, v).value.frame == Slot(s, j, u).value.frame
    ensures AllOwned(s.procs)[Slot(s, i, v).value.frame] >= 2
  {
    SlotIsOwned(s, i, v);
    SlotIsOwned(s, j, u);
    if i == j {
      FoundTwice(AllTracks(s.procs[i].areas), v, u, Slot(s, i, v).value.frame);
      AllOwnedHas(s.procs, i);
    } else if i < j {
      AllOwnedHasBoth(s.procs, i, j);
    } else {
      AllOwnedHasBoth(s.procs, j, i);
    }
  }

  /** A slot's area kind: tracked pages are always inside an area. */
  lemma SlotHasKind(s: System, i: nat, v: nat)
    requires i < |s.procs| && GoodAreas(s.procs[i].areas) && Slot(s, i, v).Some?
    ensures KindAt(s.procs[i].areas, v).Some?
  {
    TrackLivesInArea(s.procs[i].areas, v);
  }
}
