/**
  The copy-on-write operations as the kernel runs them: fields updated step by step, trackers
  mapped and dropped one at a time.  Each method is proved equal to the step of CowMachine whose
  effect over whole runs CowSafety establishes.
*/
module CowKernel {
  import opened Wrappers
  import opened Bytes
  import opened MemAreas
  import opened TrackedMemory
  import opened CowMachine
  import opened CowSafety

  /* ---------- Dropping references one at a time ---------- */

  lemma ReleaseOneMore(s: System, gone: multiset<Frame>, f: Frame)
    requires gone + multiset{f} <= s.refs
    ensures Release(Release(s, gone), multiset{f}) == Release(s, gone + multiset{f})
  {
    var left := s.refs - gone;
    RemoveTwice(s.refs, gone, f);
    var d1, d2 := Unreferenced(gone, left), Unreferenced(multiset{f}, left - multiset{f});
    ClearTwice(s.mem, d1, d2);
    assert s.free + d1 + d2 == s.free + (d1 + d2);
  }

  lemma RemoveTwice(refs: multiset<Frame>, gone: multiset<Frame>, f: Frame)
    requires gone + multiset{f} <= refs
    ensures refs - gone - multiset{f} == refs - (gone + multiset{f})
    ensures Unreferenced(gone, refs - gone) + Unreferenced(multiset{f}, refs - gone - multiset{f})
            == Unreferenced(gone + multiset{f}, refs - (gone + multiset{f}))
  {
    forall g ensures (gone + multiset{f})[g] <= refs[g] {
    }
  }

  lemma ClearTwice(mem: map<Frame, Page>, a: set<Frame>, b: set<Frame>)
    ensures ClearFrames(ClearFrames(mem, a), b) == ClearFrames(mem, a + b)
  {
  }

  lemma FramesPrefix(ts: seq<MapTrack>, i: nat)
    requires i < |ts|
    ensures FramesOf(ts[..i + 1]) == FramesOf(ts[..i]) + multiset{ts[i].frame}
  {
    assert ts[..i + 1] == ts[..i] + [ts[i]];
    FramesConcat(ts[..i], [ts[i]]);
    assert [ts[i]][1..] == [];
  }

  lemma FramesPrefixWithin(ts: seq<MapTrack>, i: nat)
    requires i <= |ts|
    ensures FramesOf(ts[..i]) <= FramesOf(ts)
  {
    assert ts == ts[..i] + ts[i..];
    FramesConcat(ts[..i], ts[i..]);
  }

  lemma ReleaseNone(s: System)
    ensures Release(s, multiset{}) == s
  {
    assert s.refs - multiset{} == s.refs;
    assert Unreferenced(multiset{}, s.refs) == {};
    assert ClearFrames(s.mem, {}) == s.mem;
  }

  lemma ReleaseNext(s: System, ts: seq<MapTrack>, i: nat)
    requires i < |ts| && FramesOf(ts) <= s.refs
    ensures ts[i].frame in Release(s, FramesOf(ts[..i])).refs
    ensures Release(Release(s, FramesOf(ts[..i])), multiset{ts[i].frame}) == Release(s, FramesOf(ts[..i + 1]))
  {
    FramesPrefix(ts, i);
    FramesPrefixWithin(ts, i + 1);
    var sum := FramesOf(ts[..i]) + multiset{ts[i].frame};
    assert sum[ts[i].frame] <= s.refs[ts[i].frame];
    ReleaseOneMore(s, FramesOf(ts[..i]), ts[i].frame);
  }

  /* ---------- Updating a tracker through its position ---------- */

  lemma {:induction false} SetFrameAtIndex(ts: seq<MapTrack>, n: nat, v: nat, f: Frame)
    requires n < |ts| && ts[n].vaddr == v && forall i :: 0 <= i < n ==> ts[i].vaddr != v
    ensures SetFrame(ts, v, f) == ts[n := ts[n].(frame := f)]
  {
    if n > 0 {
      SetFrameAtIndex(ts[1..], n - 1, v, f);
      assert ts[n := ts[n].(frame := f)] == [ts[0]] + ts[1..][n - 1 := ts[n].(frame := f)];
    } else {
      assert ts[0 := ts[0].(frame := f)] == [ts[0].(frame := f)] + ts[1..];
    }
  }

  ghost predicate FirstAt(areas: seq<MemArea>, k: nat, v: nat) {
    k < |areas| && areas[k].Contains(v) && forall i :: 0 <= i < k ==> !areas[i].Contains(v)
  }

  lemma FirstOfPage(areas: seq<MemArea>, k: nat, addr: nat)
    requires forall b :: b in areas ==> PageAligned(b)
    requires FirstAt(areas, k, addr)
    ensures FirstAt(areas, k, Floor(addr))
  {
    forall i | 0 <= i <= k ensures areas[i].Contains(Floor(addr)) == areas[i].Contains(addr) {
      assert areas[i] in areas;
      AlignedContains(areas[i], addr);
    }
  }

  lemma {:induction false} RetrackAtIndex(areas: seq<MemArea>, k: nat, v: nat, f: Frame)
    requires FirstAt(areas, k, v)
    ensures Retrack(areas, v, f)
            == areas[k := areas[k].(mtrackers := SetFrame(areas[k].mtrackers, v, f))]
  {
    var b := areas[k].(mtrackers := SetFrame(areas[k].mtrackers, v, f));
    if k > 0 {
      RetrackAtIndex(areas[1..], k - 1, v, f);
      assert areas[k := b] == [areas[0]] + areas[1..][k - 1 := b];
    } else {
      assert areas[0 := b] == [b] + areas[1..];
    }
  }

  lemma {:induction false} TrackAtIndex(areas: seq<MemArea>, k: nat, t: MapTrack)
    requires FirstAt(areas, k, t.vaddr)
    ensures Track(areas, t) == areas[k := areas[k].(mtrackers := areas[k].mtrackers + [t])]
  {
    var b := areas[k].(mtrackers := areas[k].mtrackers + [t]);
    if k > 0 {
      TrackAtIndex(areas[1..], k - 1, t);
      assert areas[k := b] == [areas[0]] + areas[1..][k - 1 := b];
    } else {
      assert areas[0 := b] == [b] + areas[1..];
    }
  }

  class Kernel {
    var procs: seq<Process>
    var refs: multiset<Frame>
    var mem: map<Frame, Page>
    var free: set<Frame>

    function View(): System
      reads this
    {
      System(procs, refs, mem, free)
    }

    ghost predicate Valid()
      reads this
    {
      Inv(View())
    }

    /** The frame allocator hands out some free frame, or `None` when there is none. */
    method FrameAlloc() returns (r: Option<Frame>)
      ensures if r.Some? then r.value in free else free == {}
    {
      if free == {} {
        return None;
      }
      var f :| f in free;
      return Some(f);
    }

    /** `FrameTracker::drop` behind an `Arc`: the last reference clears the frame and frees it. */
    method DropTracker(f: Frame)
      requires f in refs
      modifies this`refs, this`mem, this`free
      ensures View() == Release(old(View()), multiset{f})
    {
      refs := refs - multiset{f};
      if refs[f] == 0 {
        if f in mem {
          mem := mem[f := ZeroPage()];
        }
        free := free + {f};
      }
    }

    method DropTrackers(ts: seq<MapTrack>)
      requires FramesOf(ts) <= refs
      modifies this`refs, this`mem, this`free
      ensures View() == Release(old(View()), FramesOf(ts))
    {
      ghost var s := View();
      ReleaseNone(s);
      for i := 0 to |ts|
        invariant View() == Release(s, FramesOf(ts[..i]))
      {
        ReleaseNext(s, ts, i);
        DropTracker(ts[i].frame);
      }
      assert ts[..|ts|] == ts;
    }

    method FindAreaIndex(areas: seq<MemArea>, addr: nat) returns (k: nat)
      ensures k <= |areas|
      ensures k < |areas| ==> FindArea(areas, addr) == Some(areas[k]) && FirstAt(areas, k, addr)
      ensures k == |areas| ==> FindArea(areas, addr) == None
    {
      k := 0;
      while k < |areas| && !areas[k].Contains(addr)
        invariant k <= |areas|
        invariant FindArea(areas, addr) == FindArea(areas[k..], addr)
        invariant forall i :: 0 <= i < k ==> !areas[i].Contains(addr)
      {
        assert areas[k..][1..] == areas[k + 1..];
        k := k + 1;
      }
    }

    method FindTrackIndex(ts: seq<MapTrack>, v: nat) returns (k: nat)
      ensures k <= |ts|
      ensures k < |ts| ==> FindTrack(ts, v) == Some(ts[k]) && ts[k].vaddr == v
      ensures k == |ts| ==> FindTrack(ts, v) == None
      ensures forall i :: 0 <= i < k ==> ts[i].vaddr != v
    {
      k := 0;
      while k < |ts| && ts[k].vaddr != v
        invariant k <= |ts|
        invariant FindTrack(ts, v) == FindTrack(ts[k..], v)
        invariant forall i :: 0 <= i < k ==> ts[i].vaddr != v
      {
        assert ts[k..][1..] == ts[k + 1..];
        k := k + 1;
      }
    }

    /** `user_cow_int` when an area contains the address. */
    method PageFault(pid: nat, addr: nat) returns (ghost answer: Option<Frame>)
      requires Valid()
      requires pid < |procs| && procs[pid].alive && FindArea(procs[pid].areas, addr).Some?
      modifies this
      ensures Valid()
      ensures Legal(old(View()), Fault(pid, addr, answer))
      ensures View() == Step(old(View()), Fault(pid, addr, answer))
    {
      answer := ServeFault(pid, addr);
      InvKept(old(View()), Fault(pid, addr, answer));
    }

    method ServeFault(pid: nat, addr: nat) returns (ghost answer: Option<Frame>)
      requires pid < |procs| && FindArea(procs[pid].areas, addr).Some?
      requires forall b :: b in procs[pid].areas ==> PageAligned(b)
      modifies this
      ensures if answer.Some? then answer.value in old(free) else old(free) == {}
      ensures View() == FaultStep(old(View()), pid, addr, answer)
    {
      var p, v := procs[pid], Floor(addr);
      var k := FindAreaIndex(p.areas, addr);
      var area := p.areas[k];
      FirstOfPage(p.areas, k, addr);
      var prot := FaultProt(area.mtype, addr);
      var n := FindTrackIndex(area.mtrackers, v);
      var got := FrameAlloc();
      answer := got;
      if n < |area.mtrackers| {
        var t := area.mtrackers[n];
        if area.mtype == Shared {
          procs := procs[pid := p.(segv := true)];
        } else if refs[t.frame] > 1 {
          if got.None? {
            procs := procs[pid := p.(segv := true)];
          } else {
            mem := mem[got.value := PageOf(mem, t.frame)];
            refs := refs - multiset{t.frame} + multiset{got.value};
            free := free - {got.value};
            var b := area.(mtrackers := area.mtrackers[n := t.(frame := got.value)]);
            SetFrameAtIndex(area.mtrackers, n, v, got.value);
            RetrackAtIndex(p.areas, k, v, got.value);
            procs := procs[pid := p.(areas := p.areas[k := b], pt := p.pt[v := Pte(got.value, prot)])];
          }
        } else {
          procs := procs[pid := p.(pt := p.pt[v := Pte(t.frame, prot)])];
        }
      } else if |free| < 10 || got.None? {
        procs := procs[pid := p.(segv := true)];
      } else {
        refs := refs + multiset{got.value};
        free := free - {got.value};
        var b := area.(mtrackers := area.mtrackers + [MapTrack(v, got.value, 7)]);
        TrackAtIndex(p.areas, k, MapTrack(v, got.value, 7));
        procs := procs[pid := p.(areas := p.areas[k := b], pt := p.pt[v := Pte(got.value, prot)])];
      }
    }

    /** The tracker loop of `cow_fork` for one area. */
    method ShareArea(area: MemArea, parent0: map<nat, Pte>, child0: map<nat, Pte>)
      returns (parentPt: map<nat, Pte>, childPt: map<nat, Pte>, held: multiset<Frame>)
      ensures parentPt == MapTracks(parent0, area.mtrackers, ForkProt(area.mtype))
      ensures childPt == MapTracks(child0, area.mtrackers, ForkProt(area.mtype))
      ensures held == FramesOf(area.mtrackers)
    {
      var ts, prot := area.mtrackers, ForkProt(area.mtype);
      parentPt, childPt, held := parent0, child0, multiset{};
      for j := 0 to |ts|
        invariant MapTracks(parent0, ts, prot) == MapTracks(parentPt, ts[j..], prot)
        invariant MapTracks(child0, ts, prot) == MapTracks(childPt, ts[j..], prot)
        invariant held == FramesOf(ts[..j])
      {
        assert ts[j..][1..] == ts[j + 1..];
        FramesPrefix(ts, j);
        childPt := childPt[ts[j].vaddr := Pte(ts[j].frame, prot)];
        parentPt := parentPt[ts[j].vaddr := Pte(ts[j].frame, prot)];
        held := held + multiset{ts[j].frame};
      }
      assert ts[..|ts|] == ts;
    }

    method ShareAreas(p: Process)
      returns (parentPt: map<nat, Pte>, childPt: map<nat, Pte>, held: multiset<Frame>)
      ensures parentPt == MapAreas(p.pt, p.areas)
      ensures childPt == MapAreas(map[], p.areas)
      ensures held == Owned(p.areas)
    {
      parentPt, childPt, held := p.pt, map[], multiset{};
      for i := 0 to |p.areas|
        invariant MapAreas(p.pt, p.areas) == MapAreas(parentPt, p.areas[i..])
        invariant MapAreas(map[], p.areas) == MapAreas(childPt, p.areas[i..])
        invariant held == Owned(p.areas[..i])
      {
        assert p.areas[i..][1..] == p.areas[i + 1..];
        assert p.areas[..i + 1] == p.areas[..i] + [p.areas[i]];
        AppendTracks(p.areas[..i], p.areas[i]);
        var more: multiset<Frame>;
        parentPt, childPt, more := ShareArea(p.areas[i], parentPt, childPt);
        held := held + more;
      }
      assert p.areas[..|p.areas|] == p.areas;
    }

    /** `cow_fork`: remap every tracker in parent and child, area by area, sharing the frames. */
    method CowFork(pid: nat) returns (child: nat)
      requires Valid() && pid < |procs| && procs[pid].alive
      modifies this
      ensures Valid()
      ensures View() == Step(old(View()), Fork(pid))
      ensures child == |old(procs)| && child < |procs|
      ensures forall j, a, b :: j == pid || j == child ==>
        (Legal(View(), Store(j, a, b)) <==> SharedAt(old(View()), pid, a))
    {
      InvKept(View(), Fork(pid));
      ghost var before := View();
      forall j, a, b | j == pid || j == |procs|
        ensures Legal(ForkStep(before, pid), Store(j, a, b)) <==> SharedAt(before, pid, a)
      {
        ForkStoresIff(before, pid, j, a, b);
      }
      var p := procs[pid];
      var parentPt, childPt, held := ShareAreas(p);
      child := |procs|;
      refs := refs + held;
      procs := procs[pid := p.(pt := parentPt)] + [Process(p.areas, childPt, true, false)];
      assert View() == ForkStep(old(View()), pid);
    }

    method ClearMemset(pid: nat)
      requires pid < |procs| && Owned(procs[pid].areas) <= refs
      modifies this
      ensures View() == ExitStep(old(View()), pid)
    {
      var p := procs[pid];
      procs := procs[pid := p.(areas := [], alive := false)];
      DropTrackers(AllTracks(p.areas));
    }

    /** `exit` of the last thread: `memset.clear()` drops every tracker the process holds. */
    method ExitProcess(pid: nat)
      requires Valid() && pid < |procs| && procs[pid].alive
      modifies this
      ensures Valid()
      ensures View() == Step(old(View()), Exit(pid))
    {
      InvKept(View(), Exit(pid));
      AllOwnedHas(procs, pid);
      ClearMemset(pid);
    }
  }
}
