/**
  Every step of the copy-on-write machine keeps its invariant and is matched by one step of the
  machine that copies eagerly.
*/
module CowSafety {
  import opened Wrappers
  import opened Bytes
  import opened MemAreas
  import opened TrackedMemory
  import Arith
  import opened CowMachine

  /* ---------- A step that replaces one process ---------- */

  ghost predicate Changes(s: System, t: System, i: nat) {
    i < |s.procs| && |t.procs| == |s.procs| && t.procs == s.procs[i := t.procs[i]]
  }

  /** Each tracked page of `q` keeps its old frame and kind, or holds a frame of `taken`. */
  ghost predicate SlotsFrom(p: Process, q: Process, taken: set<Frame>, shared: bool) {
    forall v: nat :: TrackAt(q.areas, v).Some? ==>
      || (&& TrackAt(p.areas, v).Some?
          && TrackAt(p.areas, v).value.frame == TrackAt(q.areas, v).value.frame
          && KindAt(p.areas, v) == KindAt(q.areas, v))
      || (&& TrackAt(q.areas, v).value.frame in taken
          && ((KindAt(q.areas, v) == Some(Shared)) == shared))
  }

  ghost predicate OwnedFrom(p: Process, q: Process, taken: set<Frame>) {
    forall f :: f in Owned(q.areas) ==> f in Owned(p.areas) || f in taken
  }

  ghost predicate PtFollows(q: Process) {
    forall v :: v in q.pt ==>
      TrackAt(q.areas, v).Some? && TrackAt(q.areas, v).value.frame == q.pt[v].frame
  }

  ghost predicate SoleIn(q: Process, refs: multiset<Frame>) {
    forall v :: v in q.pt && q.pt[v].prot.write && KindAt(q.areas, v) != Some(Shared)
      ==> refs[q.pt[v].frame] == 1
  }

  ghost predicate Replaces(s: System, t: System, i: nat, taken: set<Frame>, shared: bool) {
    && Changes(s, t, i)
    && t.refs == AllOwned(t.procs)
    && (forall f :: f in taken ==> f !in s.refs)
    && var q := t.procs[i];
       && GoodAreas(q.areas) && (!q.alive ==> q.areas == [])
       && SlotsFrom(s.procs[i], q, taken, shared) && OwnedFrom(s.procs[i], q, taken)
       && (q.alive ==> PtFollows(q) && SoleIn(q, t.refs))
  }

  lemma KindsAfterReplace(s: System, t: System, i: nat, taken: set<Frame>, shared: bool)
    requires Inv(s) && Replaces(s, t, i, taken, shared)
    ensures KindsAgree(t)
  {
    forall j, v: nat, k, u: nat |
      0 <= j < |t.procs| && 0 <= k < |t.procs| && Slot(t, j, v).Some? && Slot(t, k, u).Some?
      && Slot(t, j, v).value.frame == Slot(t, k, u).value.frame
      ensures SharedAt(t, j, v) == SharedAt(t, k, u)
    {
      OldOrTaken(s, t, i, taken, shared, j, v);
      OldOrTaken(s, t, i, taken, shared, k, u);
    }
  }

  /** A slot after the step is an old slot, or one of the taken frames with the given kind. */
  lemma OldOrTaken(s: System, t: System, i: nat, taken: set<Frame>, shared: bool, j: nat, v: nat)
    requires Inv(s) && Replaces(s, t, i, taken, shared)
    requires j < |t.procs| && Slot(t, j, v).Some?
    ensures
      || (&& Slot(s, j, v).Some? && Slot(s, j, v).value.frame == Slot(t, j, v).value.frame
          && SharedAt(s, j, v) == SharedAt(t, j, v) && Slot(t, j, v).value.frame !in taken)
      || (Slot(t, j, v).value.frame in taken && SharedAt(t, j, v) == shared)
  {
    if Slot(s, j, v).Some? {
      SlotIsOwned(s, j, v);
    }
    if j != i {
      assert t.procs[j] == s.procs[j];
    }
  }

  lemma OthersStaySole(s: System, t: System, i: nat, taken: set<Frame>, shared: bool, j: nat, v: nat)
    requires Inv(s) && Replaces(s, t, i, taken, shared)
    requires j < |s.procs| && j != i && Slot(s, j, v).Some? && s.refs[Slot(s, j, v).value.frame] == 1
    ensures t.refs[Slot(s, j, v).value.frame] == 1
  {
    var f := Slot(s, j, v).value.frame;
    SlotIsOwned(s, j, v);
    AllOwnedUpdate(s.procs, i, t.procs[i]);
    if i < j {
      AllOwnedHasBoth(s.procs, i, j);
    } else {
      AllOwnedHasBoth(s.procs, j, i);
    }
    assert Owned(s.procs[i].areas)[f] == 0;
    assert Owned(t.procs[i].areas)[f] == 0;
    assert (AllOwned(t.procs) + Owned(s.procs[i].areas))[f] == (AllOwned(s.procs) + Owned(t.procs[i].areas))[f];
  }

  lemma ReplaceKeeps(s: System, t: System, i: nat, taken: set<Frame>, shared: bool)
    requires Inv(s) && Replaces(s, t, i, taken, shared)
    ensures GoodProcs(t) && PtTracked(t) && WritableIsSole(t) && KindsAgree(t)
  {
    KindsAfterReplace(s, t, i, taken, shared);
    forall j, v | 0 <= j < |t.procs| && t.procs[j].alive && v in t.procs[j].pt
      ensures Slot(t, j, v).Some? && Slot(t, j, v).value.frame == t.procs[j].pt[v].frame
      ensures t.procs[j].pt[v].prot.write && !SharedAt(t, j, v) ==> t.refs[t.procs[j].pt[v].frame] == 1
    {
      if j != i {
        assert t.procs[j] == s.procs[j];
        assert Slot(s, j, v).Some?;
        if t.procs[j].pt[v].prot.write && !SharedAt(t, j, v) {
          assert !SharedAt(s, j, v);
          OthersStaySole(s, t, i, taken, shared, j, v);
        }
      }
    }
  }

  /* ---------- Matching the eager machine when one process is replaced ---------- */

  ghost predicate CellsMatch(q: Process, mem: map<Frame, Page>, cells: imap<nat, Cell>) {
    forall a: nat :: a in cells && cells[a] == CellAt(q.areas, mem, a)
  }

  /** Frames owned before and after keep their contents and their shared object. */
  ghost predicate OldFramesSame(s: System, t: System, e: Eager, d: Eager)
    requires EagerTotal(e) && EagerTotal(d)
  {
    forall f :: f in s.refs && f in t.refs ==>
      f in s.mem && f in t.mem && t.mem[f] == s.mem[f] && d.objs[f] == e.objs[f]
  }

  /** An untouched process whose frames keep their contents still agrees. */
  lemma OtherByteAgrees(s: System, t: System, e: Eager, d: Eager, j: nat, a: nat)
    requires EagerTotal(e) && EagerTotal(d) && |e.procs| == |s.procs| && |d.procs| == |t.procs|
    requires s.refs == AllOwned(s.procs) && t.refs == AllOwned(t.procs)
    requires j < |s.procs| && j < |t.procs| && t.procs[j].areas == s.procs[j].areas && d.procs[j] == e.procs[j]
    requires OldFramesSame(s, t, e, d) && ByteAgrees(s, e, j, a)
    ensures ByteAgrees(t, d, j, a)
  {
    if Slot(s, j, Floor(a)).Some? {
      SlotIsOwned(s, j, Floor(a));
      assert Slot(t, j, Floor(a)) == Slot(s, j, Floor(a));
      SlotIsOwned(t, j, Floor(a));
    }
  }

  /** A cell of the replaced process is an old shared byte, a new shared byte, or private. */
  ghost predicate OwnByte(t: System, e: Eager, d: Eager, i: nat, a: nat)
    requires EagerTotal(e) && EagerTotal(d) && i < |e.procs| && i < |d.procs|
  {
    var c := d.procs[i][a];
    c.SharedByte? ==>
      || (c == e.procs[i][a] && c.obj in t.refs)
      || (c.obj in t.mem && d.objs[c.obj] == t.mem[c.obj])
  }

  lemma OwnByteAgrees(s: System, t: System, e: Eager, d: Eager, i: nat, a: nat)
    requires EagerTotal(e) && EagerTotal(d) && |e.procs| == |s.procs| && |d.procs| == |t.procs|
    requires s.refs == AllOwned(s.procs)
    requires i < |s.procs| && i < |t.procs|
    requires d.procs[i][a] == CellAt(t.procs[i].areas, t.mem, a)
    requires OldFramesSame(s, t, e, d) && ByteAgrees(s, e, i, a) && OwnByte(t, e, d, i, a)
    ensures ByteAgrees(t, d, i, a)
  {
    var c := d.procs[i][a];
    if c.SharedByte? && c == e.procs[i][a] && c.obj in t.refs {
      CellIsSlot(s, i, a, c);
      SlotIsOwned(s, i, Floor(a));
    }
  }

  lemma ReplaceRefines(s: System, t: System, e: Eager, d: Eager, i: nat)
    requires Refines(s, e) && s.refs == AllOwned(s.procs) && t.refs == AllOwned(t.procs)
    requires Changes(s, t, i)
    requires EagerTotal(d) && |d.procs| == |e.procs| && d.procs == e.procs[i := d.procs[i]]
    requires CellsMatch(t.procs[i], t.mem, d.procs[i])
    requires OldFramesSame(s, t, e, d)
    requires forall a: nat :: OwnByte(t, e, d, i, a)
    ensures Refines(t, d)
  {
    forall j, a: nat | 0 <= j < |t.procs| ensures ByteAgrees(t, d, j, a) {
      assert ByteAgrees(s, e, j, a);
      if j == i {
        OwnByteAgrees(s, t, e, d, i, a);
      } else {
        OtherByteAgrees(s, t, e, d, j, a);
      }
    }
  }

  lemma CellIsSlot(s: System, i: nat, a: nat, c: Cell)
    requires i < |s.procs| && c == CellAt(s.procs[i].areas, s.mem, a) && c.SharedByte?
    ensures Slot(s, i, Floor(a)).Some? && Slot(s, i, Floor(a)).value.frame == c.obj
  {
  }

  /* ---------- Page faults ---------- */

  lemma SolveSwap(x: multiset<Frame>, own: multiset<Frame>, all: multiset<Frame>, was: Frame, now: Frame)
    requires was in own && own <= all
    requires x + own == all + (own - multiset{was} + multiset{now})
    ensures x == all - multiset{was} + multiset{now}
  {
    forall f ensures x[f] == (all - multiset{was} + multiset{now})[f] {
      assert (x + own)[f] == (all + (own - multiset{was} + multiset{now}))[f];
      assert own[f] <= all[f];
    }
  }

  lemma SolveGrow(x: multiset<Frame>, own: multiset<Frame>, all: multiset<Frame>, more: multiset<Frame>)
    requires x + own == all + (own + more)
    ensures x == all + more
  {
    forall f ensures x[f] == (all + more)[f] {
      assert (x + own)[f] == (all + (own + more))[f];
    }
  }

  lemma SolveShrink(
    x: multiset<Frame>, own: multiset<Frame>, all: multiset<Frame>, left: multiset<Frame>, gone: multiset<Frame>)
    requires own == left + gone && own <= all
    requires x + own == all + left
    ensures x == all - gone
  {
    forall f ensures x[f] == (all - gone)[f] {
      assert (x + own)[f] == (all + left)[f];
      assert own[f] <= all[f] && own[f] == (left + gone)[f];
    }
  }

  /** Swapping one owned frame for another in one process swaps it in the total. */
  lemma SwapInTotal(s: System, t: System, i: nat, was: Frame, now: Frame)
    requires Changes(s, t, i)
    requires was in Owned(s.procs[i].areas)
    requires Owned(t.procs[i].areas) == Owned(s.procs[i].areas) - multiset{was} + multiset{now}
    ensures AllOwned(t.procs) == AllOwned(s.procs) - multiset{was} + multiset{now}
  {
    AllOwnedHas(s.procs, i);
    AllOwnedUpdate(s.procs, i, t.procs[i]);
    SolveSwap(AllOwned(t.procs), Owned(s.procs[i].areas), AllOwned(s.procs), was, now);
  }

  lemma GrowTotal(s: System, t: System, i: nat, more: multiset<Frame>)
    requires Changes(s, t, i)
    requires Owned(t.procs[i].areas) == Owned(s.procs[i].areas) + more
    ensures AllOwned(t.procs) == AllOwned(s.procs) + more
  {
    AllOwnedUpdate(s.procs, i, t.procs[i]);
    SolveGrow(AllOwned(t.procs), Owned(s.procs[i].areas), AllOwned(s.procs), more);
  }

  lemma ShrinkTotal(s: System, t: System, i: nat, gone: multiset<Frame>)
    requires Changes(s, t, i)
    requires Owned(s.procs[i].areas) == Owned(t.procs[i].areas) + gone
    ensures AllOwned(t.procs) == AllOwned(s.procs) - gone
  {
    AllOwnedHas(s.procs, i);
    AllOwnedUpdate(s.procs, i, t.procs[i]);
    SolveShrink(AllOwned(t.procs), Owned(s.procs[i].areas), AllOwned(s.procs), Owned(t.procs[i].areas), gone);
  }

  /** The branch that copies: page `v` of process `i` has a private frame with other owners. */
  ghost predicate MustCopy(s: System, i: nat, v: nat, src: Frame, dst: Frame) {
    && i < |s.procs| && s.procs[i].alive
    && Slot(s, i, v).Some? && Slot(s, i, v).value.frame == src && !SharedAt(s, i, v)
    && s.refs[src] > 1 && dst in s.free
  }

  lemma CopySlot(s: System, i: nat, v: nat, src: Frame, dst: Frame, prot: Prot, u: nat)
    requires Inv(s) && MustCopy(s, i, v, src, dst)
    ensures var p, q := s.procs[i], CopyPage(s, i, v, src, dst, prot).procs[i];
      && TrackAt(q.areas, u) == (if u == v then Some(TrackAt(p.areas, v).value.(frame := dst)) else TrackAt(p.areas, u))
      && KindAt(q.areas, u) == KindAt(p.areas, u)
  {
    var p := s.procs[i];
    RetrackFind(p.areas, v, dst, u);
    RetrackShape(p.areas, v, dst);
    SameShapeFacts(p.areas, Retrack(p.areas, v, dst), u);
  }

  lemma CopyOwned(s: System, i: nat, v: nat, src: Frame, dst: Frame, prot: Prot)
    requires Inv(s) && MustCopy(s, i, v, src, dst)
    ensures var t := CopyPage(s, i, v, src, dst, prot);
      && t.refs == AllOwned(t.procs)
      && GoodAreas(t.procs[i].areas) && OwnedFrom(s.procs[i], t.procs[i], {dst})
  {
    var t := CopyPage(s, i, v, src, dst, prot);
    RetrackGood(s.procs[i].areas, v, dst);
    RetrackOwned(s.procs[i].areas, v, dst);
    SwapInTotal(s, t, i, src, dst);
  }

  /** Page `v` moved to the sole frame `f`, every other page as it was. */
  ghost predicate MovedPage(p: Process, q: Process, v: nat, f: Frame) {
    && (forall u: nat :: u != v ==> TrackAt(q.areas, u) == TrackAt(p.areas, u))
    && (forall u: nat :: KindAt(q.areas, u) == KindAt(p.areas, u))
    && TrackAt(q.areas, v).Some? && TrackAt(q.areas, v).value.frame == f
    && v in q.pt && q.pt == p.pt[v := q.pt[v]] && q.pt[v].frame == f
  }

  lemma MovedPageFollows(p: Process, q: Process, v: nat, f: Frame, before: multiset<Frame>, after: multiset<Frame>)
    requires MovedPage(p, q, v, f)
    requires PtFollows(p) && SoleIn(p, before)
    requires after[f] == 1
    requires forall g :: g != f && before[g] == 1 ==> after[g] == 1
    ensures PtFollows(q) && SoleIn(q, after)
  {
  }

  lemma OneProcess(s: System, i: nat)
    requires PtTracked(s) && WritableIsSole(s) && i < |s.procs| && s.procs[i].alive
    ensures PtFollows(s.procs[i]) && SoleIn(s.procs[i], s.refs)
  {
    var p := s.procs[i];
    forall v | v in p.pt ensures TrackAt(p.areas, v).Some? && TrackAt(p.areas, v).value.frame == p.pt[v].frame {
      assert Slot(s, i, v).Some?;
    }
    forall v | v in p.pt && p.pt[v].prot.write && KindAt(p.areas, v) != Some(Shared)
      ensures s.refs[p.pt[v].frame] == 1
    {
      assert !SharedAt(s, i, v);
    }
  }

  /** Moving one private page of one process to the free frame `f`. */
  lemma MovedReplaces(s: System, t: System, i: nat, v: nat, f: Frame)
    requires Changes(s, t, i) && s.procs[i].alive && t.procs[i].alive
    requires t.refs == AllOwned(t.procs) && GoodAreas(t.procs[i].areas)
    requires OwnedFrom(s.procs[i], t.procs[i], {f}) && f !in s.refs && t.refs[f] == 1
    requires MovedPage(s.procs[i], t.procs[i], v, f) && KindAt(t.procs[i].areas, v) != Some(Shared)
    requires PtFollows(s.procs[i]) && SoleIn(s.procs[i], s.refs)
    requires forall g :: g != f && s.refs[g] == 1 ==> t.refs[g] == 1
    ensures Replaces(s, t, i, {f}, false)
  {
    MovedPageFollows(s.procs[i], t.procs[i], v, f, s.refs, t.refs);
  }

  lemma CopyMoves(s: System, i: nat, v: nat, src: Frame, dst: Frame, prot: Prot)
    requires Inv(s) && MustCopy(s, i, v, src, dst)
    ensures MovedPage(s.procs[i], CopyPage(s, i, v, src, dst, prot).procs[i], v, dst)
  {
    var t := CopyPage(s, i, v, src, dst, prot);
    forall u: nat
      ensures u != v ==> TrackAt(t.procs[i].areas, u) == TrackAt(s.procs[i].areas, u)
      ensures KindAt(t.procs[i].areas, u) == KindAt(s.procs[i].areas, u)
    {
      CopySlot(s, i, v, src, dst, prot, u);
    }
    CopySlot(s, i, v, src, dst, prot, v);
  }

  lemma CopyReplaces(s: System, i: nat, v: nat, src: Frame, dst: Frame, prot: Prot)
    requires Inv(s) && MustCopy(s, i, v, src, dst)
    ensures Replaces(s, CopyPage(s, i, v, src, dst, prot), i, {dst}, false)
  {
    CopyOwned(s, i, v, src, dst, prot);
    CopyMoves(s, i, v, src, dst, prot);
    CopyCounts(s, i, v, src, dst, prot);
    OneProcess(s, i);
    MovedReplaces(s, CopyPage(s, i, v, src, dst, prot), i, v, dst);
  }

  /** The new frame has one reference, and no sole owner loses or shares its frame. */
  lemma CopyCounts(s: System, i: nat, v: nat, src: Frame, dst: Frame, prot: Prot)
    requires Accounts(s) && MustCopy(s, i, v, src, dst)
    ensures var t := CopyPage(s, i, v, src, dst, prot);
      && dst !in s.refs && t.refs[dst] == 1
      && forall g :: g != dst && s.refs[g] == 1 ==> t.refs[g] == 1
  {
  }

  lemma CopyAccounts(s: System, i: nat, v: nat, src: Frame, dst: Frame, prot: Prot)
    requires Inv(s) && MustCopy(s, i, v, src, dst)
    ensures Accounts(CopyPage(s, i, v, src, dst, prot))
  {
    CopyOwned(s, i, v, src, dst, prot);
    CopyBalance(s, i, v, src, dst, prot);
  }

  lemma CopyBalance(s: System, i: nat, v: nat, src: Frame, dst: Frame, prot: Prot)
    requires Accounts(s) && i < |s.procs| && s.refs[src] > 1 && dst in s.free
    requires var t := CopyPage(s, i, v, src, dst, prot); t.refs == AllOwned(t.procs)
    ensures Accounts(CopyPage(s, i, v, src, dst, prot))
  {
  }

  lemma CopyKeepsCell(s: System, i: nat, v: nat, src: Frame, dst: Frame, prot: Prot, a: nat)
    requires Inv(s) && MustCopy(s, i, v, src, dst)
    ensures var t := CopyPage(s, i, v, src, dst, prot);
      CellAt(t.procs[i].areas, t.mem, a) == CellAt(s.procs[i].areas, s.mem, a)
  {
    var p := s.procs[i];
    RetrackShape(p.areas, v, dst);
    RetrackFind(p.areas, v, dst, Floor(a));
    SameShapeFacts(p.areas, Retrack(p.areas, v, dst), a);
    PageKind(s, i, a);
    if Slot(s, i, Floor(a)).Some? {
      SlotIsOwned(s, i, Floor(a));
    }
  }

  lemma CopyRefines(s: System, e: Eager, i: nat, v: nat, src: Frame, dst: Frame, prot: Prot)
    requires Inv(s) && Refines(s, e) && MustCopy(s, i, v, src, dst)
    ensures Refines(CopyPage(s, i, v, src, dst, prot), e)
  {
    var t := CopyPage(s, i, v, src, dst, prot);
    CopyReplaces(s, i, v, src, dst, prot);
    forall a: nat ensures CellAt(t.procs[i].areas, t.mem, a) == CellAt(s.procs[i].areas, s.mem, a) {
      CopyKeepsCell(s, i, v, src, dst, prot, a);
    }
    SameCellsRefine(s, t, e, i);
  }

  /** An address has the kind of its page. */
  lemma PageKind(s: System, i: nat, a: nat)
    requires i < |s.procs| && GoodAreas(s.procs[i].areas)
    ensures KindAt(s.procs[i].areas, a) == KindAt(s.procs[i].areas, Floor(a))
  {
    FindAreaOfPage(s.procs[i].areas, a);
  }

  /** A step that changes no visible byte is matched by doing nothing. */
  lemma SameCellsRefine(s: System, t: System, e: Eager, i: nat)
    requires Refines(s, e) && s.refs == AllOwned(s.procs) && t.refs == AllOwned(t.procs)
    requires Changes(s, t, i)
    requires forall a: nat :: CellAt(t.procs[i].areas, t.mem, a) == CellAt(s.procs[i].areas, s.mem, a)
    requires OldFramesSame(s, t, e, e)
    ensures Refines(t, e)
  {
    forall a: nat
      ensures a in e.procs[i] && e.procs[i][a] == CellAt(t.procs[i].areas, t.mem, a)
      ensures OwnByte(t, e, e, i, a)
    {
      assert ByteAgrees(s, e, i, a);
      var c := e.procs[i][a];
      if c.SharedByte? {
        CellIsSlot(t, i, a, c);
        SlotIsOwned(t, i, Floor(a));
      }
    }
    assert e.procs == e.procs[i := e.procs[i]];
    ReplaceRefines(s, t, e, e, i);
  }

  lemma CopyKeeps(s: System, e: Eager, i: nat, v: nat, src: Frame, dst: Frame, prot: Prot)
    requires Inv(s) && Refines(s, e) && MustCopy(s, i, v, src, dst)
    ensures Inv(CopyPage(s, i, v, src, dst, prot)) && Refines(CopyPage(s, i, v, src, dst, prot), e)
  {
    CopyReplaces(s, i, v, src, dst, prot);
    ReplaceKeeps(s, CopyPage(s, i, v, src, dst, prot), i, {dst}, false);
    CopyAccounts(s, i, v, src, dst, prot);
    CopyRefines(s, e, i, v, src, dst, prot);
  }

  /* The page is already owned alone. */

  lemma RemapReplaces(s: System, i: nat, v: nat, f: Frame, prot: Prot)
    requires Inv(s) && i < |s.procs| && s.procs[i].alive
    requires Slot(s, i, v).Some? && Slot(s, i, v).value.frame == f && s.refs[f] <= 1
    ensures Replaces(s, RemapPage(s, i, v, f, prot), i, {}, false)
  {
    var t := RemapPage(s, i, v, f, prot);
    SlotIsOwned(s, i, v);
    AllOwnedUpdate(s.procs, i, t.procs[i]);
    OneProcess(s, i);
    SolveGrow(AllOwned(t.procs), Owned(s.procs[i].areas), AllOwned(s.procs), multiset{});
    MovedPageFollows(s.procs[i], t.procs[i], v, f, s.refs, t.refs);
  }

  lemma RemapKeeps(s: System, e: Eager, i: nat, v: nat, f: Frame, prot: Prot)
    requires Inv(s) && Refines(s, e) && i < |s.procs| && s.procs[i].alive
    requires Slot(s, i, v).Some? && Slot(s, i, v).value.frame == f && s.refs[f] <= 1
    ensures Inv(RemapPage(s, i, v, f, prot)) && Refines(RemapPage(s, i, v, f, prot), e)
  {
    var t := RemapPage(s, i, v, f, prot);
    RemapReplaces(s, i, v, f, prot);
    ReplaceKeeps(s, t, i, {}, false);
    SameCellsRefine(s, t, e, i);
  }

  /* The handler gives up and queues SIGSEGV. */

  lemma SegvKeeps(s: System, e: Eager, i: nat)
    requires Inv(s) && Refines(s, e) && i < |s.procs| && s.procs[i].alive
    ensures Inv(Segv(s, i)) && Refines(Segv(s, i), e)
  {
    var t := Segv(s, i);
    OneProcess(s, i);
    AllOwnedUpdate(s.procs, i, t.procs[i]);
    SolveGrow(AllOwned(t.procs), Owned(s.procs[i].areas), AllOwned(s.procs), multiset{});
    assert Replaces(s, t, i, {}, false);
    ReplaceKeeps(s, t, i, {}, false);
    SameCellsRefine(s, t, e, i);
  }

  /* The first touch of a page. */

  ghost predicate FirstTouch(s: System, i: nat, v: nat, f: Frame) {
    && i < |s.procs| && s.procs[i].alive && v % PAGE_SIZE == 0
    && KindAt(s.procs[i].areas, v).Some? && !SharedAt(s, i, v)
    && Slot(s, i, v).None? && f in s.free
  }

  lemma FreshSlot(s: System, i: nat, v: nat, f: Frame, prot: Prot, u: nat)
    requires GoodProcs(s) && FirstTouch(s, i, v, f)
    ensures var p, q := s.procs[i], FreshPage(s, i, v, f, prot).procs[i];
      && TrackAt(q.areas, u) == (if u == v then Some(MapTrack(v, f, 7)) else TrackAt(p.areas, u))
      && KindAt(q.areas, u) == KindAt(p.areas, u)
  {
    var p, m := s.procs[i], MapTrack(v, f, 7);
    TrackFind(p.areas, m, u);
    TrackShape(p.areas, m);
    SameShapeFacts(p.areas, Track(p.areas, m), u);
  }

  lemma FreshOwned(s: System, i: nat, v: nat, f: Frame, prot: Prot)
    requires Inv(s) && FirstTouch(s, i, v, f)
    ensures var t := FreshPage(s, i, v, f, prot);
      && t.refs == AllOwned(t.procs)
      && GoodAreas(t.procs[i].areas) && OwnedFrom(s.procs[i], t.procs[i], {f})
  {
    var t, m := FreshPage(s, i, v, f, prot), MapTrack(v, f, 7);
    TrackGoodAreas(s.procs[i].areas, m);
    TrackOwned(s.procs[i].areas, m);
    GrowTotal(s, t, i, multiset{f});
  }

  lemma FreshMoves(s: System, i: nat, v: nat, f: Frame, prot: Prot)
    requires Inv(s) && FirstTouch(s, i, v, f)
    ensures MovedPage(s.procs[i], FreshPage(s, i, v, f, prot).procs[i], v, f)
  {
    var t := FreshPage(s, i, v, f, prot);
    forall u: nat
      ensures u != v ==> TrackAt(t.procs[i].areas, u) == TrackAt(s.procs[i].areas, u)
      ensures KindAt(t.procs[i].areas, u) == KindAt(s.procs[i].areas, u)
    {
      FreshSlot(s, i, v, f, prot, u);
    }
    FreshSlot(s, i, v, f, prot, v);
  }

  lemma FreshReplaces(s: System, i: nat, v: nat, f: Frame, prot: Prot)
    requires Inv(s) && FirstTouch(s, i, v, f)
    ensures Replaces(s, FreshPage(s, i, v, f, prot), i, {f}, false)
  {
    FreshOwned(s, i, v, f, prot);
    FreshMoves(s, i, v, f, prot);
    OneProcess(s, i);
    MovedReplaces(s, FreshPage(s, i, v, f, prot), i, v, f);
  }

  lemma FreshKeepsCell(s: System, i: nat, v: nat, f: Frame, prot: Prot, a: nat)
    requires GoodProcs(s) && Accounts(s) && FirstTouch(s, i, v, f)
    ensures var t := FreshPage(s, i, v, f, prot);
      CellAt(t.procs[i].areas, t.mem, a) == CellAt(s.procs[i].areas, s.mem, a)
  {
    FreshSlot(s, i, v, f, prot, Floor(a));
    FreshSlot(s, i, v, f, prot, a);
    PageKind(s, i, a);
    assert PageOf(s.mem, f) == ZeroPage();
  }

  lemma FreshKeeps(s: System, e: Eager, i: nat, v: nat, f: Frame, prot: Prot)
    requires Inv(s) && Refines(s, e) && FirstTouch(s, i, v, f)
    ensures Inv(FreshPage(s, i, v, f, prot)) && Refines(FreshPage(s, i, v, f, prot), e)
  {
    var t := FreshPage(s, i, v, f, prot);
    FreshReplaces(s, i, v, f, prot);
    ReplaceKeeps(s, t, i, {f}, false);
    forall a: nat ensures CellAt(t.procs[i].areas, t.mem, a) == CellAt(s.procs[i].areas, s.mem, a) {
      FreshKeepsCell(s, i, v, f, prot, a);
    }
    SameCellsRefine(s, t, e, i);
  }

  /** The handler can serve the fault: a private page, and a frame wherever it needs one. */
  predicate Servable(s: System, i: nat, addr: nat)
    requires i < |s.procs| && FindArea(s.procs[i].areas, addr).Some?
  {
    var area := FindArea(s.procs[i].areas, addr).value;
    match FindTrack(area.mtrackers, Floor(addr))
    case Some(t) => area.mtype != Shared && (s.refs[t.frame] > 1 ==> s.free != {})
    case None => |s.free| >= 10
  }

  /**
    A fault that can be served lets the faulting store through in the next state; any other fault
    queues SIGSEGV and changes nothing else.
  */
  lemma FaultServes(s: System, i: nat, addr: nat, answer: Option<Frame>, b: Byte)
    requires Legal(s, Fault(i, addr, answer))
    ensures var t := FaultStep(s, i, addr, answer);
      if Servable(s, i, addr) then Legal(t, Store(i, addr, b)) && t.procs[i].segv == s.procs[i].segv
      else t == s.(procs := s.procs[i := s.procs[i].(segv := true)])
  {
  }

  /**
    What a served fault leaves in the page table: the page readable and writable, and executable
    unless it belongs to the mmap region; no other entry changes.
  */
  lemma FaultEntry(s: System, i: nat, addr: nat, answer: Option<Frame>, u: nat)
    requires Legal(s, Fault(i, addr, answer)) && Servable(s, i, addr)
    ensures var p, t := s.procs[i], FaultStep(s, i, addr, answer);
      var v, pt := Floor(addr), t.procs[i].pt;
      && v in pt && pt[v].prot.read && pt[v].prot.write
      && (pt[v].prot.exec <==> KindAt(p.areas, addr) != Some(Mmap) || addr < 0x2_0000_0000)
      && (u != v ==> (u in pt <==> u in p.pt) && (u in pt ==> pt[u] == p.pt[u]))
  {
  }

  /** A page fault inside an area never changes a byte any process can see. */
  lemma FaultKeeps(s: System, e: Eager, i: nat, addr: nat, answer: Option<Frame>)
    requires Inv(s) && Refines(s, e) && Legal(s, Fault(i, addr, answer))
    ensures Inv(FaultStep(s, i, addr, answer)) && Refines(FaultStep(s, i, addr, answer), e)
  {
    var areas := s.procs[i].areas;
    var area := FindArea(areas, addr).value;
    var v := Floor(addr);
    var prot := FaultProt(area.mtype, addr);
    FindAreaOfPage(areas, addr);
    FindAreaIn(areas, v);
    TrackLivesInArea(areas, v);
    if area.mtype == Shared {
      assert FindTrack(area.mtrackers, v).Some?;
    }
    if FindTrack(area.mtrackers, v).Some? {
      var f := FindTrack(area.mtrackers, v).value.frame;
      if area.mtype == Shared || (s.refs[f] > 1 && answer.None?) {
        SegvKeeps(s, e, i);
      } else if s.refs[f] > 1 {
        CopyKeeps(s, e, i, v, f, answer.value, prot);
      } else {
        RemapKeeps(s, e, i, v, f, prot);
      }
    } else if |s.free| < 10 || answer.None? {
      SegvKeeps(s, e, i);
    } else {
      FreshKeeps(s, e, i, v, answer.value, prot);
    }
  }

  /* ---------- Stores ---------- */

  ghost predicate Writable(s: System, i: nat, addr: nat) {
    && i < |s.procs| && s.procs[i].alive
    && Floor(addr) in s.procs[i].pt && s.procs[i].pt[Floor(addr)].prot.write
  }

  /** A store goes through a slot, and a private slot's frame belongs to that slot alone. */
  lemma StoreTarget(s: System, i: nat, addr: nat)
    requires Inv(s) && Writable(s, i, addr)
    ensures var v := Floor(addr); var f := s.procs[i].pt[v].frame;
      && Slot(s, i, v).Some? && Slot(s, i, v).value.frame == f
      && f in s.refs && f in s.mem && f !in s.free
      && (!SharedAt(s, i, v) ==> s.refs[f] == 1)
      && KindAt(s.procs[i].areas, addr) == KindAt(s.procs[i].areas, v)
      && KindAt(s.procs[i].areas, v).Some?
  {
    var v := Floor(addr);
    assert Slot(s, i, v).Some?;
    SlotIsOwned(s, i, v);
    PageKind(s, i, addr);
    SlotHasKind(s, i, v);
  }

  lemma StoreInv(s: System, i: nat, addr: nat, b: Byte)
    requires Inv(s) && Writable(s, i, addr)
    ensures Inv(StoreStep(s, i, addr, b))
  {
    StoreTarget(s, i, addr);
    var t := StoreStep(s, i, addr, b);
    assert t.procs == s.procs && t.refs == s.refs && t.free == s.free;
    forall j, v | 0 <= j < |t.procs| && t.procs[j].alive && v in t.procs[j].pt
      ensures Slot(t, j, v).Some? && Slot(t, j, v).value.frame == t.procs[j].pt[v].frame
      ensures t.procs[j].pt[v].prot.write && !SharedAt(t, j, v) ==> t.refs[t.procs[j].pt[v].frame] == 1
    {
      assert Slot(s, j, v) == Slot(t, j, v) && SharedAt(s, j, v) == SharedAt(t, j, v);
    }
    forall j, v: nat, k, u: nat |
      0 <= j < |t.procs| && 0 <= k < |t.procs| && Slot(t, j, v).Some? && Slot(t, k, u).Some?
      && Slot(t, j, v).value.frame == Slot(t, k, u).value.frame
      ensures SharedAt(t, j, v) == SharedAt(t, k, u)
    {
      assert Slot(s, j, v).Some? && Slot(s, k, u).Some?;
      assert SharedAt(s, j, v) == SharedAt(s, k, u);
    }
  }

  /** Storing to a private page changes that one byte of that one process. */
  lemma PrivateStoreByte(s: System, e: Eager, i: nat, addr: nat, b: Byte, j: nat, a: nat)
    requires Inv(s) && Refines(s, e) && Writable(s, i, addr) && !SharedAt(s, i, Floor(addr))
    requires j < |s.procs|
    ensures e.procs[i][addr].Private?
    ensures var d := EagerStep(e, Store(i, addr, b));
      EagerTotal(d) && ByteAgrees(StoreStep(s, i, addr, b), d, j, a)
  {
    StoreTarget(s, i, addr);
    var f := s.procs[i].pt[Floor(addr)].frame;
    assert ByteAgrees(s, e, i, addr) && ByteAgrees(s, e, j, a);
    PageKind(s, j, a);
    FloorFacts(a);
    FloorFacts(addr);
    if Slot(s, j, Floor(a)).Some? && Slot(s, j, Floor(a)).value.frame == f {
      assert SharedAt(s, j, Floor(a)) == SharedAt(s, i, Floor(addr));
      if j != i || Floor(a) != Floor(addr) {
        TwoSlotsTwoRefs(s, i, Floor(addr), j, Floor(a));
      }
    }
  }

  /** Storing to a shared page changes that byte of the one shared object. */
  lemma SharedStoreByte(s: System, e: Eager, i: nat, addr: nat, b: Byte, j: nat, a: nat)
    requires Inv(s) && Refines(s, e) && Writable(s, i, addr) && SharedAt(s, i, Floor(addr))
    requires j < |s.procs|
    ensures e.procs[i][addr].SharedByte?
    ensures var d := EagerStep(e, Store(i, addr, b));
      EagerTotal(d) && ByteAgrees(StoreStep(s, i, addr, b), d, j, a)
  {
    StoreTarget(s, i, addr);
    assert ByteAgrees(s, e, i, addr) && ByteAgrees(s, e, j, a);
    PageKind(s, j, a);
    if Slot(s, j, Floor(a)).Some? && Slot(s, j, Floor(a)).value.frame == s.procs[i].pt[Floor(addr)].frame {
      assert SharedAt(s, j, Floor(a)) == SharedAt(s, i, Floor(addr));
    }
  }

  lemma StoreKeeps(s: System, e: Eager, i: nat, addr: nat, b: Byte)
    requires Inv(s) && Refines(s, e) && Legal(s, Store(i, addr, b))
    ensures Inv(StoreStep(s, i, addr, b))
    ensures Refines(StoreStep(s, i, addr, b), EagerStep(e, Store(i, addr, b)))
  {
    StoreInv(s, i, addr, b);
    var t, d := StoreStep(s, i, addr, b), EagerStep(e, Store(i, addr, b));
    forall j, a: nat | 0 <= j < |t.procs| ensures EagerTotal(d) && ByteAgrees(t, d, j, a) {
      if SharedAt(s, i, Floor(addr)) {
        SharedStoreByte(s, e, i, addr, b, j, a);
      } else {
        PrivateStoreByte(s, e, i, addr, b, j, a);
      }
    }
    assert ByteAgrees(t, d, i, 0);
  }

  /** A store that faults first: once served it goes through, and means the same as in the eager machine. */
  lemma WriteThroughFault(s: System, e: Eager, i: nat, addr: nat, answer: Option<Frame>, b: Byte)
    requires Inv(s) && Refines(s, e) && Legal(s, Fault(i, addr, answer)) && Servable(s, i, addr)
    ensures Legal(FaultStep(s, i, addr, answer), Store(i, addr, b))
    ensures var u := StoreStep(FaultStep(s, i, addr, answer), i, addr, b);
      Inv(u) && Refines(u, EagerStep(e, Store(i, addr, b))) && HardwareLoad(u, i, addr) == Some(b)
  {
    FaultServes(s, i, addr, answer, b);
    FaultKeeps(s, e, i, addr, answer);
    StoreKeeps(FaultStep(s, i, addr, answer), e, i, addr, b);
  }

  /* ---------- Fork ---------- */

  lemma ForkedPt(s: System, i: nat, v: nat)
    requires Inv(s) && i < |s.procs| && s.procs[i].alive
    ensures var p := s.procs[i];
      && (v in MapAreas(p.pt, p.areas) <==> Slot(s, i, v).Some?)
      && (v in MapAreas(map[], p.areas) <==> Slot(s, i, v).Some?)
      && (Slot(s, i, v).Some? ==>
            && KindAt(p.areas, v).Some?
            && MapAreas(p.pt, p.areas)[v] == Pte(Slot(s, i, v).value.frame, ForkProt(KindAt(p.areas, v).value))
            && MapAreas(map[], p.areas)[v] == MapAreas(p.pt, p.areas)[v]
            && KindAt(p.areas, v) != Some(ShareFile))
  {
    var p := s.procs[i];
    MapAreasAt(p.pt, p.areas, v);
    MapAreasAt(map[], p.areas, v);
    FindAreaIn(p.areas, v);
    if v in p.pt {
      assert Slot(s, i, v).Some?;
    }
  }

  lemma ForkTotal(s: System, i: nat)
    requires i < |s.procs|
    ensures AllOwned(ForkStep(s, i).procs) == AllOwned(s.procs) + Owned(s.procs[i].areas)
  {
    var t := ForkStep(s, i);
    var n := |s.procs|;
    assert t.procs[..n] == s.procs[i := t.procs[i]];
    AllOwnedUpdate(s.procs, i, t.procs[i]);
    SolveGrow(AllOwned(t.procs[..n]), Owned(s.procs[i].areas), AllOwned(s.procs), multiset{});
  }

  /** Taking more references to owned frames leaves the accounts in order. */
  lemma MoreRefs(s: System, t: System, more: multiset<Frame>)
    requires Accounts(s) && more <= s.refs
    requires t.refs == s.refs + more && t.refs == AllOwned(t.procs) && t.mem == s.mem && t.free == s.free
    ensures Accounts(t)
  {
  }

  lemma ForkAccounts(s: System, i: nat)
    requires Inv(s) && i < |s.procs| && s.procs[i].alive
    ensures Accounts(ForkStep(s, i))
  {
    ForkTotal(s, i);
    AllOwnedHas(s.procs, i);
    MoreRefs(s, ForkStep(s, i), Owned(s.procs[i].areas));
  }

  /** Which old process a process of the forked system copies. */
  function Origin(s: System, i: nat, j: nat): nat {
    if j == |s.procs| then i else j
  }

  lemma ForkSlots(s: System, i: nat, j: nat, v: nat)
    requires i < |s.procs| && j <= |s.procs|
    ensures Slot(ForkStep(s, i), j, v) == Slot(s, Origin(s, i, j), v)
    ensures SharedAt(ForkStep(s, i), j, v) == SharedAt(s, Origin(s, i, j), v)
  {
  }

  /** Between fork's end and the next fault, neither parent nor child can write a private page. */
  lemma ForkPages(s: System, i: nat, j: nat, v: nat)
    requires Inv(s) && i < |s.procs| && s.procs[i].alive
    requires j <= |s.procs| && ForkStep(s, i).procs[j].alive && v in ForkStep(s, i).procs[j].pt
    ensures var t := ForkStep(s, i);
      && Slot(t, j, v).Some? && Slot(t, j, v).value.frame == t.procs[j].pt[v].frame
      && (t.procs[j].pt[v].prot.write && !SharedAt(t, j, v) ==> t.refs[t.procs[j].pt[v].frame] == 1)
  {
    var t := ForkStep(s, i);
    ForkSlots(s, i, j, v);
    if j == i || j == |s.procs| {
      ForkedPt(s, i, v);
    } else {
      assert t.procs[j] == s.procs[j];
      assert Slot(s, j, v).Some?;
      if t.procs[j].pt[v].prot.write && !SharedAt(t, j, v) {
        var f := t.procs[j].pt[v].frame;
        assert !SharedAt(s, j, v) && s.refs[f] == 1;
        SlotIsOwned(s, j, v);
        if i < j {
          AllOwnedHasBoth(s.procs, i, j);
        } else {
          AllOwnedHasBoth(s.procs, j, i);
        }
        assert Owned(s.procs[i].areas)[f] == 0;
      }
    }
  }

  lemma ForkInv(s: System, i: nat)
    requires Inv(s) && i < |s.procs| && s.procs[i].alive
    ensures Inv(ForkStep(s, i))
  {
    ForkAccounts(s, i);
    ForkPts(s, i);
    ForkKinds(s, i);
    var t := ForkStep(s, i);
    forall j | 0 <= j < |t.procs|
      ensures GoodAreas(t.procs[j].areas) && (!t.procs[j].alive ==> t.procs[j].areas == [])
    {
      assert t.procs[j].areas == s.procs[Origin(s, i, j)].areas;
    }
  }

  lemma ForkPts(s: System, i: nat)
    requires Inv(s) && i < |s.procs| && s.procs[i].alive
    ensures PtTracked(ForkStep(s, i)) && WritableIsSole(ForkStep(s, i))
  {
    var t := ForkStep(s, i);
    forall j, v | 0 <= j < |t.procs| && t.procs[j].alive && v in t.procs[j].pt
      ensures Slot(t, j, v).Some? && Slot(t, j, v).value.frame == t.procs[j].pt[v].frame
      ensures t.procs[j].pt[v].prot.write && !SharedAt(t, j, v) ==> t.refs[t.procs[j].pt[v].frame] == 1
    {
      ForkPages(s, i, j, v);
    }
  }

  lemma ForkKinds(s: System, i: nat)
    requires KindsAgree(s) && i < |s.procs|
    ensures KindsAgree(ForkStep(s, i))
  {
    var t := ForkStep(s, i);
    forall j, v: nat, k, u: nat |
      0 <= j < |t.procs| && 0 <= k < |t.procs| && Slot(t, j, v).Some? && Slot(t, k, u).Some?
      && Slot(t, j, v).value.frame == Slot(t, k, u).value.frame
      ensures SharedAt(t, j, v) == SharedAt(t, k, u)
    {
      ForkSlots(s, i, j, v);
      ForkSlots(s, i, k, u);
    }
  }

  /**
    What fork leaves in the page tables of parent and child: every tracked page, mapped to its
    frame, readable and executable, and writable exactly when it is shared.
  */
  lemma ForkEntries(s: System, i: nat, j: nat, v: nat)
    requires Inv(s) && Legal(s, Fork(i)) && (j == i || j == |s.procs|)
    ensures var pt := ForkStep(s, i).procs[j].pt;
      && (v in pt <==> Slot(s, i, v).Some?)
      && (v in pt ==>
            && pt[v].frame == Slot(s, i, v).value.frame
            && pt[v].prot.read && pt[v].prot.exec
            && (pt[v].prot.write <==> SharedAt(s, i, v)))
  {
    ForkedPt(s, i, v);
  }

  /** The child is a new live process over the parent's areas, with no signal queued; nobody else changes. */
  lemma ForkChild(s: System, i: nat, j: nat)
    requires Legal(s, Fork(i)) && j < |s.procs|
    ensures var t := ForkStep(s, i); var child := t.procs[|s.procs|];
      && |t.procs| == |s.procs| + 1
      && child.alive && !child.segv && child.areas == s.procs[i].areas
      && t.procs[j].areas == s.procs[j].areas && t.procs[j].alive == s.procs[j].alive
      && t.procs[j].segv == s.procs[j].segv && (j != i ==> t.procs[j].pt == s.procs[j].pt)
      && t.mem == s.mem && t.free == s.free
  {
  }

  /** After a fork parent and child can store to shared memory, and to nothing else before a fault. */
  lemma ForkStoresIff(s: System, i: nat, j: nat, a: nat, b: Byte)
    requires Inv(s) && Legal(s, Fork(i)) && (j == i || j == |s.procs|)
    ensures Legal(ForkStep(s, i), Store(j, a, b)) <==> SharedAt(s, i, a)
  {
    ForkEntries(s, i, j, Floor(a));
    PageKind(s, i, a);
    if SharedAt(s, i, a) {
      SharedIsTracked(s, i, Floor(a));
    }
  }

  lemma SharedIsTracked(s: System, i: nat, v: nat)
    requires i < |s.procs| && GoodAreas(s.procs[i].areas) && SharedAt(s, i, v) && v % PAGE_SIZE == 0
    ensures Slot(s, i, v).Some?
  {
    FindAreaIn(s.procs[i].areas, v);
    TrackLivesInArea(s.procs[i].areas, v);
  }

  /**
    Fork keeps the protection of a mapped page exactly when it was the one fork gives: a page
    shared read-only becomes writable.
  */
  lemma ForkKeepsProtIff(s: System, i: nat, j: nat, v: nat)
    requires Inv(s) && Legal(s, Fork(i)) && (j == i || j == |s.procs|) && v in s.procs[i].pt
    ensures v in ForkStep(s, i).procs[j].pt
    ensures ForkStep(s, i).procs[j].pt[v] == s.procs[i].pt[v]
            <==> s.procs[i].pt[v].prot == Prot(true, SharedAt(s, i, v), true)
  {
    ForkEntries(s, i, j, v);
    assert Slot(s, i, v).Some?;
  }

  lemma ForkKeeps(s: System, e: Eager, i: nat)
    requires Inv(s) && Refines(s, e) && Legal(s, Fork(i))
    ensures Inv(ForkStep(s, i)) && Refines(ForkStep(s, i), EagerStep(e, Fork(i)))
  {
    ForkInv(s, i);
    var t, d := ForkStep(s, i), EagerStep(e, Fork(i));
    assert EagerTotal(d);
    forall j, a: nat | 0 <= j < |t.procs| ensures ByteAgrees(t, d, j, a) {
      ForkByte(s, e, i, j, a);
    }
  }

  lemma ForkByte(s: System, e: Eager, i: nat, j: nat, a: nat)
    requires Inv(s) && Refines(s, e) && Legal(s, Fork(i)) && j < |s.procs| + 1
    ensures EagerTotal(EagerStep(e, Fork(i))) && j < |ForkStep(s, i).procs| == |EagerStep(e, Fork(i)).procs|
    ensures ByteAgrees(ForkStep(s, i), EagerStep(e, Fork(i)), j, a)
  {
    var t, d := ForkStep(s, i), EagerStep(e, Fork(i));
    assert ByteAgrees(s, e, Origin(s, i, j), a);
    assert t.procs[j].areas == s.procs[Origin(s, i, j)].areas;
  }

  /* ---------- Exit and unmapping ---------- */

  /** Releasing references clears and frees exactly the frames nobody owns any more. */
  lemma ReleaseAccounts(s: System, s1: System, gone: multiset<Frame>)
    requires Accounts(s) && gone <= s.refs
    requires s1.refs == s.refs && s1.mem == s.mem && s1.free == s.free
    requires AllOwned(s1.procs) == s.refs - gone
    ensures Accounts(Release(s1, gone))
  {
    var t := Release(s1, gone);
    forall f | f in t.mem ensures f in t.free <==> t.refs[f] == 0 {
      assert f in gone ==> s.refs[f] > 0;
    }
    forall f | f in t.free ensures f in t.mem && t.mem[f] == ZeroPage() {
      if f in gone {
        assert f in s.refs;
      }
    }
  }

  ghost predicate Releases(s: System, t: System, i: nat, gone: multiset<Frame>) {
    && Changes(s, t, i)
    && t == Release(System(t.procs, s.refs, s.mem, s.free), gone)
    && Owned(s.procs[i].areas) == Owned(t.procs[i].areas) + gone
  }

  lemma ReleasesAccounts(s: System, t: System, i: nat, gone: multiset<Frame>)
    requires Accounts(s) && Releases(s, t, i, gone)
    ensures Accounts(t)
  {
    ShrinkTotal(s, t, i, gone);
    AllOwnedHas(s.procs, i);
    assert gone <= Owned(s.procs[i].areas);
    ReleaseAccounts(s, System(t.procs, s.refs, s.mem, s.free), gone);
  }

  /** Dropping part of a process: the remaining slots are old ones, the rest is unmapped. */
  lemma ReleaseStepKeeps(s: System, t: System, e: Eager, d: Eager, i: nat, gone: multiset<Frame>)
    requires Inv(s) && Refines(s, e) && Releases(s, t, i, gone) && Replaces(s, t, i, {}, false)
    requires EagerTotal(d) && |d.procs| == |e.procs| && d.procs == e.procs[i := d.procs[i]] && d.objs == e.objs
    requires CellsMatch(t.procs[i], t.mem, d.procs[i])
    ensures Inv(t) && Refines(t, d)
  {
    ReleasesAccounts(s, t, i, gone);
    ReplaceKeeps(s, t, i, {}, false);
    forall a: nat ensures OwnByte(t, e, d, i, a) {
      SharedCellIsOld(s, t, e, d, i, a);
    }
    ReplaceRefines(s, t, e, d, i);
  }

  lemma SharedCellIsOld(s: System, t: System, e: Eager, d: Eager, i: nat, a: nat)
    requires Inv(s) && Refines(s, e) && Replaces(s, t, i, {}, false)
    requires EagerTotal(d) && |d.procs| == |e.procs| && CellsMatch(t.procs[i], t.mem, d.procs[i])
    ensures OwnByte(t, e, d, i, a)
  {
    var c := d.procs[i][a];
    if c.SharedByte? {
      CellIsSlot(t, i, a, c);
      SlotIsOwned(t, i, Floor(a));
      assert ByteAgrees(s, e, i, a);
      FindAreaOfPage(t.procs[i].areas, a);
      PageKind(s, i, a);
    }
  }

  lemma ExitReleases(s: System, i: nat)
    requires i < |s.procs|
    ensures Releases(s, ExitStep(s, i), i, Owned(s.procs[i].areas))
  {
    assert Owned([]) == multiset{};
  }

  /** A process without areas has no slots. */
  lemma BareProcess(p: Process, q: Process)
    requires q.areas == []
    ensures GoodAreas(q.areas) && SlotsFrom(p, q, {}, false) && OwnedFrom(p, q, {})
  {
    assert Owned([]) == multiset{};
  }

  lemma ExitReplaces(s: System, i: nat)
    requires s.refs == AllOwned(s.procs) && i < |s.procs|
    ensures Releases(s, ExitStep(s, i), i, Owned(s.procs[i].areas))
    ensures Replaces(s, ExitStep(s, i), i, {}, false)
  {
    var t := ExitStep(s, i);
    ExitReleases(s, i);
    ShrinkTotal(s, t, i, Owned(s.procs[i].areas));
    BareProcess(s.procs[i], t.procs[i]);
  }

  lemma ExitKeeps(s: System, e: Eager, i: nat)
    requires Inv(s) && Refines(s, e) && Legal(s, Exit(i))
    ensures Inv(ExitStep(s, i)) && Refines(ExitStep(s, i), EagerStep(e, Exit(i)))
  {
    var t, d := ExitStep(s, i), EagerStep(e, Exit(i));
    ExitReplaces(s, i);
    assert t.procs[i].areas == [];
    ReleaseStepKeeps(s, t, e, d, i, Owned(s.procs[i].areas));
  }

  lemma UnmapReplaces(s: System, i: nat, lo: nat, hi: nat)
    requires Inv(s) && Legal(s, Unmap(i, lo, hi))
    ensures Releases(s, UnmapStep(s, i, lo, hi), i, FramesOf(KeepTracks(AllTracks(s.procs[i].areas), lo, hi)))
    ensures Replaces(s, UnmapStep(s, i, lo, hi), i, {}, false)
  {
    var t := UnmapStep(s, i, lo, hi);
    var p, q := s.procs[i], t.procs[i];
    var gone := FramesOf(KeepTracks(AllTracks(p.areas), lo, hi));
    SubGoodAreas(p.areas, lo, hi);
    SubTracks(p.areas, lo, hi);
    ShrinkTotal(s, t, i, gone);
    OneProcess(s, i);
    forall v: nat
      ensures TrackAt(q.areas, v) == if lo <= v < hi then None else TrackAt(p.areas, v)
      ensures KindAt(q.areas, v) == if lo <= v < hi then None else KindAt(p.areas, v)
    {
      SubTrackAt(p.areas, lo, hi, v);
      SubKindAt(p.areas, lo, hi, v);
    }
    UnmapSole(s, t, i, lo, hi);
  }

  /** The page table after an unmapping is the old one without the range. */
  lemma UnmapEntries(s: System, i: nat, lo: nat, hi: nat, v: nat)
    requires Inv(s) && Legal(s, Unmap(i, lo, hi))
    ensures var before, after := s.procs[i].pt, UnmapStep(s, i, lo, hi).procs[i].pt;
      && (v in after <==> v in before && !(lo <= v < hi))
      && (v in after ==> after[v] == before[v])
  {
    SubTracks(s.procs[i].areas, lo, hi);
    if v in s.procs[i].pt {
      assert Slot(s, i, v).Some?;
    }
  }

  /** The surviving page table is the old one outside the range. */
  lemma UnmapSole(s: System, t: System, i: nat, lo: nat, hi: nat)
    requires Inv(s) && Legal(s, Unmap(i, lo, hi)) && t == UnmapStep(s, i, lo, hi)
    requires t.refs == AllOwned(t.procs)
    requires forall v: nat ::
      && TrackAt(t.procs[i].areas, v) == (if lo <= v < hi then None else TrackAt(s.procs[i].areas, v))
      && KindAt(t.procs[i].areas, v) == (if lo <= v < hi then None else KindAt(s.procs[i].areas, v))
    ensures PtFollows(t.procs[i]) && SoleIn(t.procs[i], t.refs)
  {
    var p, q := s.procs[i], t.procs[i];
    SubTracks(p.areas, lo, hi);
    forall v | v in q.pt
      ensures TrackAt(q.areas, v).Some? && TrackAt(q.areas, v).value.frame == q.pt[v].frame
      ensures q.pt[v].prot.write && KindAt(q.areas, v) != Some(Shared) ==> t.refs[q.pt[v].frame] == 1
    {
      assert v in p.pt && Slot(s, i, v).Some?;
      assert !(lo <= v < hi);
      assert SharedAt(s, i, v) == SharedAt(t, i, v);
      assert Slot(t, i, v) == Slot(s, i, v);
      SlotIsOwned(t, i, v);
    }
  }

  lemma ReleasedPage(s: System, gone: multiset<Frame>, f: Frame)
    requires f in s.refs - gone
    ensures PageOf(Release(s, gone).mem, f) == PageOf(s.mem, f)
  {
  }

  lemma AlignedRange(lo: nat, hi: nat, a: nat)
    requires lo % PAGE_SIZE == 0 && hi % PAGE_SIZE == 0
    ensures lo <= a < hi <==> lo <= Floor(a) < hi
  {
  }

  lemma UnmapKeepsCell(s: System, i: nat, lo: nat, hi: nat, a: nat)
    requires Legal(s, Unmap(i, lo, hi)) && GoodAreas(s.procs[i].areas)
    requires UnmapStep(s, i, lo, hi).refs == AllOwned(UnmapStep(s, i, lo, hi).procs)
    ensures var t := UnmapStep(s, i, lo, hi);
      CellAt(t.procs[i].areas, t.mem, a)
      == if lo <= a < hi then Unmapped else CellAt(s.procs[i].areas, s.mem, a)
  {
    UnmappedCell(s.procs[i].areas, s.mem, lo, hi, a);
    UnmapKeepsPage(s, i, lo, hi, Floor(a));
    SamePagesSameCell(UnmapStep(s, i, lo, hi).procs[i].areas, s.mem, UnmapStep(s, i, lo, hi).mem, a);
  }

  lemma SamePagesSameCell(areas: seq<MemArea>, mem: map<Frame, Page>, mem': map<Frame, Page>, a: nat)
    requires var t := TrackAt(areas, Floor(a)); t.Some? ==> PageOf(mem, t.value.frame) == PageOf(mem', t.value.frame)
    ensures CellAt(areas, mem, a) == CellAt(areas, mem', a)
  {
  }

  /** A page still tracked after an unmapping keeps its contents. */
  lemma UnmapKeepsPage(s: System, i: nat, lo: nat, hi: nat, v: nat)
    requires i < |s.procs| && lo <= hi
    requires UnmapStep(s, i, lo, hi).refs == AllOwned(UnmapStep(s, i, lo, hi).procs)
    ensures var t := UnmapStep(s, i, lo, hi);
      Slot(t, i, v).Some? ==> PageOf(s.mem, Slot(t, i, v).value.frame) == PageOf(t.mem, Slot(t, i, v).value.frame)
  {
    var t := UnmapStep(s, i, lo, hi);
    if Slot(t, i, v).Some? {
      SlotIsOwned(t, i, v);
      var gone := FramesOf(KeepTracks(AllTracks(s.procs[i].areas), lo, hi));
      ReleasedPage(System(t.procs, s.refs, s.mem, s.free), gone, Slot(t, i, v).value.frame);
    }
  }

  /** Subtracting a range removes its bytes from view and no others. */
  lemma {:induction false} UnmappedCell(areas: seq<MemArea>, mem: map<Frame, Page>, lo: nat, hi: nat, x: nat)
    requires lo <= hi && lo % PAGE_SIZE == 0 && hi % PAGE_SIZE == 0
    requires GoodAreas(areas) && NoLostTracks(areas, lo, hi)
    ensures CellAt(SubArea(areas, lo, hi), mem, x) == if lo <= x < hi then Unmapped else CellAt(areas, mem, x)
  {
    SubKindAt(areas, lo, hi, x);
    SubTrackAt(areas, lo, hi, Floor(x));
    AlignedRange(lo, hi, x);
  }

  lemma UnmapCells(s: System, e: Eager, i: nat, lo: nat, hi: nat)
    requires Refines(s, e) && Legal(s, Unmap(i, lo, hi)) && GoodAreas(s.procs[i].areas)
    requires UnmapStep(s, i, lo, hi).refs == AllOwned(UnmapStep(s, i, lo, hi).procs)
    ensures var t, d := UnmapStep(s, i, lo, hi), EagerStep(e, Unmap(i, lo, hi));
      CellsMatch(t.procs[i], t.mem, d.procs[i])
  {
    var t, d := UnmapStep(s, i, lo, hi), EagerStep(e, Unmap(i, lo, hi));
    forall a: nat ensures a in d.procs[i] && d.procs[i][a] == CellAt(t.procs[i].areas, t.mem, a) {
      assert ByteAgrees(s, e, i, a);
      UnmapKeepsCell(s, i, lo, hi, a);
    }
  }

  lemma UnmapKeeps(s: System, e: Eager, i: nat, lo: nat, hi: nat)
    requires Inv(s) && Refines(s, e) && Legal(s, Unmap(i, lo, hi))
    ensures Inv(UnmapStep(s, i, lo, hi)) && Refines(UnmapStep(s, i, lo, hi), EagerStep(e, Unmap(i, lo, hi)))
  {
    var t, d := UnmapStep(s, i, lo, hi), EagerStep(e, Unmap(i, lo, hi));
    UnmapReplaces(s, i, lo, hi);
    UnmapCells(s, e, i, lo, hi);
    ReleaseStepKeeps(s, t, e, d, i, FramesOf(KeepTracks(AllTracks(s.procs[i].areas), lo, hi)));
  }

  /* ---------- Mapping ---------- */

  function AnonArea(start: nat, len: nat): MemArea {
    MemArea(Mmap, [], None, 0, start, len)
  }

  lemma MapAnonReplaces(s: System, i: nat, start: nat, len: nat)
    requires Inv(s) && Legal(s, MapAnon(i, start, len))
    ensures Replaces(s, MapAnonStep(s, i, start, len), i, {}, false)
    ensures Accounts(MapAnonStep(s, i, start, len))
  {
    var t := MapAnonStep(s, i, start, len);
    var p, q, a := s.procs[i], t.procs[i], AnonArea(start, len);
    AppendGood(p.areas, a);
    AppendTracks(p.areas, a);
    GrowTotal(s, t, i, multiset{});
    OneProcess(s, i);
    forall v: nat
      ensures TrackAt(q.areas, v) == TrackAt(p.areas, v)
      ensures TrackAt(p.areas, v).Some? ==> KindAt(q.areas, v) == KindAt(p.areas, v)
    {
      AppendAt(p.areas, a, v);
    }
  }

  lemma MapAnonCell(s: System, i: nat, start: nat, len: nat, a: nat)
    requires Inv(s) && Legal(s, MapAnon(i, start, len))
    ensures var t := MapAnonStep(s, i, start, len);
      CellAt(t.procs[i].areas, t.mem, a)
      == if start <= a < start + len then Private(0) else CellAt(s.procs[i].areas, s.mem, a)
  {
    AnonAreaGood(start, len);
    AnonCell(s.procs[i].areas, s.mem, start, len, a);
  }

  lemma AnonAreaGood(start: nat, len: nat)
    requires len > 0 && start % PAGE_SIZE == 0 && len % PAGE_SIZE == 0
    ensures GoodArea(AnonArea(start, len))
  {
  }

  /** A fresh anonymous area reads as zeros; the bytes outside it are as before. */
  lemma {:induction false} AnonCell(areas: seq<MemArea>, mem: map<Frame, Page>, start: nat, len: nat, x: nat)
    requires GoodAreas(areas) && GoodArea(AnonArea(start, len)) && FreeRange(areas, start, start + len)
    ensures CellAt(areas + [AnonArea(start, len)], mem, x)
            == if start <= x < start + len then Private(0) else CellAt(areas, mem, x)
  {
    var a := AnonArea(start, len);
    AppendAt(areas, a, x);
    AppendAt(areas, a, Floor(x));
    AlignedContains(a, x);
  }

  lemma MapAnonKeeps(s: System, e: Eager, i: nat, start: nat, len: nat)
    requires Inv(s) && Refines(s, e) && Legal(s, MapAnon(i, start, len))
    ensures Inv(MapAnonStep(s, i, start, len))
    ensures Refines(MapAnonStep(s, i, start, len), EagerStep(e, MapAnon(i, start, len)))
  {
    var t, d := MapAnonStep(s, i, start, len), EagerStep(e, MapAnon(i, start, len));
    MapAnonReplaces(s, i, start, len);
    ReplaceKeeps(s, t, i, {}, false);
    forall a: nat ensures a in d.procs[i] && d.procs[i][a] == CellAt(t.procs[i].areas, t.mem, a) {
      assert ByteAgrees(s, e, i, a);
      MapAnonCell(s, i, start, len, a);
    }
    forall a: nat ensures OwnByte(t, e, d, i, a) {
      SharedCellIsOld(s, t, e, d, i, a);
    }
    ReplaceRefines(s, t, e, d, i);
  }

  function FrameArea(kind: MemType, start: nat, frames: seq<Frame>): MemArea {
    MemArea(kind, TracksFrom(start, frames), None, 0, start, |frames| * PAGE_SIZE)
  }

  /** Lookups in a process that has just mapped frames. */
  lemma MapFramesAt(s: System, i: nat, kind: MemType, start: nat, frames: seq<Frame>, prot: Prot, v: nat)
    requires Inv(s) && Legal(s, MapFrames(i, kind, start, frames, prot))
    ensures var p, q := s.procs[i], MapFramesStep(s, i, kind, start, frames, prot).procs[i];
      var inside := start <= v < start + |frames| * PAGE_SIZE;
      && KindAt(q.areas, v) == (if inside then Some(kind) else KindAt(p.areas, v))
      && (!inside ==> TrackAt(q.areas, v) == TrackAt(p.areas, v))
      && (inside && v % PAGE_SIZE == 0 ==>
            TrackAt(q.areas, v) == Some(MapTrack(v, frames[(v - start) / PAGE_SIZE], 0)))
      && (inside && v % PAGE_SIZE != 0 ==> TrackAt(q.areas, v) == None)
  {
    var a := FrameArea(kind, start, frames);
    FrameAreaGood(kind, start, frames);
    AppendAt(s.procs[i].areas, a, v);
    if v % PAGE_SIZE == 0 {
      TracksFromFind(start, frames, v);
    } else {
      FindTrackIn(a.mtrackers, v);
    }
  }

  lemma MapFramesOwned(s: System, i: nat, kind: MemType, start: nat, frames: seq<Frame>, prot: Prot)
    requires Inv(s) && Legal(s, MapFrames(i, kind, start, frames, prot))
    ensures var t := MapFramesStep(s, i, kind, start, frames, prot);
      && t.refs == AllOwned(t.procs) && GoodAreas(t.procs[i].areas)
      && OwnedFrom(s.procs[i], t.procs[i], FrameSet(frames))
  {
    var t, a := MapFramesStep(s, i, kind, start, frames, prot), FrameArea(kind, start, frames);
    FrameAreaGood(kind, start, frames);
    AppendGood(s.procs[i].areas, a);
    AppendTracks(s.procs[i].areas, a);
    TracksFromFrames(start, frames);
    GrowTotal(s, t, i, multiset(frames));
  }

  lemma {:induction false} OnceEach(frames: seq<Frame>, f: Frame)
    requires forall i, j :: 0 <= i < j < |frames| ==> frames[i] != frames[j]
    ensures multiset(frames)[f] == if f in frames then 1 else 0
  {
    if frames != [] {
      assert frames == [frames[0]] + frames[1..];
      OnceEach(frames[1..], f);
    }
  }

  lemma MapFramesPt(s: System, i: nat, kind: MemType, start: nat, frames: seq<Frame>, prot: Prot, v: nat)
    requires Inv(s) && Legal(s, MapFrames(i, kind, start, frames, prot))
    requires v in MapFramesStep(s, i, kind, start, frames, prot).procs[i].pt
    ensures var t := MapFramesStep(s, i, kind, start, frames, prot); var q := t.procs[i];
      && TrackAt(q.areas, v).Some? && TrackAt(q.areas, v).value.frame == q.pt[v].frame
      && (q.pt[v].prot.write && KindAt(q.areas, v) != Some(Shared) ==> t.refs[q.pt[v].frame] == 1)
  {
    MappedEntry(s.procs[i].pt, start, frames, prot, v);
    if start <= v < start + |frames| * PAGE_SIZE && v % PAGE_SIZE == 0 {
      MapFramesAt(s, i, kind, start, frames, prot, v);
      OnceEach(frames, frames[(v - start) / PAGE_SIZE]);
    } else {
      OldPagePt(s, i, kind, start, frames, prot, v);
    }
  }

  /** A page mapped before keeps its tracker, and its frame gains no reference. */
  lemma OldPagePt(s: System, i: nat, kind: MemType, start: nat, frames: seq<Frame>, prot: Prot, v: nat)
    requires Inv(s) && Legal(s, MapFrames(i, kind, start, frames, prot)) && v in s.procs[i].pt
    ensures var t := MapFramesStep(s, i, kind, start, frames, prot);
      var areas, pte := t.procs[i].areas, s.procs[i].pt[v];
      && TrackAt(areas, v).Some? && TrackAt(areas, v).value.frame == pte.frame
      && (pte.prot.write && KindAt(areas, v) != Some(Shared) ==> t.refs[pte.frame] == 1)
  {
    assert Slot(s, i, v).Some?;
    OldPageOutside(s, i, kind, start, frames, prot, v);
    MapFramesAt(s, i, kind, start, frames, prot, v);
    SlotIsOwned(s, i, v);
    OnceEach(frames, s.procs[i].pt[v].frame);
  }

  /** A page that was tracked before lies outside the new area. */
  lemma OldPageOutside(s: System, i: nat, kind: MemType, start: nat, frames: seq<Frame>, prot: Prot, v: nat)
    requires Inv(s) && Legal(s, MapFrames(i, kind, start, frames, prot)) && Slot(s, i, v).Some?
    ensures !(start <= v < start + |frames| * PAGE_SIZE)
  {
    FrameAreaGood(kind, start, frames);
    AppendAt(s.procs[i].areas, FrameArea(kind, start, frames), v);
  }

  /** Every new page is mapped to its frame with the protection asked for; no other entry changes. */
  lemma MapFramesEntries(s: System, i: nat, kind: MemType, start: nat, frames: seq<Frame>, prot: Prot, v: nat)
    requires Inv(s) && Legal(s, MapFrames(i, kind, start, frames, prot))
    ensures var before, after := s.procs[i].pt, MapFramesStep(s, i, kind, start, frames, prot).procs[i].pt;
      if start <= v < start + |frames| * PAGE_SIZE && v % PAGE_SIZE == 0
      then v in after && after[v] == Pte(frames[(v - start) / PAGE_SIZE], prot)
      else (v in after <==> v in before) && (v in before ==> after[v] == before[v])
  {
    MappedEntry(s.procs[i].pt, start, frames, prot, v);
  }

  lemma MapFramesReplaces(s: System, i: nat, kind: MemType, start: nat, frames: seq<Frame>, prot: Prot)
    requires Inv(s) && Legal(s, MapFrames(i, kind, start, frames, prot))
    ensures Replaces(s, MapFramesStep(s, i, kind, start, frames, prot), i, FrameSet(frames), kind == Shared)
  {
    MapFramesOwned(s, i, kind, start, frames, prot);
    MapFramesSlots(s, i, kind, start, frames, prot);
    MapFramesPts(s, i, kind, start, frames, prot);
  }

  lemma MapFramesSlots(s: System, i: nat, kind: MemType, start: nat, frames: seq<Frame>, prot: Prot)
    requires Inv(s) && Legal(s, MapFrames(i, kind, start, frames, prot))
    ensures var q := MapFramesStep(s, i, kind, start, frames, prot).procs[i];
      SlotsFrom(s.procs[i], q, FrameSet(frames), kind == Shared)
  {
    var p, q := s.procs[i], MapFramesStep(s, i, kind, start, frames, prot).procs[i];
    forall v: nat | TrackAt(q.areas, v).Some?
      ensures
        || (&& TrackAt(p.areas, v).Some?
            && TrackAt(p.areas, v).value.frame == TrackAt(q.areas, v).value.frame
            && KindAt(p.areas, v) == KindAt(q.areas, v))
        || (&& TrackAt(q.areas, v).value.frame in FrameSet(frames)
            && KindAt(q.areas, v) == Some(kind))
    {
      MapFramesAt(s, i, kind, start, frames, prot, v);
    }
  }

  lemma MapFramesPts(s: System, i: nat, kind: MemType, start: nat, frames: seq<Frame>, prot: Prot)
    requires Inv(s) && Legal(s, MapFrames(i, kind, start, frames, prot))
    ensures var t := MapFramesStep(s, i, kind, start, frames, prot); PtFollows(t.procs[i]) && SoleIn(t.procs[i], t.refs)
  {
    var t := MapFramesStep(s, i, kind, start, frames, prot);
    var q := t.procs[i];
    forall v | v in q.pt
      ensures TrackAt(q.areas, v).Some? && TrackAt(q.areas, v).value.frame == q.pt[v].frame
      ensures q.pt[v].prot.write && KindAt(q.areas, v) != Some(Shared) ==> t.refs[q.pt[v].frame] == 1
    {
      MapFramesPt(s, i, kind, start, frames, prot, v);
    }
  }

  lemma MapFramesAccounts(s: System, i: nat, kind: MemType, start: nat, frames: seq<Frame>, prot: Prot)
    requires Inv(s) && Legal(s, MapFrames(i, kind, start, frames, prot))
    ensures Accounts(MapFramesStep(s, i, kind, start, frames, prot))
  {
    MapFramesOwned(s, i, kind, start, frames, prot);
    forall f ensures multiset(frames)[f] == if f in frames then 1 else 0 {
      OnceEach(frames, f);
    }
  }

  lemma MapFramesCell(s: System, e: Eager, i: nat, kind: MemType, start: nat, frames: seq<Frame>, prot: Prot, a: nat)
    requires Inv(s) && Refines(s, e) && Legal(s, MapFrames(i, kind, start, frames, prot))
    ensures var op := MapFrames(i, kind, start, frames, prot);
      var t, d := MapFramesStep(s, i, kind, start, frames, prot), EagerStep(e, op);
      && EagerTotal(d)
      && d.procs[i][a] == CellAt(t.procs[i].areas, t.mem, a) && OwnByte(t, e, d, i, a)
  {
    var t, d := MapFramesStep(s, i, kind, start, frames, prot), EagerStep(e, MapFrames(i, kind, start, frames, prot));
    assert EagerTotal(d);
    assert ByteAgrees(s, e, i, a);
    FrameAreaGood(kind, start, frames);
    FrameCell(s.procs[i].areas, s.mem, kind, start, frames, a);
    if !(start <= a < start + |frames| * PAGE_SIZE) {
      SharedIsOwned(s, e, i, a);
    }
  }

  /** An object a process sees is an owned frame. */
  lemma SharedIsOwned(s: System, e: Eager, i: nat, a: nat)
    requires Accounts(s) && Refines(s, e) && i < |s.procs|
    ensures e.procs[i][a].SharedByte? ==> e.procs[i][a].obj in s.refs
  {
    assert ByteAgrees(s, e, i, a);
    if e.procs[i][a].SharedByte? {
      CellIsSlot(s, i, a, e.procs[i][a]);
      SlotIsOwned(s, i, Floor(a));
    }
  }

  /** Freshly mapped frames show their bytes; the bytes outside the area are as before. */
  lemma {:induction false} FrameCell(
    areas: seq<MemArea>, mem: map<Frame, Page>, kind: MemType, start: nat, frames: seq<Frame>, x: nat)
    requires GoodAreas(areas) && GoodArea(FrameArea(kind, start, frames))
    requires FreeRange(areas, start, start + |frames| * PAGE_SIZE)
    ensures CellAt(areas + [FrameArea(kind, start, frames)], mem, x)
            == if start <= x < start + |frames| * PAGE_SIZE
               then ByteOf(kind, mem, frames[(x - start) / PAGE_SIZE], x) else CellAt(areas, mem, x)
  {
    var a := FrameArea(kind, start, frames);
    AppendAt(areas, a, x);
    AppendAt(areas, a, Floor(x));
    AlignedContains(a, x);
    FloorFacts(x);
    TracksFromFind(start, frames, Floor(x));
    SamePage(start, x);
  }

  function ByteOf(kind: MemType, mem: map<Frame, Page>, f: Frame, x: nat): Cell {
    if kind == Shared then SharedByte(f, x % PAGE_SIZE) else Private(PageOf(mem, f)[x % PAGE_SIZE])
  }

  lemma SamePage(start: nat, x: nat)
    requires start % PAGE_SIZE == 0
    ensures (x - start) / PAGE_SIZE == (Floor(x) - start) / PAGE_SIZE
  {
    var k := x / PAGE_SIZE - start / PAGE_SIZE;
    assert start == start / PAGE_SIZE * PAGE_SIZE;
    assert Floor(x) - start == k * PAGE_SIZE;
    assert x - start == k * PAGE_SIZE + x % PAGE_SIZE;
    Arith.DivUnique(x - start, PAGE_SIZE, k, x % PAGE_SIZE);
    Arith.MultipleMod(k, PAGE_SIZE);
  }

  lemma MapFramesKeeps(s: System, e: Eager, i: nat, kind: MemType, start: nat, frames: seq<Frame>, prot: Prot)
    requires Inv(s) && Refines(s, e) && Legal(s, MapFrames(i, kind, start, frames, prot))
    ensures Inv(MapFramesStep(s, i, kind, start, frames, prot))
    ensures var op := MapFrames(i, kind, start, frames, prot);
      Refines(MapFramesStep(s, i, kind, start, frames, prot), EagerStep(e, op))
  {
    var t, d := MapFramesStep(s, i, kind, start, frames, prot), EagerStep(e, MapFrames(i, kind, start, frames, prot));
    MapFramesReplaces(s, i, kind, start, frames, prot);
    MapFramesAccounts(s, i, kind, start, frames, prot);
    ReplaceKeeps(s, t, i, FrameSet(frames), kind == Shared);
    forall a: nat
      ensures EagerTotal(d) && a in d.procs[i]
      ensures d.procs[i][a] == CellAt(t.procs[i].areas, t.mem, a) && OwnByte(t, e, d, i, a)
    {
      MapFramesCell(s, e, i, kind, start, frames, prot, a);
    }
    MapFramesCell(s, e, i, kind, start, frames, prot, 0);
    ReplaceRefines(s, t, e, d, i);
  }

  /* ---------- Whole runs ---------- */

  /** The machine at boot: one process, nothing mapped, every frame free and zero. */
  ghost predicate Boot(s: System) {
    && s.procs == [Process([], map[], true, false)]
    && s.refs == multiset{} && s.free == s.mem.Keys
    && forall f :: f in s.mem ==> s.mem[f] == ZeroPage()
  }

  ghost predicate EagerBoot(e: Eager) {
    EagerTotal(e) && |e.procs| == 1 && forall a: nat :: e.procs[0][a] == Unmapped
  }

  lemma BootInv(s: System)
    requires Boot(s)
    ensures Inv(s)
  {
    assert s.procs[..0] == [];
    assert Owned([]) == multiset{};
    assert AllOwned(s.procs) == AllOwned(s.procs[..0]) + Owned(s.procs[0].areas);
  }

  lemma BootRefines(s: System, e: Eager)
    requires Boot(s) && EagerBoot(e)
    ensures Refines(s, e)
  {
    forall i, a: nat | 0 <= i < |s.procs| ensures ByteAgrees(s, e, i, a) {
    }
  }

  /** The eager state a copy-on-write state stands for. */
  ghost function Abstract(s: System): Eager {
    Eager(seq(|s.procs|, i requires 0 <= i < |s.procs| => imap a: nat :: CellAt(s.procs[i].areas, s.mem, a)),
          imap f: Frame :: PageOf(s.mem, f))
  }

  lemma Abstracts(s: System)
    requires Inv(s)
    ensures Refines(s, Abstract(s))
  {
    var e := Abstract(s);
    forall i, a: nat | 0 <= i < |s.procs| ensures ByteAgrees(s, e, i, a) {
      AbstractCell(s, i, a);
    }
  }

  lemma AbstractCell(s: System, i: nat, a: nat)
    requires Inv(s) && i < |s.procs|
    ensures ByteAgrees(s, Abstract(s), i, a)
  {
    var c := Abstract(s).procs[i][a];
    if c.SharedByte? {
      CellIsSlot(s, i, a, c);
      SlotIsOwned(s, i, Floor(a));
    }
  }

  lemma InvKept(s: System, op: Op)
    requires Inv(s) && Legal(s, op)
    ensures Inv(Step(s, op))
  {
    Abstracts(s);
    StepKeeps(s, Abstract(s), op);
  }

  /** Every step keeps the invariant and is matched by one step of the eager machine. */
  lemma StepKeeps(s: System, e: Eager, op: Op)
    requires Inv(s) && Refines(s, e) && Legal(s, op)
    ensures Inv(Step(s, op)) && Refines(Step(s, op), EagerStep(e, op))
  {
    match op
    case Fork(i) => ForkKeeps(s, e, i);
    case Fault(i, addr, answer) => FaultKeeps(s, e, i, addr, answer);
    case Store(i, addr, b) => StoreKeeps(s, e, i, addr, b);
    case Exit(i) => ExitKeeps(s, e, i);
    case MapAnon(i, start, len) => MapAnonKeeps(s, e, i, start, len);
    case MapFrames(i, kind, start, frames, prot) => MapFramesKeeps(s, e, i, kind, start, frames, prot);
    case Unmap(i, lo, hi) => UnmapKeeps(s, e, i, lo, hi);
  }

  ghost predicate LegalRun(s: System, ops: seq<Op>)
    decreases |ops|
  {
    ops != [] ==> Legal(s, ops[0]) && LegalRun(Step(s, ops[0]), ops[1..])
  }

  ghost function Run(s: System, ops: seq<Op>): System
    requires LegalRun(s, ops)
    decreases |ops|
  {
    if ops == [] then s else Run(Step(s, ops[0]), ops[1..])
  }

  /** The eager machine after the same operations. */
  ghost predicate EagerRun(e: Eager, ops: seq<Op>, d: Eager)
    decreases |ops|
  {
    if ops == [] then d == e
    else EagerTotal(e) && ops[0].pid < |e.procs| && EagerRun(EagerStep(e, ops[0]), ops[1..], d)
  }

  lemma {:induction false} RunRefines(s: System, e: Eager, ops: seq<Op>) returns (d: Eager)
    requires Inv(s) && Refines(s, e) && LegalRun(s, ops)
    ensures EagerRun(e, ops, d)
    ensures Inv(Run(s, ops)) && Refines(Run(s, ops), d)
    decreases |ops|
  {
    if ops == [] {
      d := e;
    } else {
      StepKeeps(s, e, ops[0]);
      d := RunRefines(Step(s, ops[0]), EagerStep(e, ops[0]), ops[1..]);
    }
  }

  /** What the hardware reads for a live process: through its page table, if the page is mapped. */
  function HardwareLoad(s: System, i: nat, a: nat): Option<Byte>
    requires i < |s.procs|
  {
    var pt := s.procs[i].pt;
    if Floor(a) in pt then Some(PageOf(s.mem, pt[Floor(a)].frame)[a % PAGE_SIZE]) else None
  }

  lemma LoadsAgree(s: System, e: Eager, i: nat, a: nat)
    requires Inv(s) && Refines(s, e)
    requires i < |s.procs| && s.procs[i].alive && HardwareLoad(s, i, a).Some?
    ensures EagerLoad(e, i, a) == HardwareLoad(s, i, a)
  {
    assert ByteAgrees(s, e, i, a);
    assert Slot(s, i, Floor(a)).Some?;
    SlotHasKind(s, i, Floor(a));
    PageKind(s, i, a);
  }

  /**
    From boot, after any legal run, every byte the hardware lets any live process read is the
    byte that process has in the machine whose fork copies all private memory at once.
  */
  lemma CowIsInvisible(s: System, e: Eager, ops: seq<Op>, d: Eager, i: nat, a: nat)
    requires Boot(s) && EagerBoot(e) && LegalRun(s, ops) && EagerRun(e, ops, d)
    requires i < |Run(s, ops).procs| && Run(s, ops).procs[i].alive && HardwareLoad(Run(s, ops), i, a).Some?
    ensures i < |d.procs| && EagerTotal(d) && EagerLoad(d, i, a) == HardwareLoad(Run(s, ops), i, a)
  {
    BootInv(s);
    BootRefines(s, e);
    var d' := RunRefines(s, e, ops);
    EagerRunIsUnique(e, ops, d, d');
    LoadsAgree(Run(s, ops), d, i, a);
  }

  lemma {:induction false} EagerRunIsUnique(e: Eager, ops: seq<Op>, d: Eager, d': Eager)
    requires EagerRun(e, ops, d) && EagerRun(e, ops, d')
    ensures d == d'
    decreases |ops|
  {
    if ops != [] {
      EagerRunIsUnique(EagerStep(e, ops[0]), ops[1..], d, d');
    }
  }

  /**
    From boot, after any legal run: counts are exact, free frames are exactly the unowned ones and
    all zero, and the frame of a writable private page has one tracker.
  */
  lemma CowInvariantAlways(s: System, ops: seq<Op>)
    requires Boot(s) && LegalRun(s, ops)
    ensures Accounts(Run(s, ops)) && WritableIsSole(Run(s, ops)) && KindsAgree(Run(s, ops))
  {
    BootInv(s);
    Abstracts(s);
    var _ := RunRefines(s, Abstract(s), ops);
  }

  /* ---------- Shared memory stays writable ---------- */

  /** Every shared page of the process is mapped for writing. */
  ghost predicate SharedReady(p: Process) {
    forall v: nat :: v % PAGE_SIZE == 0 && KindAt(p.areas, v) == Some(Shared) ==> v in p.pt && p.pt[v].prot.write
  }

  ghost predicate AllReady(s: System) {
    forall i :: 0 <= i < |s.procs| && s.procs[i].alive ==> SharedReady(s.procs[i])
  }

  ghost predicate AsksWritable(op: Op) {
    op.MapFrames? && op.kind == Shared ==> op.prot.write
  }

  lemma ForkReady(s: System, i: nat)
    requires Inv(s) && Legal(s, Fork(i)) && AllReady(s)
    ensures AllReady(ForkStep(s, i))
  {
    var t := ForkStep(s, i);
    forall j | 0 <= j < |t.procs| && t.procs[j].alive ensures SharedReady(t.procs[j]) {
      if j == i || j == |s.procs| {
        forall v: nat | v % PAGE_SIZE == 0 && KindAt(t.procs[j].areas, v) == Some(Shared)
          ensures v in t.procs[j].pt && t.procs[j].pt[v].prot.write
        {
          SharedIsTracked(s, i, v);
          ForkEntries(s, i, j, v);
        }
      } else {
        assert t.procs[j] == s.procs[j];
      }
    }
  }

  /** A fault maps one more page writable and leaves every page its kind. */
  lemma FaultReady(s: System, i: nat, addr: nat, answer: Option<Frame>)
    requires Legal(s, Fault(i, addr, answer)) && SharedReady(s.procs[i])
    ensures |FaultStep(s, i, addr, answer).procs| == |s.procs| && SharedReady(FaultStep(s, i, addr, answer).procs[i])
  {
    hide FaultStep;
    FaultSize(s, Fault(i, addr, answer));
    var q := FaultStep(s, i, addr, answer).procs[i];
    forall v: nat | v % PAGE_SIZE == 0 && KindAt(q.areas, v) == Some(Shared) ensures v in q.pt && q.pt[v].prot.write {
      FaultKinds(s, i, addr, answer, v);
      FaultEntries(s, i, addr, answer, v);
    }
  }

  lemma FaultEntries(s: System, i: nat, addr: nat, answer: Option<Frame>, u: nat)
    requires Legal(s, Fault(i, addr, answer)) && u in s.procs[i].pt && s.procs[i].pt[u].prot.write
    ensures i < |FaultStep(s, i, addr, answer).procs|
    ensures var pt := FaultStep(s, i, addr, answer).procs[i].pt; u in pt && pt[u].prot.write
  {
    hide CopyPage, RemapPage, FreshPage, FaultProt;
    var area, v := FindArea(s.procs[i].areas, addr).value, Floor(addr);
    var prot := FaultProt(area.mtype, addr);
    FaultProtWrites(area.mtype, addr);
    var f := match FindTrack(area.mtrackers, v) case Some(t) => t.frame case None => 0;
    EntriesAfter(s, i, v, f, prot, u);
    if answer.Some? {
      NewEntriesAfter(s, i, v, f, answer.value, prot, u);
    }
  }

  lemma FaultProtWrites(kind: MemType, addr: nat)
    ensures FaultProt(kind, addr).write
  {
  }

  lemma EntriesAfter(s: System, i: nat, v: nat, f: Frame, prot: Prot, u: nat)
    requires i < |s.procs| && u in s.procs[i].pt && s.procs[i].pt[u].prot.write && prot.write
    ensures var t := RemapPage(s, i, v, f, prot);
      i < |t.procs| && u in t.procs[i].pt && t.procs[i].pt[u].prot.write
  {
  }

  lemma NewEntriesAfter(s: System, i: nat, v: nat, src: Frame, dst: Frame, prot: Prot, u: nat)
    requires i < |s.procs| && u in s.procs[i].pt && s.procs[i].pt[u].prot.write && prot.write
    ensures var t := CopyPage(s, i, v, src, dst, prot);
      i < |t.procs| && u in t.procs[i].pt && t.procs[i].pt[u].prot.write
    ensures var t := FreshPage(s, i, v, dst, prot);
      i < |t.procs| && u in t.procs[i].pt && t.procs[i].pt[u].prot.write
  {
  }

  lemma FaultKinds(s: System, i: nat, addr: nat, answer: Option<Frame>, u: nat)
    requires Legal(s, Fault(i, addr, answer))
    ensures KindAt(FaultStep(s, i, addr, answer).procs[i].areas, u) == KindAt(s.procs[i].areas, u)
  {
    var areas, v := s.procs[i].areas, Floor(addr);
    if answer.Some? {
      RetrackShape(areas, v, answer.value);
      SameShapeFacts(areas, Retrack(areas, v, answer.value), u);
      TrackShape(areas, MapTrack(v, answer.value, 7));
      SameShapeFacts(areas, Track(areas, MapTrack(v, answer.value, 7)), u);
    }
  }

  lemma MapAnonReady(s: System, i: nat, start: nat, len: nat)
    requires Inv(s) && Legal(s, MapAnon(i, start, len)) && SharedReady(s.procs[i])
    ensures |MapAnonStep(s, i, start, len).procs| == |s.procs| && SharedReady(MapAnonStep(s, i, start, len).procs[i])
  {
    var q := MapAnonStep(s, i, start, len).procs[i];
    forall v: nat | KindAt(q.areas, v) == Some(Shared) ensures KindAt(s.procs[i].areas, v) == Some(Shared) {
      AppendAt(s.procs[i].areas, AnonArea(start, len), v);
    }
  }

  lemma MapFramesReady(s: System, i: nat, kind: MemType, start: nat, frames: seq<Frame>, prot: Prot)
    requires Inv(s) && Legal(s, MapFrames(i, kind, start, frames, prot)) && SharedReady(s.procs[i])
    requires kind == Shared ==> prot.write
    ensures var t := MapFramesStep(s, i, kind, start, frames, prot);
      |t.procs| == |s.procs| && SharedReady(t.procs[i])
  {
    var q := MapFramesStep(s, i, kind, start, frames, prot).procs[i];
    forall v: nat | v % PAGE_SIZE == 0 && KindAt(q.areas, v) == Some(Shared) ensures v in q.pt && q.pt[v].prot.write {
      MapFramesAt(s, i, kind, start, frames, prot, v);
      MappedEntry(s.procs[i].pt, start, frames, prot, v);
    }
  }

  lemma UnmapReady(s: System, i: nat, lo: nat, hi: nat)
    requires Inv(s) && Legal(s, Unmap(i, lo, hi)) && SharedReady(s.procs[i])
    ensures |UnmapStep(s, i, lo, hi).procs| == |s.procs| && SharedReady(UnmapStep(s, i, lo, hi).procs[i])
  {
    var p, q := s.procs[i], UnmapStep(s, i, lo, hi).procs[i];
    SubTracks(p.areas, lo, hi);
    forall v: nat | v % PAGE_SIZE == 0 && KindAt(q.areas, v) == Some(Shared) ensures v in q.pt && q.pt[v].prot.write {
      SubKindAt(p.areas, lo, hi, v);
    }
  }

  lemma StoreReady(s: System, i: nat, addr: nat, b: Byte)
    requires Legal(s, Store(i, addr, b)) && SharedReady(s.procs[i])
    ensures var t := StoreStep(s, i, addr, b); |t.procs| == |s.procs| && SharedReady(t.procs[i])
  {
  }

  lemma ExitReady(s: System, i: nat)
    requires i < |s.procs|
    ensures var t := ExitStep(s, i); |t.procs| == |s.procs| && !t.procs[i].alive
  {
  }

  lemma OwnReady(s: System, op: Op)
    requires Inv(s) && Legal(s, op) && SharedReady(s.procs[op.pid]) && AsksWritable(op) && !op.Fork?
    ensures |Step(s, op).procs| == |s.procs|
    ensures Step(s, op).procs[op.pid].alive ==> SharedReady(Step(s, op).procs[op.pid])
  {
    hide FaultStep, StoreStep, ExitStep, MapAnonStep, MapFramesStep, UnmapStep;
    hide Inv, SharedReady, NoLostTracks, FreeRange, FindArea;
    match op
    case Fault(i, addr, answer) => FaultReady(s, i, addr, answer);
    case Store(i, addr, b) => StoreReady(s, i, addr, b);
    case Exit(i) => ExitReady(s, i);
    case MapAnon(i, start, len) => MapAnonReady(s, i, start, len);
    case MapFrames(i, kind, start, frames, prot) => MapFramesReady(s, i, kind, start, frames, prot);
    case Unmap(i, lo, hi) => UnmapReady(s, i, lo, hi);
  }

  lemma FaultSize(s: System, op: Op)
    requires Legal(s, op) && op.Fault?
    ensures |FaultStep(s, op.pid, op.addr, op.answer).procs| == |s.procs|
  {
    hide Retrack, Track, FindArea, FindTrack, Floor;
  }

  lemma StepElsewhere(s: System, op: Op, j: nat)
    requires Legal(s, op) && j < |s.procs| && j != op.pid && !op.Fork?
    ensures j < |Step(s, op).procs| && Step(s, op).procs[j] == s.procs[j]
  {
  }

  lemma StepReady(s: System, op: Op)
    requires Inv(s) && Legal(s, op) && AllReady(s) && AsksWritable(op)
    ensures AllReady(Step(s, op))
  {
    if op.Fork? {
      ForkReady(s, op.pid);
    } else {
      hide Step, Legal, Inv, SharedReady;
      OwnReady(s, op);
      forall j | 0 <= j < |s.procs| && j != op.pid ensures Step(s, op).procs[j] == s.procs[j] {
        StepElsewhere(s, op, j);
      }
    }
  }

  lemma {:induction false} RunReady(s: System, ops: seq<Op>)
    requires Inv(s) && LegalRun(s, ops) && AllReady(s) && forall op :: op in ops ==> AsksWritable(op)
    ensures Inv(Run(s, ops)) && AllReady(Run(s, ops))
    decreases |ops|
  {
    if ops != [] {
      assert ops[0] in ops && forall op :: op in ops[1..] ==> op in ops;
      InvKept(s, ops[0]);
      StepReady(s, ops[0]);
      RunReady(Step(s, ops[0]), ops[1..]);
    }
  }

  /**
    From boot, after any legal run whose shared mappings are asked writable, every live process can
    store to every byte of its shared memory, forks and faults notwithstanding.
  */
  lemma SharedStoresAlways(s: System, ops: seq<Op>, i: nat, a: nat, b: Byte)
    requires Boot(s) && LegalRun(s, ops) && forall op :: op in ops ==> AsksWritable(op)
    requires var t := Run(s, ops); i < |t.procs| && t.procs[i].alive && SharedAt(t, i, a)
    ensures Legal(Run(s, ops), Store(i, a, b))
  {
    BootInv(s);
    RunReady(s, ops);
    PageKind(Run(s, ops), i, a);
    FloorFacts(a);
  }

  /** From boot: one page mapped shared and read-only takes no store, and after a fork it does. */
  lemma ForkOpensExample(s: System, f: Frame, start: nat, b: Byte)
    requires Boot(s) && f in s.free && start > 0 && start % PAGE_SIZE == 0
    ensures var op := MapFrames(0, Shared, start, [f], Prot(true, false, false));
      && Legal(s, op)
      && !Legal(Step(s, op), Store(0, start, b))
      && Legal(Step(s, op), Fork(0))
      && Legal(Step(Step(s, op), Fork(0)), Store(0, start, b))
  {
    var prot := Prot(true, false, false);
    var op := MapFrames(0, Shared, start, [f], prot);
    BootInv(s);
    InvKept(s, op);
    Arith.DivUnique(0, PAGE_SIZE, 0, 0);
    Arith.ModZeroIsMultiple(start, PAGE_SIZE);
    assert Floor(start) == start;
    MapFramesEntries(s, 0, Shared, start, [f], prot, start);
    MapFramesAt(s, 0, Shared, start, [f], prot, start);
    ForkStoresIff(Step(s, op), 0, 0, start, b);
  }
}
