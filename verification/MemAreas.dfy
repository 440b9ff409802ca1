/**
  Virtual memory areas: the interval arithmetic of `MemArea::sub` and `MemSet::sub_area`
  (kernel/src/tasks/memset.rs), together with the page-table entries they remove.
*/
module MemAreas {
  import opened Wrappers

  /** The physical address of a page frame. */
  type Frame = nat

  datatype MemType = CodeSection | Stack | Mmap | Shared | ShareFile

  datatype MapTrack = MapTrack(vaddr: nat, frame: Frame, rwx: nat)

  datatype MemArea = MemArea(
    mtype: MemType,
    mtrackers: seq<MapTrack>,
    file: Option<nat>,
    offset: nat,
    start: nat,
    len: nat
  )
  {
    predicate Contains(addr: nat) {
      start <= addr < start + len
    }

    predicate Overlapping(lo: nat, hi: nat) {
      var end := start + len;
      !((lo <= start && hi <= start) || (lo >= end && hi >= end))
    }

    /** Both ends of the removed range fall inside the area, so `sub` takes its splitting branch. */
    predicate Splits(lo: nat, hi: nat) {
      Overlapping(lo, hi) && Contains(lo) && Contains(hi)
    }
  }

  /** What one call of `sub` leaves: the area itself, the split-off tail, and the unmapped pages. */
  datatype SubResult = SubResult(area: MemArea, tail: Option<MemArea>, unmapped: set<nat>)

  function KeepTracks(ts: seq<MapTrack>, lo: nat, hi: nat): seq<MapTrack> {
    if ts == [] then []
    else if lo <= ts[0].vaddr < hi then [ts[0]] + KeepTracks(ts[1..], lo, hi)
    else KeepTracks(ts[1..], lo, hi)
  }

  function DropTracks(ts: seq<MapTrack>, lo: nat, hi: nat): seq<MapTrack> {
    if ts == [] then []
    else if lo <= ts[0].vaddr < hi then DropTracks(ts[1..], lo, hi)
    else [ts[0]] + DropTracks(ts[1..], lo, hi)
  }

  function Pages(ts: seq<MapTrack>): set<nat> {
    set t | t in ts :: t.vaddr
  }

  /**
    `MemArea::sub`.  The splitting branch first drops the trackers of the tail and then extracts
    trackers of the tail from what is left, so the new area always starts without trackers.
  */
  function Sub(a: MemArea, lo: nat, hi: nat): SubResult
    requires lo <= hi
  {
    var end := a.start + a.len;
    if !a.Overlapping(lo, hi) then
      SubResult(a, None, {})
    else if a.Contains(lo) && a.Contains(hi) then
      var kept := DropTracks(a.mtrackers, hi, end);
      SubResult(
        a.(len := lo - a.start, mtrackers := DropTracks(kept, hi, end)),
        Some(MemArea(a.mtype, KeepTracks(kept, hi, end), a.file, hi - a.start, hi, end - hi)),
        {})
    else if lo <= a.start < hi && lo <= end < hi then
      SubResult(a.(len := 0, mtrackers := []), None, Pages(a.mtrackers))
    else
      var trimmed :=
        if a.Contains(lo) then a.(len := lo - a.start)
        else a.(len := end - hi, start := hi);
      var gone := DropTracks(a.mtrackers, trimmed.start, trimmed.start + trimmed.len);
      SubResult(
        trimmed.(mtrackers := KeepTracks(a.mtrackers, trimmed.start, trimmed.start + trimmed.len)),
        None,
        Pages(gone))
  }

  /* ---------- MemSet::sub_area ---------- */

  function Kept(a: MemArea, lo: nat, hi: nat): seq<MemArea>
    requires lo <= hi
  {
    var r := Sub(a, lo, hi).area;
    if r.len != 0 then [r] else []
  }

  function Tails(a: MemArea, lo: nat, hi: nat): seq<MemArea>
    requires lo <= hi
  {
    var t := Sub(a, lo, hi).tail;
    if t.Some? then [t.value] else []
  }

  function SubKept(areas: seq<MemArea>, lo: nat, hi: nat): seq<MemArea>
    requires lo <= hi
  {
    if areas == [] then [] else Kept(areas[0], lo, hi) + SubKept(areas[1..], lo, hi)
  }

  function SubTails(areas: seq<MemArea>, lo: nat, hi: nat): seq<MemArea>
    requires lo <= hi
  {
    if areas == [] then [] else Tails(areas[0], lo, hi) + SubTails(areas[1..], lo, hi)
  }

  function SubUnmapped(areas: seq<MemArea>, lo: nat, hi: nat): set<nat>
    requires lo <= hi
  {
    if areas == [] then {}
    else Sub(areas[0], lo, hi).unmapped + SubUnmapped(areas[1..], lo, hi)
  }

  /** The area list after `sub_area`: survivors in order, split-off tails at the end. */
  function SubArea(areas: seq<MemArea>, lo: nat, hi: nat): seq<MemArea>
    requires lo <= hi
  {
    SubKept(areas, lo, hi) + SubTails(areas, lo, hi)
  }

  ghost predicate Covered(areas: seq<MemArea>, x: nat) {
    exists a :: a in areas && a.Contains(x)
  }

  predicate Apart(a: MemArea, b: MemArea) {
    a.len == 0 || b.len == 0 || a.start + a.len <= b.start || b.start + b.len <= a.start
  }

  ghost predicate Disjoint(areas: seq<MemArea>) {
    areas != [] ==> (forall b :: b in areas[1..] ==> Apart(areas[0], b)) && Disjoint(areas[1..])
  }

  ghost predicate NonEmpty(areas: seq<MemArea>) {
    forall a :: a in areas ==> a.len > 0
  }

  ghost predicate TracksInside(areas: seq<MemArea>) {
    forall a, t :: a in areas && t in a.mtrackers ==> a.Contains(t.vaddr)
  }

  function AllTracks(areas: seq<MemArea>): seq<MapTrack> {
    if areas == [] then [] else areas[0].mtrackers + AllTracks(areas[1..])
  }

  /* One area. */

  lemma DropTracksIn(ts: seq<MapTrack>, lo: nat, hi: nat)
    ensures forall t :: t in DropTracks(ts, lo, hi) <==> t in ts && !(lo <= t.vaddr < hi)
  {
  }

  lemma KeepTracksIn(ts: seq<MapTrack>, lo: nat, hi: nat)
    ensures forall t :: t in KeepTracks(ts, lo, hi) <==> t in ts && lo <= t.vaddr < hi
  {
  }

  lemma {:induction false} DropTracksSplit(ts: seq<MapTrack>, us: seq<MapTrack>, lo: nat, hi: nat)
    ensures DropTracks(ts + us, lo, hi) == DropTracks(ts, lo, hi) + DropTracks(us, lo, hi)
  {
    if ts == [] {
      assert ts + us == us;
    } else {
      assert (ts + us)[1..] == ts[1..] + us;
      DropTracksSplit(ts[1..], us, lo, hi);
    }
  }

  lemma {:induction false} DropNothing(ts: seq<MapTrack>, lo: nat, hi: nat)
    requires forall t :: t in ts ==> !(lo <= t.vaddr < hi)
    ensures DropTracks(ts, lo, hi) == ts
  {
    if ts != [] {
      DropNothing(ts[1..], lo, hi);
    }
  }

  lemma {:induction false} KeepNothing(ts: seq<MapTrack>, lo: nat, hi: nat)
    requires forall t :: t in ts ==> !(lo <= t.vaddr < hi)
    ensures KeepTracks(ts, lo, hi) == []
  {
    if ts != [] {
      KeepNothing(ts[1..], lo, hi);
    }
  }

  lemma {:induction false} DropEverything(ts: seq<MapTrack>, lo: nat, hi: nat)
    requires forall t :: t in ts ==> lo <= t.vaddr < hi
    ensures DropTracks(ts, lo, hi) == []
  {
    if ts != [] {
      DropEverything(ts[1..], lo, hi);
    }
  }

  /** Keeping one interval is the same as dropping another when no tracker tells them apart. */
  lemma {:induction false} KeepIsDrop(ts: seq<MapTrack>, lo: nat, hi: nat, keepLo: nat, keepHi: nat)
    requires forall t :: t in ts ==> ((keepLo <= t.vaddr < keepHi) <==> !(lo <= t.vaddr < hi))
    ensures KeepTracks(ts, keepLo, keepHi) == DropTracks(ts, lo, hi)
  {
    if ts != [] {
      KeepIsDrop(ts[1..], lo, hi, keepLo, keepHi);
    }
  }

  predicate Within(a: MemArea, b: MemArea) {
    a.len == 0 || (b.start <= a.start && a.start + a.len <= b.start + b.len)
  }

  lemma {:induction false} SubOne(a: MemArea, lo: nat, hi: nat)
    requires lo <= hi
    ensures var r := Sub(a, lo, hi);
      forall x: nat :: (r.area.Contains(x) || (r.tail.Some? && r.tail.value.Contains(x)))
                        <==> (a.Contains(x) && !(lo <= x < hi))
    ensures var r := Sub(a, lo, hi);
      && Within(r.area, a)
      && (r.tail.Some? ==>
            r.tail.value.len > 0 && Within(r.tail.value, a) && Apart(r.area, r.tail.value))
  {
  }

  /** For nonempty ranges overlapping means sharing an address. */
  lemma OverlapIff(a: MemArea, lo: nat, hi: nat)
    requires a.len > 0 && lo < hi
    ensures a.Overlapping(lo, hi) <==> exists x: nat :: a.Contains(x) && lo <= x < hi
  {
    var x := if lo <= a.start then a.start else lo;
    if a.Overlapping(lo, hi) {
      assert a.Contains(x) && lo <= x < hi;
    }
  }

  /* Which byte of the file an address stands for. */

  /** The position the fault handler reads from and the write-back writes to. */
  function FilePos(a: MemArea, x: nat): int {
    a.offset + x - a.start
  }

  /**
    What is left of an area keeps its file.  An address below a hole keeps its place in it; behind a
    hole exactly if the area began at offset 0; in an area that lost its head, never.
  */
  lemma {:induction false} SubFilePosIff(a: MemArea, lo: nat, hi: nat, x: nat)
    requires lo <= hi
    ensures var r, b := Sub(a, lo, hi), Sub(a, lo, hi).area;
      && b.file == a.file
      && (b.Contains(x) ==> (FilePos(b, x) == FilePos(a, x) <==> !(lo < a.start < hi)))
      && (r.tail.Some? && r.tail.value.Contains(x) ==>
            r.tail.value.file == a.file && (FilePos(r.tail.value, x) == FilePos(a, x) <==> a.offset == 0))
  {
  }

  /** One page off the head of a two-page mapping: the second page now stands for the first of the file. */
  lemma HeadShiftsFileExample(file: nat)
    ensures var a := MemArea(ShareFile, [], Some(file), 0, 0x2000, 0x2000);
      var b := Sub(a, 0x1000, 0x3000).area;
      b.Contains(0x3000) && FilePos(a, 0x3000) == 0x1000 && FilePos(b, 0x3000) == 0
  {
  }

  /* The whole list. */

  /** `sub_area` covers exactly the old addresses outside `[lo, hi)`, for any area list at all. */
  lemma {:induction false} SubAreaCoverage(areas: seq<MemArea>, lo: nat, hi: nat, x: nat)
    requires lo <= hi
    ensures Covered(SubArea(areas, lo, hi), x) <==> Covered(areas, x) && !(lo <= x < hi)
  {
    if areas != [] {
      var rest := areas[1..];
      var r := Sub(areas[0], lo, hi);
      SubOne(areas[0], lo, hi);
      SubAreaCoverage(rest, lo, hi, x);
      CoveredConcat(SubKept(areas, lo, hi), SubTails(areas, lo, hi), x);
      CoveredConcat(SubKept(rest, lo, hi), SubTails(rest, lo, hi), x);
      var k := Kept(areas[0], lo, hi);
      var t := Tails(areas[0], lo, hi);
      CoveredConcat(k, SubKept(rest, lo, hi), x);
      CoveredConcat(t, SubTails(rest, lo, hi), x);
      assert areas == [areas[0]] + rest;
      CoveredConcat([areas[0]], rest, x);
      assert Covered([areas[0]], x) <==> areas[0].Contains(x) by {
        assert areas[0] in [areas[0]];
      }
      assert Covered(k, x) <==> r.area.Contains(x) by {
        if r.area.len != 0 { assert r.area in k; }
      }
      assert Covered(t, x) <==> r.tail.Some? && r.tail.value.Contains(x) by {
        if r.tail.Some? { assert r.tail.value in t; }
      }
    }
  }

  lemma CoveredConcat(xs: seq<MemArea>, ys: seq<MemArea>, x: nat)
    ensures Covered(xs + ys, x) <==> Covered(xs, x) || Covered(ys, x)
  {
    if Covered(xs, x) {
      var a :| a in xs && a.Contains(x);
      assert a in xs + ys;
    }
    if Covered(ys, x) {
      var a :| a in ys && a.Contains(x);
      assert a in xs + ys;
    }
  }

  ghost predicate AllApart(xs: seq<MemArea>, ys: seq<MemArea>) {
    forall a, b :: a in xs && b in ys ==> Apart(a, b)
  }

  lemma {:induction false} DisjointConcat(xs: seq<MemArea>, ys: seq<MemArea>)
    ensures Disjoint(xs + ys) <==> Disjoint(xs) && Disjoint(ys) && AllApart(xs, ys)
  {
    if xs == [] {
      assert xs + ys == ys;
    } else {
      assert (xs + ys)[1..] == xs[1..] + ys;
      DisjointConcat(xs[1..], ys);
      assert forall b :: b in xs[1..] + ys <==> b in xs[1..] || b in ys;
      assert forall a :: a in xs <==> a == xs[0] || a in xs[1..];
    }
  }

  /** Every area left by `sub_area` lies inside one of the areas it started from. */
  lemma {:induction false} SubAreaWithin(areas: seq<MemArea>, lo: nat, hi: nat, a: MemArea)
    requires lo <= hi
    requires a in SubArea(areas, lo, hi)
    ensures a.len > 0
    ensures exists b :: b in areas && Within(a, b)
  {
    SubOne(areas[0], lo, hi);
    if a in SubArea(areas[1..], lo, hi) {
      SubAreaWithin(areas[1..], lo, hi, a);
      var b :| b in areas[1..] && Within(a, b);
      assert b in areas;
    } else {
      assert areas[0] in areas && Within(a, areas[0]);
    }
  }

  /** What one area leaves stays apart from what the areas apart from it leave. */
  lemma {:induction false} PiecesApart(a: MemArea, rest: seq<MemArea>, lo: nat, hi: nat)
    requires lo <= hi && forall b :: b in rest ==> Apart(a, b)
    ensures AllApart(Kept(a, lo, hi) + Tails(a, lo, hi), SubArea(rest, lo, hi))
    ensures AllApart(SubArea(rest, lo, hi), Kept(a, lo, hi) + Tails(a, lo, hi))
    ensures AllApart(Kept(a, lo, hi), Tails(a, lo, hi))
  {
    SubOne(a, lo, hi);
    forall p, b | p in Kept(a, lo, hi) + Tails(a, lo, hi) && b in SubArea(rest, lo, hi)
      ensures Apart(p, b) && Apart(b, p)
    {
      SubAreaWithin(rest, lo, hi, b);
      var c :| c in rest && Within(b, c);
      assert Apart(a, c);
    }
  }

  lemma {:induction false} InterleaveDisjoint(k: seq<MemArea>, t: seq<MemArea>, kr: seq<MemArea>, tr: seq<MemArea>)
    requires Disjoint(k) && Disjoint(t) && AllApart(k, t) && Disjoint(kr + tr)
    requires AllApart(k + t, kr + tr) && AllApart(kr + tr, k + t)
    ensures Disjoint((k + kr) + (t + tr))
  {
    DisjointConcat(kr, tr);
    assert forall a :: a in k ==> a in k + t;
    assert forall a :: a in t ==> a in k + t;
    assert forall a :: a in kr ==> a in kr + tr;
    assert forall a :: a in tr ==> a in kr + tr;
    DisjointConcat(k, kr);
    DisjointConcat(t, tr);
    DisjointConcat(k + kr, t + tr);
  }

  lemma {:induction false} SubAreaDisjoint(areas: seq<MemArea>, lo: nat, hi: nat)
    requires lo <= hi
    requires Disjoint(areas)
    ensures Disjoint(SubArea(areas, lo, hi))
    ensures NonEmpty(SubArea(areas, lo, hi))
  {
    forall a | a in SubArea(areas, lo, hi) ensures a.len > 0 {
      SubAreaWithin(areas, lo, hi, a);
    }
    if areas != [] {
      var a, rest := areas[0], areas[1..];
      SubAreaDisjoint(rest, lo, hi);
      PiecesApart(a, rest, lo, hi);
      OnePieceDisjoint(Kept(a, lo, hi));
      OnePieceDisjoint(Tails(a, lo, hi));
      InterleaveDisjoint(Kept(a, lo, hi), Tails(a, lo, hi), SubKept(rest, lo, hi), SubTails(rest, lo, hi));
    }
  }

  lemma OnePieceDisjoint(p: seq<MemArea>)
    requires |p| <= 1
    ensures Disjoint(p)
  {
    if p != [] {
      assert p[1..] == [];
    }
  }

  /* ---------- Trackers and page-table entries ---------- */

  datatype Prot = Prot(read: bool, write: bool, exec: bool)

  datatype Pte = Pte(frame: Frame, prot: Prot)

  /** No split area has a tracker at or above the cut. */
  ghost predicate NoLostTracks(areas: seq<MemArea>, lo: nat, hi: nat) {
    forall a, t :: a in areas && t in a.mtrackers && a.Splits(lo, hi) ==> t.vaddr < lo
  }

  /** What a caller of `sub_area` wants: exactly the trackers and the mappings in `[lo, hi)` go. */
  ghost predicate SubExact(areas: seq<MemArea>, pt: map<nat, Pte>, lo: nat, hi: nat)
    requires lo <= hi
  {
    && multiset(AllTracks(SubArea(areas, lo, hi))) == multiset(DropTracks(AllTracks(areas), lo, hi))
    && pt - SubUnmapped(areas, lo, hi) == pt - (set v | v in pt && lo <= v < hi)
  }

  lemma {:induction false} AllTracksConcat(xs: seq<MemArea>, ys: seq<MemArea>)
    ensures AllTracks(xs + ys) == AllTracks(xs) + AllTracks(ys)
  {
    if xs == [] {
      assert xs + ys == ys;
    } else {
      assert (xs + ys)[1..] == xs[1..] + ys;
      AllTracksConcat(xs[1..], ys);
    }
  }

  lemma {:induction false} AllTracksIn(areas: seq<MemArea>, t: MapTrack)
    ensures t in AllTracks(areas) <==> exists a :: a in areas && t in a.mtrackers
  {
    if areas != [] {
      AllTracksIn(areas[1..], t);
      if t in areas[0].mtrackers {
        assert areas[0] in areas;
      }
      if exists a :: a in areas[1..] && t in a.mtrackers {
        var a :| a in areas[1..] && t in a.mtrackers;
        assert a in areas;
      }
    }
  }

  ghost predicate TracksIn(a: MemArea) {
    forall t :: t in a.mtrackers ==> a.Contains(t.vaddr)
  }

  function PagesIn(ts: seq<MapTrack>, lo: nat, hi: nat): set<nat> {
    set t | t in ts && lo <= t.vaddr < hi :: t.vaddr
  }

  lemma PagesInConcat(ts: seq<MapTrack>, us: seq<MapTrack>, lo: nat, hi: nat)
    ensures PagesIn(ts + us, lo, hi) == PagesIn(ts, lo, hi) + PagesIn(us, lo, hi)
  {
  }

  /** What is left of one area's trackers, and which pages are unmapped. */
  ghost predicate SubOneExact(a: MemArea, lo: nat, hi: nat)
    requires lo <= hi
  {
    var r := Sub(a, lo, hi);
    && (if r.area.len != 0 then r.area.mtrackers else []) == DropTracks(a.mtrackers, lo, hi)
    && (r.tail.Some? ==> r.tail.value.mtrackers == [])
    && r.unmapped == PagesIn(a.mtrackers, lo, hi)
  }

  lemma {:induction false} SubOneSplit(a: MemArea, lo: nat, hi: nat)
    requires lo <= hi && TracksIn(a)
    requires a.Splits(lo, hi) && forall t :: t in a.mtrackers ==> t.vaddr < lo
    ensures SubOneExact(a, lo, hi)
  {
    var end := a.start + a.len;
    DropNothing(a.mtrackers, lo, hi);
    DropNothing(a.mtrackers, hi, end);
    KeepNothing(a.mtrackers, hi, end);
    assert a.mtrackers != [] ==> a.mtrackers[0] in a.mtrackers;
  }

  lemma {:induction false} SubOneTrim(a: MemArea, lo: nat, hi: nat)
    requires lo <= hi && a.len > 0 && TracksIn(a)
    requires a.Overlapping(lo, hi) && !a.Splits(lo, hi)
    ensures SubOneExact(a, lo, hi)
  {
    var r := Sub(a, lo, hi).area;
    if lo <= a.start < hi && lo <= a.start + a.len < hi {
      DropEverything(a.mtrackers, lo, hi);
    } else {
      KeepIsDrop(a.mtrackers, lo, hi, r.start, r.start + r.len);
      DropTracksIn(a.mtrackers, r.start, r.start + r.len);
      if r.len == 0 {
        DropEverything(a.mtrackers, lo, hi);
      }
    }
  }

  /** One area loses exactly the trackers in the range when it is not split below a tracker. */
  lemma SubOneTracks(a: MemArea, lo: nat, hi: nat)
    requires lo <= hi && a.len > 0 && TracksIn(a)
    requires a.Splits(lo, hi) ==> forall t :: t in a.mtrackers ==> t.vaddr < lo
    ensures SubOneExact(a, lo, hi)
  {
    if !a.Overlapping(lo, hi) {
      DropNothing(a.mtrackers, lo, hi);
    } else if a.Splits(lo, hi) {
      SubOneSplit(a, lo, hi);
    } else {
      SubOneTrim(a, lo, hi);
    }
  }

  /** The list-level facts for one more area at the front. */
  lemma {:induction false} SubTracksCons(a: MemArea, rest: seq<MemArea>, lo: nat, hi: nat)
    requires lo <= hi && SubOneExact(a, lo, hi)
    ensures var areas := [a] + rest;
      && AllTracks(SubKept(areas, lo, hi)) == DropTracks(a.mtrackers, lo, hi) + AllTracks(SubKept(rest, lo, hi))
      && AllTracks(SubTails(areas, lo, hi)) == AllTracks(SubTails(rest, lo, hi))
      && SubUnmapped(areas, lo, hi) == Sub(a, lo, hi).unmapped + SubUnmapped(rest, lo, hi)
  {
    var areas, r := [a] + rest, Sub(a, lo, hi);
    assert areas[1..] == rest;
    AllTracksConcat(Kept(a, lo, hi), SubKept(rest, lo, hi));
    AllTracksConcat(Tails(a, lo, hi), SubTails(rest, lo, hi));
    AllTracksOne(r.area);
    if r.tail.Some? {
      AllTracksOne(r.tail.value);
    }
  }

  lemma AllTracksOne(a: MemArea)
    ensures AllTracks([a]) == a.mtrackers
  {
    assert [a][1..] == [];
  }

  lemma {:induction false} SubTracksExact(areas: seq<MemArea>, lo: nat, hi: nat)
    requires lo <= hi
    requires NonEmpty(areas) && TracksInside(areas) && NoLostTracks(areas, lo, hi)
    ensures AllTracks(SubKept(areas, lo, hi)) == DropTracks(AllTracks(areas), lo, hi)
    ensures AllTracks(SubTails(areas, lo, hi)) == []
    ensures SubUnmapped(areas, lo, hi) == PagesIn(AllTracks(areas), lo, hi)
  {
    if areas != [] {
      var a, rest := areas[0], areas[1..];
      assert areas == [a] + rest && forall b :: b in rest ==> b in areas;
      assert a in areas;
      SubTracksExact(rest, lo, hi);
      SubOneTracks(a, lo, hi);
      SubTracksCons(a, rest, lo, hi);
      DropTracksSplit(a.mtrackers, AllTracks(rest), lo, hi);
      PagesInConcat(a.mtrackers, AllTracks(rest), lo, hi);
    }
  }

  predicate StaysIn(a: MemArea, lo: nat, hi: nat, t: MapTrack)
    requires lo <= hi
  {
    t in a.mtrackers && t in Sub(a, lo, hi).area.mtrackers && Sub(a, lo, hi).area.len != 0
  }

  lemma {:induction false} PieceTracks(a: MemArea, lo: nat, hi: nat, t: MapTrack)
    requires lo <= hi
    requires t in AllTracks(Kept(a, lo, hi)) || t in AllTracks(Tails(a, lo, hi))
    ensures StaysIn(a, lo, hi, t)
  {
    var r, end := Sub(a, lo, hi), a.start + a.len;
    AllTracksOne(r.area);
    KeepTracksIn(a.mtrackers, r.area.start, r.area.start + r.area.len);
    DropTracksIn(a.mtrackers, hi, end);
    var kept := DropTracks(a.mtrackers, hi, end);
    DropTracksIn(kept, hi, end);
    if r.tail.Some? {
      AllTracksOne(r.tail.value);
      KeepTracksIn(kept, hi, end);
    }
  }

  /** Trackers never appear from nowhere, and those that stay belong to an area they started in. */
  lemma {:induction false} SubTracksOrigin(areas: seq<MemArea>, lo: nat, hi: nat, t: MapTrack)
    requires lo <= hi
    requires t in AllTracks(SubArea(areas, lo, hi))
    ensures exists a :: a in areas && StaysIn(a, lo, hi, t)
  {
    AllTracksConcat(SubKept(areas, lo, hi), SubTails(areas, lo, hi));
    var a, rest := areas[0], areas[1..];
    AllTracksConcat(Kept(a, lo, hi), SubKept(rest, lo, hi));
    AllTracksConcat(Tails(a, lo, hi), SubTails(rest, lo, hi));
    AllTracksConcat(SubKept(rest, lo, hi), SubTails(rest, lo, hi));
    if t in AllTracks(SubArea(rest, lo, hi)) {
      SubTracksOrigin(rest, lo, hi, t);
      var b :| b in rest && StaysIn(b, lo, hi, t);
      assert b in areas;
    } else {
      PieceTracks(a, lo, hi, t);
      assert a in areas;
    }
  }

  lemma {:induction false} SubUnmappedOrigin(areas: seq<MemArea>, lo: nat, hi: nat, v: nat)
    requires lo <= hi
    requires v in SubUnmapped(areas, lo, hi)
    ensures exists a :: a in areas && v in Sub(a, lo, hi).unmapped
  {
    if v in Sub(areas[0], lo, hi).unmapped {
      assert areas[0] in areas;
    } else {
      SubUnmappedOrigin(areas[1..], lo, hi, v);
      var a :| a in areas[1..] && v in Sub(a, lo, hi).unmapped;
      assert a in areas;
    }
  }

  lemma {:induction false} SamePointSameArea(areas: seq<MemArea>, a: MemArea, b: MemArea, x: nat)
    requires Disjoint(areas)
    requires a in areas && b in areas && a.Contains(x) && b.Contains(x)
    ensures a == b
  {
    assert a in areas[1..] ==> Apart(areas[0], a);
    assert b in areas[1..] ==> Apart(areas[0], b);
    if a in areas[1..] && b in areas[1..] {
      SamePointSameArea(areas[1..], a, b, x);
    }
  }

  /**
    `sub_area` removes exactly the trackers and mappings of `[lo, hi)` if and only if no area is
    split at or below one of its own trackers.  The failing family includes every unmapping of
    the head of a touched area, since that takes the splitting branch too.
  */
  lemma SubAreaExactIff(areas: seq<MemArea>, pt: map<nat, Pte>, lo: nat, hi: nat)
    requires lo <= hi
    requires Disjoint(areas) && NonEmpty(areas) && TracksInside(areas)
    requires pt.Keys == Pages(AllTracks(areas))
    ensures SubExact(areas, pt, lo, hi) <==> NoLostTracks(areas, lo, hi)
  {
    if NoLostTracks(areas, lo, hi) {
      SubTracksExact(areas, lo, hi);
      AllTracksConcat(SubKept(areas, lo, hi), SubTails(areas, lo, hi));
      assert AllTracks(SubArea(areas, lo, hi)) == DropTracks(AllTracks(areas), lo, hi);
      assert SubUnmapped(areas, lo, hi) == (set v | v in pt && lo <= v < hi);
    } else {
      var a, t :| a in areas && t in a.mtrackers && a.Splits(lo, hi) && t.vaddr >= lo;
      AllTracksIn(areas, t);
      assert t.vaddr in pt;
      LostTrackIsInexact(areas, pt, lo, hi, a, t);
    }
  }

  lemma LostTrackIsInexact(areas: seq<MemArea>, pt: map<nat, Pte>, lo: nat, hi: nat, a: MemArea, t: MapTrack)
    requires lo <= hi
    requires Disjoint(areas) && TracksInside(areas)
    requires a in areas && t in a.mtrackers && a.Splits(lo, hi) && t.vaddr >= lo
    requires t in AllTracks(areas) && t.vaddr in pt
    ensures !SubExact(areas, pt, lo, hi)
  {
    if t.vaddr >= hi {
      TailTrackIsLost(areas, lo, hi, a, t);
      DropTracksIn(AllTracks(areas), lo, hi);
      assert t in multiset(DropTracks(AllTracks(areas), lo, hi));
      assert t !in multiset(AllTracks(SubArea(areas, lo, hi)));
    } else {
      HolePageStaysMapped(areas, lo, hi, a, t);
      assert t.vaddr in pt - SubUnmapped(areas, lo, hi);
      assert t.vaddr !in pt - (set v | v in pt && lo <= v < hi);
    }
  }

  lemma {:induction false} SplitDropsTail(a: MemArea, lo: nat, hi: nat, t: MapTrack)
    requires lo <= hi && a.Splits(lo, hi) && a.Contains(t.vaddr) && t.vaddr >= hi
    ensures t !in Sub(a, lo, hi).area.mtrackers
  {
    var end := a.start + a.len;
    DropTracksIn(DropTracks(a.mtrackers, hi, end), hi, end);
  }

  /** A tracker above the hole is dropped with the hole, although its page is still covered. */
  lemma {:induction false} TailTrackIsLost(areas: seq<MemArea>, lo: nat, hi: nat, a: MemArea, t: MapTrack)
    requires lo <= hi && Disjoint(areas) && TracksInside(areas)
    requires a in areas && t in a.mtrackers && a.Splits(lo, hi) && t.vaddr >= hi
    ensures t !in AllTracks(SubArea(areas, lo, hi))
  {
    SplitDropsTail(a, lo, hi, t);
    if t in AllTracks(SubArea(areas, lo, hi)) {
      SubTracksOrigin(areas, lo, hi, t);
      var b :| b in areas && t in b.mtrackers && t in Sub(b, lo, hi).area.mtrackers;
      SamePointSameArea(areas, a, b, t.vaddr);
    }
  }

  /** No page of a split area is unmapped. */
  lemma HolePageStaysMapped(areas: seq<MemArea>, lo: nat, hi: nat, a: MemArea, t: MapTrack)
    requires lo <= hi && Disjoint(areas) && TracksInside(areas)
    requires a in areas && t in a.mtrackers && a.Splits(lo, hi)
    ensures t.vaddr !in SubUnmapped(areas, lo, hi)
  {
    if t.vaddr in SubUnmapped(areas, lo, hi) {
      SubUnmappedOrigin(areas, lo, hi, t.vaddr);
      var b :| b in areas && t.vaddr in Sub(b, lo, hi).unmapped;
      UnmappedWasTracked(b, lo, hi, t.vaddr);
      SamePointSameArea(areas, a, b, t.vaddr);
    }
  }

  /**
    Unmapping the first of two resident pages: the page stays in the page table, the second page
    loses its tracker while its area remains.
  */
  lemma HolePunchExample(f: Frame, g: Frame)
    ensures var low, high := MapTrack(0x1000, f, 0), MapTrack(0x2000, g, 0);
      var areas := [MemArea(Mmap, [low, high], None, 0, 0x1000, 0x2000)];
      && high !in AllTracks(SubArea(areas, 0x1000, 0x2000)) && Covered(SubArea(areas, 0x1000, 0x2000), 0x2000)
      && 0x1000 !in SubUnmapped(areas, 0x1000, 0x2000)
  {
    var low, high := MapTrack(0x1000, f, 0), MapTrack(0x2000, g, 0);
    var a := MemArea(Mmap, [low, high], None, 0, 0x1000, 0x2000);
    assert [a][1..] == [] && Disjoint([a]);
    assert a in [a] && a.Contains(0x2000);
    TailTrackIsLost([a], 0x1000, 0x2000, a, high);
    HolePageStaysMapped([a], 0x1000, 0x2000, a, low);
    SubAreaCoverage([a], 0x1000, 0x2000, 0x2000);
  }

  lemma UnmappedWasTracked(a: MemArea, lo: nat, hi: nat, v: nat)
    requires lo <= hi && v in Sub(a, lo, hi).unmapped
    ensures exists t :: t in a.mtrackers && t.vaddr == v
  {
    var r := Sub(a, lo, hi).area;
    DropTracksIn(a.mtrackers, r.start, r.start + r.len);
  }
}
