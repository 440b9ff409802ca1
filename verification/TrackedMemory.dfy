/**
  The trackers of one process: looking a page up the way `user_cow_int` does, replacing or
  adding a tracker, mapping every tracker as `cow_fork` does, and what each does to the multiset
  of owned frames.  (kernel/src/user/mod.rs, kernel/src/tasks/task.rs)
*/
module TrackedMemory {
  import opened Wrappers
  import opened Bytes
  import opened MemAreas
  import Arith

  function Floor(a: nat): nat {
    a / PAGE_SIZE * PAGE_SIZE
  }

  /* ---------- Lookups ---------- */

  function FindArea(areas: seq<MemArea>, a: nat): Option<MemArea> {
    if areas == [] then None
    else if areas[0].Contains(a) then Some(areas[0])
    else FindArea(areas[1..], a)
  }

  function FindTrack(ts: seq<MapTrack>, v: nat): Option<MapTrack> {
    if ts == [] then None
    else if ts[0].vaddr == v then Some(ts[0])
    else FindTrack(ts[1..], v)
  }

  /** The tracker of page `v`, wherever in the process it is. */
  function TrackAt(areas: seq<MemArea>, v: nat): Option<MapTrack> {
    FindTrack(AllTracks(areas), v)
  }

  function FramesOf(ts: seq<MapTrack>): multiset<Frame> {
    if ts == [] then multiset{} else multiset{ts[0].frame} + FramesOf(ts[1..])
  }

  /** The frames one process holds a reference to, with multiplicity. */
  function Owned(areas: seq<MemArea>): multiset<Frame> {
    FramesOf(AllTracks(areas))
  }

  /* ---------- Well-formed area lists ---------- */

  predicate PageAligned(a: MemArea) {
    a.start % PAGE_SIZE == 0 && a.len % PAGE_SIZE == 0
  }

  ghost predicate UniquePages(ts: seq<MapTrack>) {
    ts != [] ==> (forall t :: t in ts[1..] ==> t.vaddr != ts[0].vaddr) && UniquePages(ts[1..])
  }

  ghost predicate AlignedTracks(ts: seq<MapTrack>) {
    forall t :: t in ts ==> t.vaddr % PAGE_SIZE == 0
  }

  ghost predicate GoodArea(a: MemArea) {
    && a.len > 0 && PageAligned(a) && a.file.None? && a.mtype != ShareFile
    && TracksIn(a) && AlignedTracks(a.mtrackers) && UniquePages(a.mtrackers)
    && (a.mtype == Shared ==>
          forall v: nat :: a.Contains(v) && v % PAGE_SIZE == 0 ==> FindTrack(a.mtrackers, v).Some?)
  }

  ghost predicate GoodAreas(areas: seq<MemArea>) {
    Disjoint(areas) && forall a :: a in areas ==> GoodArea(a)
  }

  lemma GoodTail(areas: seq<MemArea>)
    requires GoodAreas(areas) && areas != []
    ensures GoodArea(areas[0]) && GoodAreas(areas[1..])
    ensures forall b :: b in areas[1..] ==> Apart(areas[0], b) && b in areas
  {
    assert areas[0] in areas;
  }

  /* ---------- Facts about lookups ---------- */

  lemma {:induction false} FindTrackIn(ts: seq<MapTrack>, v: nat)
    ensures FindTrack(ts, v).Some? ==> FindTrack(ts, v).value in ts && FindTrack(ts, v).value.vaddr == v
    ensures FindTrack(ts, v).None? ==> forall t :: t in ts ==> t.vaddr != v
  {
    if ts != [] {
      FindTrackIn(ts[1..], v);
    }
  }

  lemma {:induction false} FindTrackConcat(ts: seq<MapTrack>, us: seq<MapTrack>, v: nat)
    ensures FindTrack(ts + us, v) == if FindTrack(ts, v).Some? then FindTrack(ts, v) else FindTrack(us, v)
  {
    if ts == [] {
      assert ts + us == us;
    } else {
      assert (ts + us)[1..] == ts[1..] + us;
      FindTrackConcat(ts[1..], us, v);
    }
  }

  lemma {:induction false} FramesConcat(ts: seq<MapTrack>, us: seq<MapTrack>)
    ensures FramesOf(ts + us) == FramesOf(ts) + FramesOf(us)
  {
    if ts == [] {
      assert ts + us == us;
    } else {
      assert (ts + us)[1..] == ts[1..] + us;
      FramesConcat(ts[1..], us);
    }
  }

  lemma {:induction false} FindAreaIn(areas: seq<MemArea>, x: nat)
    ensures FindArea(areas, x).Some? ==> FindArea(areas, x).value in areas && FindArea(areas, x).value.Contains(x)
    ensures FindArea(areas, x).None? ==> forall a :: a in areas ==> !a.Contains(x)
  {
    if areas != [] {
      FindAreaIn(areas[1..], x);
    }
  }

  /** In a disjoint list the first area found is the only one. */
  lemma FindAreaIs(areas: seq<MemArea>, a: MemArea, x: nat)
    requires Disjoint(areas) && a in areas && a.Contains(x)
    ensures FindArea(areas, x) == Some(a)
  {
    FindAreaIn(areas, x);
    SamePointSameArea(areas, a, FindArea(areas, x).value, x);
  }

  lemma FloorFacts(a: nat)
    ensures Floor(a) <= a < Floor(a) + PAGE_SIZE && Floor(a) % PAGE_SIZE == 0
    ensures a % PAGE_SIZE == a - Floor(a)
  {
  }

  /** An aligned area contains an address exactly when it contains the address's page. */
  lemma AlignedContains(area: MemArea, a: nat)
    requires PageAligned(area)
    ensures area.Contains(a) <==> area.Contains(Floor(a))
  {
  }

  lemma {:induction false} FindAreaOfPage(areas: seq<MemArea>, a: nat)
    requires forall b :: b in areas ==> PageAligned(b)
    ensures FindArea(areas, a) == FindArea(areas, Floor(a))
  {
    if areas != [] {
      assert areas[0] in areas;
      AlignedContains(areas[0], a);
      FindAreaOfPage(areas[1..], a);
    }
  }

  /** A tracker for `v` can only be in the area containing `v`. */
  lemma {:induction false} TrackLivesInArea(areas: seq<MemArea>, v: nat)
    requires GoodAreas(areas)
    ensures TrackAt(areas, v) ==
            match FindArea(areas, v) case None => None case Some(a) => FindTrack(a.mtrackers, v)
  {
    if areas != [] {
      GoodTail(areas);
      var a, rest := areas[0], areas[1..];
      TrackLivesInArea(rest, v);
      FindTrackConcat(a.mtrackers, AllTracks(rest), v);
      FindTrackIn(a.mtrackers, v);
      FindAreaIn(rest, v);
    }
  }

  /* ---------- Replacing a tracker's frame ---------- */

  function SetFrame(ts: seq<MapTrack>, v: nat, f: Frame): seq<MapTrack> {
    if ts == [] then []
    else if ts[0].vaddr == v then [ts[0].(frame := f)] + ts[1..]
    else [ts[0]] + SetFrame(ts[1..], v, f)
  }

  /** `map_track.tracker = Arc::new(dst)` on the tracker found in the area containing `v`. */
  function Retrack(areas: seq<MemArea>, v: nat, f: Frame): seq<MemArea> {
    if areas == [] then []
    else if areas[0].Contains(v) then
      [areas[0].(mtrackers := SetFrame(areas[0].mtrackers, v, f))] + areas[1..]
    else [areas[0]] + Retrack(areas[1..], v, f)
  }

  lemma SwapOne(own: multiset<Frame>, others: multiset<Frame>, was: Frame, now: Frame)
    requires was in own
    ensures (own - multiset{was} + multiset{now}) + others == (own + others) - multiset{was} + multiset{now}
    ensures others + (own - multiset{was} + multiset{now}) == (others + own) - multiset{was} + multiset{now}
  {
  }

  lemma {:induction false} SetFramePages(ts: seq<MapTrack>, v: nat, f: Frame)
    ensures |SetFrame(ts, v, f)| == |ts|
    ensures forall i :: 0 <= i < |ts| ==> SetFrame(ts, v, f)[i].vaddr == ts[i].vaddr
  {
    if ts != [] && ts[0].vaddr != v {
      SetFramePages(ts[1..], v, f);
    }
  }

  lemma {:induction false} SetFrameFrames(ts: seq<MapTrack>, v: nat, f: Frame)
    requires FindTrack(ts, v).Some?
    ensures FindTrack(ts, v).value.frame in FramesOf(ts)
    ensures FramesOf(SetFrame(ts, v, f)) == FramesOf(ts) - multiset{FindTrack(ts, v).value.frame} + multiset{f}
  {
    var us := SetFrame(ts, v, f);
    if ts[0].vaddr == v {
      assert us[1..] == ts[1..];
    } else {
      SetFrameFrames(ts[1..], v, f);
      assert us[1..] == SetFrame(ts[1..], v, f);
      SwapOne(FramesOf(ts[1..]), multiset{ts[0].frame}, FindTrack(ts, v).value.frame, f);
    }
  }

  lemma {:induction false} SetFrameUnique(ts: seq<MapTrack>, v: nat, f: Frame)
    requires UniquePages(ts)
    ensures UniquePages(SetFrame(ts, v, f))
  {
    if ts != [] {
      var us := SetFrame(ts, v, f);
      if ts[0].vaddr == v {
        assert us[1..] == ts[1..];
      } else {
        SetFrameUnique(ts[1..], v, f);
        SetFramePages(ts[1..], v, f);
        assert us[1..] == SetFrame(ts[1..], v, f);
        forall t | t in us[1..] ensures t.vaddr != us[0].vaddr {
          var i :| 0 <= i < |us[1..]| && us[1..][i] == t;
          assert ts[1..][i] in ts[1..];
        }
      }
    }
  }

  lemma {:induction false} SetFrameFind(ts: seq<MapTrack>, v: nat, f: Frame, u: nat)
    requires FindTrack(ts, v).Some?
    ensures FindTrack(SetFrame(ts, v, f), u)
            == if u == v then Some(FindTrack(ts, v).value.(frame := f)) else FindTrack(ts, u)
  {
    var us := SetFrame(ts, v, f);
    if ts[0].vaddr == v {
      assert us[1..] == ts[1..];
    } else {
      SetFrameFind(ts[1..], v, f, u);
      assert us[1..] == SetFrame(ts[1..], v, f);
    }
  }

  lemma SetFrameGood(a: MemArea, v: nat, f: Frame)
    requires GoodArea(a) && FindTrack(a.mtrackers, v).Some?
    ensures GoodArea(a.(mtrackers := SetFrame(a.mtrackers, v, f)))
  {
    var us := SetFrame(a.mtrackers, v, f);
    SetFramePages(a.mtrackers, v, f);
    SetFrameUnique(a.mtrackers, v, f);
    forall t | t in us ensures a.Contains(t.vaddr) && t.vaddr % PAGE_SIZE == 0 {
      var i :| 0 <= i < |us| && us[i] == t;
      assert a.mtrackers[i] in a.mtrackers;
    }
    forall u: nat | FindTrack(a.mtrackers, u).Some? ensures FindTrack(us, u).Some? {
      SetFrameFind(a.mtrackers, v, f, u);
    }
  }

  /** Same intervals and kinds, position by position. */
  ghost predicate SameShape(xs: seq<MemArea>, ys: seq<MemArea>) {
    && |xs| == |ys|
    && forall i :: 0 <= i < |xs| ==>
         xs[i].start == ys[i].start && xs[i].len == ys[i].len && xs[i].mtype == ys[i].mtype
  }

  function KindAt(areas: seq<MemArea>, a: nat): Option<MemType> {
    match FindArea(areas, a) case None => None case Some(area) => Some(area.mtype)
  }

  lemma {:induction false} SameShapeFacts(xs: seq<MemArea>, ys: seq<MemArea>, a: nat)
    requires SameShape(xs, ys)
    ensures KindAt(xs, a) == KindAt(ys, a)
    ensures Disjoint(xs) ==> Disjoint(ys)
  {
    if xs != [] {
      assert SameShape(xs[1..], ys[1..]) by {
        forall i | 0 <= i < |xs[1..]|
          ensures xs[1..][i].start == ys[1..][i].start && xs[1..][i].len == ys[1..][i].len
                  && xs[1..][i].mtype == ys[1..][i].mtype
        {
          assert xs[1..][i] == xs[i + 1] && ys[1..][i] == ys[i + 1];
        }
      }
      SameShapeFacts(xs[1..], ys[1..], a);
      if Disjoint(xs) {
        forall b | b in ys[1..] ensures Apart(ys[0], b) {
          var i :| 0 <= i < |ys[1..]| && ys[1..][i] == b;
          assert xs[1..][i] in xs[1..];
          assert xs[i + 1].start == b.start && xs[i + 1].len == b.len;
        }
      }
    }
  }

  lemma {:induction false} RetrackFind(areas: seq<MemArea>, v: nat, f: Frame, u: nat)
    requires GoodAreas(areas) && TrackAt(areas, v).Some?
    ensures TrackAt(Retrack(areas, v, f), u)
            == if u == v then Some(TrackAt(areas, v).value.(frame := f)) else TrackAt(areas, u)
  {
    GoodTail(areas);
    var a, rest, out := areas[0], areas[1..], Retrack(areas, v, f);
    TrackLivesInArea(areas, v);
    FindTrackConcat(a.mtrackers, AllTracks(rest), v);
    FindTrackConcat(a.mtrackers, AllTracks(rest), u);
    FindTrackConcat(out[0].mtrackers, AllTracks(out[1..]), u);
    if a.Contains(v) {
      assert out[1..] == rest;
      SetFrameFind(a.mtrackers, v, f, u);
    } else {
      assert out[1..] == Retrack(rest, v, f);
      FindTrackIn(a.mtrackers, v);
      RetrackFind(rest, v, f, u);
    }
  }

  lemma {:induction false} RetrackOwned(areas: seq<MemArea>, v: nat, f: Frame)
    requires GoodAreas(areas) && TrackAt(areas, v).Some?
    ensures TrackAt(areas, v).value.frame in Owned(areas)
    ensures Owned(Retrack(areas, v, f))
            == Owned(areas) - multiset{TrackAt(areas, v).value.frame} + multiset{f}
  {
    GoodTail(areas);
    var a, rest, out := areas[0], areas[1..], Retrack(areas, v, f);
    TrackLivesInArea(areas, v);
    FindTrackConcat(a.mtrackers, AllTracks(rest), v);
    FramesConcat(a.mtrackers, AllTracks(rest));
    FramesConcat(out[0].mtrackers, AllTracks(out[1..]));
    if a.Contains(v) {
      assert out[1..] == rest;
      SetFrameFrames(a.mtrackers, v, f);
      SwapOne(FramesOf(a.mtrackers), Owned(rest), FindTrack(a.mtrackers, v).value.frame, f);
    } else {
      assert out[1..] == Retrack(rest, v, f);
      FindTrackIn(a.mtrackers, v);
      RetrackOwned(rest, v, f);
      SwapOne(Owned(rest), FramesOf(a.mtrackers), TrackAt(rest, v).value.frame, f);
    }
  }

  lemma {:induction false} RetrackAllGood(areas: seq<MemArea>, v: nat, f: Frame, b: MemArea)
    requires GoodAreas(areas) && TrackAt(areas, v).Some?
    requires b in Retrack(areas, v, f)
    ensures GoodArea(b)
  {
    GoodTail(areas);
    var a, rest, out := areas[0], areas[1..], Retrack(areas, v, f);
    TrackLivesInArea(areas, v);
    if a.Contains(v) {
      SetFrameGood(a, v, f);
    } else {
      FindTrackIn(a.mtrackers, v);
      FindTrackConcat(a.mtrackers, AllTracks(rest), v);
      if b != a {
        assert out[1..] == Retrack(rest, v, f) && b in out[1..];
        RetrackAllGood(rest, v, f, b);
      }
    }
  }

  lemma RetrackGood(areas: seq<MemArea>, v: nat, f: Frame)
    requires GoodAreas(areas) && TrackAt(areas, v).Some?
    ensures GoodAreas(Retrack(areas, v, f))
  {
    forall b | b in Retrack(areas, v, f) ensures GoodArea(b) {
      RetrackAllGood(areas, v, f, b);
    }
    RetrackShape(areas, v, f);
    SameShapeFacts(areas, Retrack(areas, v, f), 0);
  }

  lemma {:induction false} RetrackShape(areas: seq<MemArea>, v: nat, f: Frame)
    ensures SameShape(areas, Retrack(areas, v, f))
  {
    if areas != [] && !areas[0].Contains(v) {
      RetrackShape(areas[1..], v, f);
    }
  }

  /* ---------- Adding a tracker ---------- */

  /** `area.mtrackers.push(mtracker)` on the area containing the new tracker's page. */
  function Track(areas: seq<MemArea>, t: MapTrack): seq<MemArea> {
    if areas == [] then []
    else if areas[0].Contains(t.vaddr) then
      [areas[0].(mtrackers := areas[0].mtrackers + [t])] + areas[1..]
    else [areas[0]] + Track(areas[1..], t)
  }

  lemma {:induction false} UniqueAppend(ts: seq<MapTrack>, t: MapTrack)
    requires UniquePages(ts) && FindTrack(ts, t.vaddr).None?
    ensures UniquePages(ts + [t])
  {
    if ts == [] {
      assert (ts + [t])[1..] == [];
    } else {
      assert (ts + [t])[1..] == ts[1..] + [t];
      UniqueAppend(ts[1..], t);
    }
  }

  lemma TrackGood(a: MemArea, t: MapTrack)
    requires GoodArea(a) && a.Contains(t.vaddr) && t.vaddr % PAGE_SIZE == 0
    requires FindTrack(a.mtrackers, t.vaddr).None?
    ensures GoodArea(a.(mtrackers := a.mtrackers + [t]))
  {
    UniqueAppend(a.mtrackers, t);
    forall u: nat | FindTrack(a.mtrackers, u).Some? ensures FindTrack(a.mtrackers + [t], u).Some? {
      FindTrackConcat(a.mtrackers, [t], u);
    }
  }

  lemma {:induction false} TrackFind(areas: seq<MemArea>, t: MapTrack, u: nat)
    requires GoodAreas(areas)
    requires FindArea(areas, t.vaddr).Some? && TrackAt(areas, t.vaddr).None?
    ensures TrackAt(Track(areas, t), u) == if u == t.vaddr then Some(t) else TrackAt(areas, u)
  {
    GoodTail(areas);
    var a, rest, out := areas[0], areas[1..], Track(areas, t);
    FindTrackConcat(a.mtrackers, AllTracks(rest), t.vaddr);
    FindTrackConcat(a.mtrackers, AllTracks(rest), u);
    FindTrackConcat(out[0].mtrackers, AllTracks(out[1..]), u);
    if a.Contains(t.vaddr) {
      assert out[1..] == rest;
      FindTrackConcat(a.mtrackers, [t], u);
    } else {
      assert out[1..] == Track(rest, t);
      TrackFind(rest, t, u);
    }
  }

  lemma {:induction false} TrackOwned(areas: seq<MemArea>, t: MapTrack)
    requires FindArea(areas, t.vaddr).Some?
    ensures Owned(Track(areas, t)) == Owned(areas) + multiset{t.frame}
  {
    var a, rest, out := areas[0], areas[1..], Track(areas, t);
    FramesConcat(a.mtrackers, AllTracks(rest));
    FramesConcat(out[0].mtrackers, AllTracks(out[1..]));
    if a.Contains(t.vaddr) {
      assert out[1..] == rest;
      FramesAppend(a.mtrackers, t);
      AddLast(FramesOf(a.mtrackers), Owned(rest), multiset{t.frame});
    } else {
      assert out[1..] == Track(rest, t);
      TrackOwned(rest, t);
      AddLast(Owned(rest), FramesOf(a.mtrackers), multiset{t.frame});
    }
  }

  lemma {:induction false} FramesAppend(ts: seq<MapTrack>, t: MapTrack)
    ensures FramesOf(ts + [t]) == FramesOf(ts) + multiset{t.frame}
  {
    FramesConcat(ts, [t]);
    assert [t][1..] == [];
  }

  lemma AddLast(a: multiset<Frame>, b: multiset<Frame>, c: multiset<Frame>)
    ensures (a + c) + b == (a + b) + c && b + (a + c) == (b + a) + c
  {
  }

  lemma {:induction false} TrackAllGood(areas: seq<MemArea>, t: MapTrack, b: MemArea)
    requires GoodAreas(areas) && t.vaddr % PAGE_SIZE == 0
    requires FindArea(areas, t.vaddr).Some? && TrackAt(areas, t.vaddr).None?
    requires b in Track(areas, t)
    ensures GoodArea(b)
  {
    GoodTail(areas);
    var a, rest, out := areas[0], areas[1..], Track(areas, t);
    FindTrackConcat(a.mtrackers, AllTracks(rest), t.vaddr);
    if a.Contains(t.vaddr) {
      TrackGood(a, t);
    } else if b != a {
      assert out[1..] == Track(rest, t) && b in out[1..];
      TrackAllGood(rest, t, b);
    }
  }

  lemma TrackGoodAreas(areas: seq<MemArea>, t: MapTrack)
    requires GoodAreas(areas) && t.vaddr % PAGE_SIZE == 0
    requires FindArea(areas, t.vaddr).Some? && TrackAt(areas, t.vaddr).None?
    ensures GoodAreas(Track(areas, t))
  {
    forall b | b in Track(areas, t) ensures GoodArea(b) {
      TrackAllGood(areas, t, b);
    }
    TrackShape(areas, t);
    SameShapeFacts(areas, Track(areas, t), 0);
  }

  lemma {:induction false} TrackShape(areas: seq<MemArea>, t: MapTrack)
    ensures SameShape(areas, Track(areas, t))
  {
    if areas != [] && !areas[0].Contains(t.vaddr) {
      TrackShape(areas[1..], t);
    }
  }

  /* ---------- Mapping every tracker, as cow_fork does ---------- */

  /** Shared areas stay writable across a fork; all others become read-only and executable. */
  function ForkProt(mtype: MemType): Prot {
    Prot(true, mtype == Shared || mtype == ShareFile, true)
  }

  /** `map_page` for each tracker in turn, with the same flags. */
  function MapTracks(pt: map<nat, Pte>, ts: seq<MapTrack>, prot: Prot): map<nat, Pte>
    decreases |ts|
  {
    if ts == [] then pt
    else MapTracks(pt[ts[0].vaddr := Pte(ts[0].frame, prot)], ts[1..], prot)
  }

  function MapAreas(pt: map<nat, Pte>, areas: seq<MemArea>): map<nat, Pte>
    decreases |areas|
  {
    if areas == [] then pt
    else MapAreas(MapTracks(pt, areas[0].mtrackers, ForkProt(areas[0].mtype)), areas[1..])
  }

  /** The trackers `map_frames` builds for consecutive pages. */
  function TracksFrom(vaddr: nat, frames: seq<Frame>): seq<MapTrack> {
    seq(|frames|, i requires 0 <= i < |frames| => MapTrack(vaddr + i * PAGE_SIZE, frames[i], 0))
  }

  lemma {:induction false} MapTracksAt(pt: map<nat, Pte>, ts: seq<MapTrack>, prot: Prot, v: nat)
    requires UniquePages(ts)
    ensures var out := MapTracks(pt, ts, prot);
      match FindTrack(ts, v)
      case Some(t) => v in out && out[v] == Pte(t.frame, prot)
      case None => (v in out <==> v in pt) && (v in pt ==> out[v] == pt[v])
    decreases |ts|
  {
    if ts != [] {
      MapTracksAt(pt[ts[0].vaddr := Pte(ts[0].frame, prot)], ts[1..], prot, v);
      FindTrackIn(ts[1..], v);
    }
  }

  lemma {:induction false} MapTracksKeys(pt: map<nat, Pte>, ts: seq<MapTrack>, prot: Prot)
    ensures MapTracks(pt, ts, prot).Keys == pt.Keys + Pages(ts)
    ensures forall v :: v in pt && v !in Pages(ts) ==> MapTracks(pt, ts, prot)[v] == pt[v]
    decreases |ts|
  {
    if ts != [] {
      MapTracksKeys(pt[ts[0].vaddr := Pte(ts[0].frame, prot)], ts[1..], prot);
      assert ts == [ts[0]] + ts[1..];
      assert Pages(ts) == {ts[0].vaddr} + Pages(ts[1..]);
    }
  }

  /** After the fork's mapping pass every tracked page maps to its frame with the fork's flags. */
  lemma {:induction false} MapAreasAt(pt: map<nat, Pte>, areas: seq<MemArea>, v: nat)
    requires GoodAreas(areas)
    ensures var out := MapAreas(pt, areas);
      match TrackAt(areas, v)
      case Some(t) =>
        KindAt(areas, v).Some? && v in out && out[v] == Pte(t.frame, ForkProt(KindAt(areas, v).value))
      case None => (v in out <==> v in pt) && (v in pt ==> out[v] == pt[v])
    decreases |areas|
  {
    if areas != [] {
      GoodTail(areas);
      var a, rest := areas[0], areas[1..];
      MapTracksAt(pt, a.mtrackers, ForkProt(a.mtype), v);
      MapAreasAt(MapTracks(pt, a.mtrackers, ForkProt(a.mtype)), rest, v);
      FindTrackConcat(a.mtrackers, AllTracks(rest), v);
      FindTrackIn(a.mtrackers, v);
      TrackLivesInArea(areas, v);
      TrackLivesInArea(rest, v);
      FindAreaIn(rest, v);
    }
  }

  lemma {:induction false} MapTracksOff(pt: map<nat, Pte>, ts: seq<MapTrack>, prot: Prot, v: nat)
    requires v in pt && forall t :: t in ts ==> t.vaddr != v
    ensures v in MapTracks(pt, ts, prot) && MapTracks(pt, ts, prot)[v] == pt[v]
  {
    MapTracksKeys(pt, ts, prot);
  }

  lemma {:induction false} MapAreasOff(pt: map<nat, Pte>, areas: seq<MemArea>, v: nat)
    requires v in pt && forall a :: a in areas ==> TracksIn(a) && !a.Contains(v)
    ensures v in MapAreas(pt, areas) && MapAreas(pt, areas)[v] == pt[v]
    decreases |areas|
  {
    if areas != [] {
      var a := areas[0];
      assert a in areas && forall b :: b in areas[1..] ==> b in areas;
      MapTracksOff(pt, a.mtrackers, ForkProt(a.mtype), v);
      MapAreasOff(MapTracks(pt, a.mtrackers, ForkProt(a.mtype)), areas[1..], v);
    }
  }

  /**
    The fork's mapping pass over any disjoint areas, file-backed ones included: each tracked page is
    mapped to its frame, writable exactly when the area is shared, with or without a file.
  */
  lemma {:induction false} MapAreasWrites(pt: map<nat, Pte>, areas: seq<MemArea>, a: MemArea, t: MapTrack)
    requires Disjoint(areas) && forall b :: b in areas ==> TracksIn(b) && UniquePages(b.mtrackers)
    requires a in areas && t in a.mtrackers
    ensures var out := MapAreas(pt, areas);
      t.vaddr in out && out[t.vaddr] == Pte(t.frame, Prot(true, a.mtype in {Shared, ShareFile}, true))
    decreases |areas|
  {
    var b, rest := areas[0], areas[1..];
    assert b in areas && forall c :: c in rest ==> c in areas;
    var mapped := MapTracks(pt, b.mtrackers, ForkProt(b.mtype));
    if a in rest {
      MapAreasWrites(mapped, rest, a, t);
    } else {
      MapTracksAt(pt, b.mtrackers, ForkProt(b.mtype), t.vaddr);
      UniqueFind(b.mtrackers, t);
      MapAreasOff(mapped, rest, t.vaddr);
    }
  }

  lemma {:induction false} UniqueFind(ts: seq<MapTrack>, t: MapTrack)
    requires UniquePages(ts) && t in ts
    ensures FindTrack(ts, t.vaddr) == Some(t)
  {
    if t != ts[0] {
      UniqueFind(ts[1..], t);
    }
  }

  /* ---------- Unmapping a range ---------- */

  lemma {:induction false} FindTrackDrop(ts: seq<MapTrack>, lo: nat, hi: nat, u: nat)
    ensures FindTrack(DropTracks(ts, lo, hi), u) == if lo <= u < hi then None else FindTrack(ts, u)
  {
    if ts != [] {
      FindTrackDrop(ts[1..], lo, hi, u);
      var us := DropTracks(ts, lo, hi);
      if !(lo <= ts[0].vaddr < hi) {
        assert us[1..] == DropTracks(ts[1..], lo, hi);
      }
    }
  }

  lemma {:induction false} DropUnique(ts: seq<MapTrack>, lo: nat, hi: nat)
    requires UniquePages(ts)
    ensures UniquePages(DropTracks(ts, lo, hi))
  {
    if ts != [] {
      DropUnique(ts[1..], lo, hi);
      DropTracksIn(ts[1..], lo, hi);
      var us := DropTracks(ts, lo, hi);
      if !(lo <= ts[0].vaddr < hi) {
        assert us[1..] == DropTracks(ts[1..], lo, hi);
      }
    }
  }

  lemma {:induction false} FramesSplit(ts: seq<MapTrack>, lo: nat, hi: nat)
    ensures FramesOf(ts) == FramesOf(DropTracks(ts, lo, hi)) + FramesOf(KeepTracks(ts, lo, hi))
  {
    if ts != [] {
      FramesSplit(ts[1..], lo, hi);
      var us, ks := DropTracks(ts, lo, hi), KeepTracks(ts, lo, hi);
      if lo <= ts[0].vaddr < hi {
        assert ks[1..] == KeepTracks(ts[1..], lo, hi);
      } else {
        assert us[1..] == DropTracks(ts[1..], lo, hi);
      }
    }
  }

  lemma AlignedDiff(x: nat, y: nat)
    requires y <= x && x % PAGE_SIZE == 0 && y % PAGE_SIZE == 0
    ensures (x - y) % PAGE_SIZE == 0
  {
    assert x - y == (x / PAGE_SIZE - y / PAGE_SIZE) * PAGE_SIZE;
    Arith.MultipleMod(x / PAGE_SIZE - y / PAGE_SIZE, PAGE_SIZE);
  }

  /** Cutting at page boundaries leaves page-aligned pieces. */
  lemma {:induction false} SubAligned(a: MemArea, lo: nat, hi: nat)
    requires lo <= hi && lo % PAGE_SIZE == 0 && hi % PAGE_SIZE == 0 && PageAligned(a)
    ensures var r := Sub(a, lo, hi);
      PageAligned(r.area) && (r.tail.Some? ==> PageAligned(r.tail.value))
  {
    if lo >= a.start {
      AlignedDiff(lo, a.start);
    }
    AlignedSum(a.start, a.len);
    if a.start + a.len >= hi {
      AlignedDiff(a.start + a.len, hi);
    }
    SubPieces(a, lo, hi);
  }

  /** The bounds of what one `sub` leaves. */
  lemma {:induction false} SubPieces(a: MemArea, lo: nat, hi: nat)
    requires lo <= hi
    ensures var b, end := Sub(a, lo, hi).area, a.start + a.len;
      || (b.start == a.start && (b.len == a.len || b.len == 0 || (a.start <= lo && b.len == lo - a.start)))
      || (b.start == hi <= end && b.len == end - hi)
    ensures var t := Sub(a, lo, hi).tail;
      t.Some? ==> t.value.start == hi <= a.start + a.len && t.value.len == a.start + a.len - hi
  {
  }

  lemma AlignedSum(x: nat, y: nat)
    requires x % PAGE_SIZE == 0 && y % PAGE_SIZE == 0
    ensures (x + y) % PAGE_SIZE == 0
  {
    assert x + y == (x / PAGE_SIZE + y / PAGE_SIZE) * PAGE_SIZE;
    Arith.MultipleMod(x / PAGE_SIZE + y / PAGE_SIZE, PAGE_SIZE);
  }

  /** What is left of a fully tracked area is fully tracked. */
  lemma {:induction false} SubTracked(a: MemArea, lo: nat, hi: nat, b: MemArea)
    requires b.mtrackers == DropTracks(a.mtrackers, lo, hi)
    requires forall v: nat :: b.Contains(v) ==> a.Contains(v) && !(lo <= v < hi)
    requires forall v: nat :: a.Contains(v) && v % PAGE_SIZE == 0 ==> FindTrack(a.mtrackers, v).Some?
    ensures forall v: nat :: b.Contains(v) && v % PAGE_SIZE == 0 ==> FindTrack(b.mtrackers, v).Some?
  {
    forall v: nat | b.Contains(v) && v % PAGE_SIZE == 0 ensures FindTrack(b.mtrackers, v).Some? {
      FindTrackDrop(a.mtrackers, lo, hi, v);
    }
  }

  lemma {:induction false} SubTracksIn(a: MemArea, lo: nat, hi: nat)
    requires lo <= hi && GoodArea(a)
    requires a.Splits(lo, hi) ==> forall t :: t in a.mtrackers ==> t.vaddr < lo
    requires Sub(a, lo, hi).area.len != 0
    ensures Sub(a, lo, hi).area.mtrackers == DropTracks(a.mtrackers, lo, hi) && TracksIn(Sub(a, lo, hi).area)
  {
    var b := Sub(a, lo, hi).area;
    SubOneTracks(a, lo, hi);
    DropTracksIn(a.mtrackers, lo, hi);
    forall t | t in b.mtrackers ensures b.Contains(t.vaddr) {
      assert a.Contains(t.vaddr) && !(lo <= t.vaddr < hi);
      if a.Splits(lo, hi) {
        assert t.vaddr < lo;
      }
    }
  }

  lemma {:induction false} SubTrimGood(a: MemArea, lo: nat, hi: nat)
    requires lo <= hi && lo % PAGE_SIZE == 0 && hi % PAGE_SIZE == 0
    requires GoodArea(a)
    requires a.Splits(lo, hi) ==> forall t :: t in a.mtrackers ==> t.vaddr < lo
    requires Sub(a, lo, hi).area.len != 0
    ensures GoodArea(Sub(a, lo, hi).area)
  {
    var b := Sub(a, lo, hi).area;
    SubAligned(a, lo, hi);
    SubTracksIn(a, lo, hi);
    DropTracksIn(a.mtrackers, lo, hi);
    DropUnique(a.mtrackers, lo, hi);
    if a.mtype == Shared {
      SubOne(a, lo, hi);
      SubTracked(a, lo, hi, b);
    }
  }

  /** A shared area is fully tracked, so a split would always lose trackers. */
  lemma SharedIsNotSplit(a: MemArea, lo: nat, hi: nat)
    requires lo <= hi && hi % PAGE_SIZE == 0
    requires GoodArea(a) && a.Splits(lo, hi) && forall t :: t in a.mtrackers ==> t.vaddr < lo
    ensures a.mtype != Shared
  {
    FindTrackIn(a.mtrackers, hi);
  }

  lemma EmptyAreaGood(a: MemArea)
    requires a.len > 0 && PageAligned(a) && a.file.None? && a.mtrackers == []
    requires a.mtype != ShareFile && a.mtype != Shared
    ensures GoodArea(a)
  {
  }

  lemma {:induction false} SubTailGood(a: MemArea, lo: nat, hi: nat)
    requires lo <= hi && lo % PAGE_SIZE == 0 && hi % PAGE_SIZE == 0
    requires GoodArea(a)
    requires a.Splits(lo, hi) && forall t :: t in a.mtrackers ==> t.vaddr < lo
    ensures Sub(a, lo, hi).tail.Some? && GoodArea(Sub(a, lo, hi).tail.value)
  {
    SubAligned(a, lo, hi);
    SubOneSplit(a, lo, hi);
    SharedIsNotSplit(a, lo, hi);
    EmptyAreaGood(Sub(a, lo, hi).tail.value);
  }

  lemma {:induction false} SubAllGood(areas: seq<MemArea>, lo: nat, hi: nat, b: MemArea)
    requires lo <= hi && lo % PAGE_SIZE == 0 && hi % PAGE_SIZE == 0
    requires GoodAreas(areas) && NoLostTracks(areas, lo, hi)
    requires b in SubArea(areas, lo, hi)
    ensures GoodArea(b)
  {
    GoodTail(areas);
    var a, rest := areas[0], areas[1..];
    if b in SubArea(rest, lo, hi) {
      SubAllGood(rest, lo, hi, b);
    } else {
      assert a in areas;
      PieceGood(a, lo, hi, b);
    }
  }

  lemma {:induction false} PieceGood(a: MemArea, lo: nat, hi: nat, b: MemArea)
    requires lo <= hi && lo % PAGE_SIZE == 0 && hi % PAGE_SIZE == 0
    requires GoodArea(a) && (a.Splits(lo, hi) ==> forall t :: t in a.mtrackers ==> t.vaddr < lo)
    requires b in Kept(a, lo, hi) || b in Tails(a, lo, hi)
    ensures GoodArea(b)
  {
    if b in Kept(a, lo, hi) {
      SubTrimGood(a, lo, hi);
    } else {
      SubTailGood(a, lo, hi);
    }
  }

  lemma GoodImplies(areas: seq<MemArea>)
    requires GoodAreas(areas)
    ensures NonEmpty(areas) && TracksInside(areas)
  {
  }

  lemma SubGoodAreas(areas: seq<MemArea>, lo: nat, hi: nat)
    requires lo <= hi && lo % PAGE_SIZE == 0 && hi % PAGE_SIZE == 0
    requires GoodAreas(areas) && NoLostTracks(areas, lo, hi)
    ensures GoodAreas(SubArea(areas, lo, hi))
  {
    SubAreaDisjoint(areas, lo, hi);
    forall b | b in SubArea(areas, lo, hi) ensures GoodArea(b) {
      SubAllGood(areas, lo, hi, b);
    }
  }

  /** After a legal unmapping the trackers are the old ones outside the range, frames included. */
  lemma SubTracks(areas: seq<MemArea>, lo: nat, hi: nat)
    requires lo <= hi
    requires GoodAreas(areas) && NoLostTracks(areas, lo, hi)
    ensures AllTracks(SubArea(areas, lo, hi)) == DropTracks(AllTracks(areas), lo, hi)
    ensures Owned(areas) == Owned(SubArea(areas, lo, hi)) + FramesOf(KeepTracks(AllTracks(areas), lo, hi))
    ensures forall v: nat :: v in SubUnmapped(areas, lo, hi) <==> lo <= v < hi && TrackAt(areas, v).Some?
  {
    GoodImplies(areas);
    SubTracksExact(areas, lo, hi);
    AllTracksConcat(SubKept(areas, lo, hi), SubTails(areas, lo, hi));
    FramesSplit(AllTracks(areas), lo, hi);
    forall v: nat ensures v in SubUnmapped(areas, lo, hi) <==> lo <= v < hi && TrackAt(areas, v).Some? {
      FindTrackIn(AllTracks(areas), v);
    }
  }

  lemma SubTrackAt(areas: seq<MemArea>, lo: nat, hi: nat, u: nat)
    requires lo <= hi
    requires GoodAreas(areas) && NoLostTracks(areas, lo, hi)
    ensures TrackAt(SubArea(areas, lo, hi), u) == if lo <= u < hi then None else TrackAt(areas, u)
  {
    SubTracks(areas, lo, hi);
    FindTrackDrop(AllTracks(areas), lo, hi, u);
  }

  lemma {:induction false} SubMembers(areas: seq<MemArea>, lo: nat, hi: nat, a: MemArea)
    requires lo <= hi && a in areas
    ensures Sub(a, lo, hi).area.len != 0 ==> Sub(a, lo, hi).area in SubArea(areas, lo, hi)
    ensures Sub(a, lo, hi).tail.Some? ==> Sub(a, lo, hi).tail.value in SubArea(areas, lo, hi)
  {
    if a != areas[0] {
      SubMembers(areas[1..], lo, hi, a);
    }
  }

  /** Unmapping removes the range and changes no other address's kind. */
  lemma SubKindAt(areas: seq<MemArea>, lo: nat, hi: nat, x: nat)
    requires lo <= hi && Disjoint(areas)
    ensures KindAt(SubArea(areas, lo, hi), x) == if lo <= x < hi then None else KindAt(areas, x)
  {
    var out := SubArea(areas, lo, hi);
    SubAreaCoverage(areas, lo, hi, x);
    SubAreaDisjoint(areas, lo, hi);
    FindAreaIn(areas, x);
    FindAreaIn(out, x);
    if !(lo <= x < hi) && FindArea(areas, x).Some? {
      PieceKind(areas, lo, hi, FindArea(areas, x).value, x);
    }
  }

  /** An address outside the range stays in a piece of its area. */
  lemma {:induction false} PieceKind(areas: seq<MemArea>, lo: nat, hi: nat, a: MemArea, x: nat)
    requires lo <= hi && Disjoint(SubArea(areas, lo, hi))
    requires a in areas && a.Contains(x) && !(lo <= x < hi)
    ensures KindAt(SubArea(areas, lo, hi), x) == Some(a.mtype)
  {
    SubMembers(areas, lo, hi, a);
    SubOne(a, lo, hi);
    var r := Sub(a, lo, hi);
    if r.area.Contains(x) {
      FindAreaIs(SubArea(areas, lo, hi), r.area, x);
    } else {
      FindAreaIs(SubArea(areas, lo, hi), r.tail.value, x);
    }
  }

  /* ---------- Appending an area ---------- */

  lemma {:induction false} FindAreaAppend(areas: seq<MemArea>, a: MemArea, x: nat)
    ensures FindArea(areas + [a], x)
            == if FindArea(areas, x).Some? then FindArea(areas, x) else if a.Contains(x) then Some(a) else None
  {
    if areas == [] {
      assert areas + [a] == [a] && [a][1..] == [];
    } else {
      assert (areas + [a])[1..] == areas[1..] + [a];
      FindAreaAppend(areas[1..], a, x);
    }
  }

  lemma AppendTracks(areas: seq<MemArea>, a: MemArea)
    ensures AllTracks(areas + [a]) == AllTracks(areas) + a.mtrackers
    ensures Owned(areas + [a]) == Owned(areas) + FramesOf(a.mtrackers)
  {
    AllTracksConcat(areas, [a]);
    assert [a][1..] == [];
    assert AllTracks([a]) == a.mtrackers;
    FramesConcat(AllTracks(areas), a.mtrackers);
  }

  predicate FreeRange(areas: seq<MemArea>, lo: nat, hi: nat) {
    forall a :: a in areas ==> !a.Overlapping(lo, hi)
  }

  lemma AppendGood(areas: seq<MemArea>, a: MemArea)
    requires GoodAreas(areas) && GoodArea(a) && FreeRange(areas, a.start, a.start + a.len)
    ensures GoodAreas(areas + [a])
  {
    forall b, c | b in areas && c in [a] ensures Apart(b, c) {
      assert !b.Overlapping(a.start, a.start + a.len);
    }
    assert [a][1..] == [];
    assert Disjoint([a]) && AllApart(areas, [a]);
    DisjointConcat(areas, [a]);
  }

  /** What an appended area does to every lookup. */
  lemma AppendAt(areas: seq<MemArea>, a: MemArea, x: nat)
    requires GoodAreas(areas) && GoodArea(a) && FreeRange(areas, a.start, a.start + a.len)
    ensures KindAt(areas + [a], x) == if a.Contains(x) then Some(a.mtype) else KindAt(areas, x)
    ensures TrackAt(areas + [a], x) == if a.Contains(x) then FindTrack(a.mtrackers, x) else TrackAt(areas, x)
    ensures a.Contains(x) ==> KindAt(areas, x) == None && TrackAt(areas, x) == None
  {
    FindAreaAppend(areas, a, x);
    FindAreaIn(areas, x);
    TrackLivesInArea(areas, x);
    AppendTracks(areas, a);
    FindTrackConcat(AllTracks(areas), a.mtrackers, x);
    FindTrackIn(a.mtrackers, x);
  }

  /* ---------- Consecutive trackers ---------- */

  lemma TracksFromTail(start: nat, frames: seq<Frame>)
    requires frames != []
    ensures TracksFrom(start, frames)[0] == MapTrack(start, frames[0], 0)
    ensures TracksFrom(start, frames)[1..] == TracksFrom(start + PAGE_SIZE, frames[1..])
  {
  }

  lemma {:induction false} TracksFromFind(start: nat, frames: seq<Frame>, v: nat)
    requires start % PAGE_SIZE == 0 && v % PAGE_SIZE == 0
    ensures FindTrack(TracksFrom(start, frames), v)
            == if start <= v < start + |frames| * PAGE_SIZE
               then Some(MapTrack(v, frames[(v - start) / PAGE_SIZE], 0)) else None
    decreases |frames|
  {
    if frames != [] {
      TracksFromTail(start, frames);
      TracksFromFind(start + PAGE_SIZE, frames[1..], v);
    }
  }

  lemma {:induction false} TracksFromUnique(start: nat, frames: seq<Frame>)
    ensures UniquePages(TracksFrom(start, frames))
    decreases |frames|
  {
    if frames != [] {
      TracksFromTail(start, frames);
      TracksFromUnique(start + PAGE_SIZE, frames[1..]);
    }
  }

  /** An entry of the page table after mapping: a page of the new area, or an entry of before. */
  lemma MappedEntry(pt: map<nat, Pte>, start: nat, frames: seq<Frame>, prot: Prot, v: nat)
    requires start % PAGE_SIZE == 0
    ensures var out := MapTracks(pt, TracksFrom(start, frames), prot);
      if start <= v < start + |frames| * PAGE_SIZE && v % PAGE_SIZE == 0
      then v in out && out[v] == Pte(frames[(v - start) / PAGE_SIZE], prot)
      else (v in out <==> v in pt) && (v in pt ==> out[v] == pt[v])
  {
    var ts := TracksFrom(start, frames);
    TracksFromUnique(start, frames);
    MapTracksAt(pt, ts, prot, v);
    if v % PAGE_SIZE == 0 {
      TracksFromFind(start, frames, v);
    } else {
      FindTrackIn(ts, v);
    }
  }

  lemma {:induction false} TracksFromFrames(start: nat, frames: seq<Frame>)
    ensures FramesOf(TracksFrom(start, frames)) == multiset(frames)
    decreases |frames|
  {
    if frames != [] {
      TracksFromTail(start, frames);
      TracksFromFrames(start + PAGE_SIZE, frames[1..]);
      assert frames == [frames[0]] + frames[1..];
    }
  }

  lemma {:induction false} TracksFromAligned(start: nat, frames: seq<Frame>)
    requires start % PAGE_SIZE == 0
    ensures AlignedTracks(TracksFrom(start, frames))
    ensures forall t :: t in TracksFrom(start, frames) ==> start <= t.vaddr < start + |frames| * PAGE_SIZE
  {
    forall i | 0 <= i < |frames|
      ensures (start + i * PAGE_SIZE) % PAGE_SIZE == 0 && i * PAGE_SIZE < |frames| * PAGE_SIZE
    {
      Arith.MultipleMod(i, PAGE_SIZE);
      AlignedSum(start, i * PAGE_SIZE);
    }
  }

  lemma {:induction false} FrameAreaGood(kind: MemType, start: nat, frames: seq<Frame>)
    requires start % PAGE_SIZE == 0 && frames != [] && kind != ShareFile
    ensures GoodArea(MemArea(kind, TracksFrom(start, frames), None, 0, start, |frames| * PAGE_SIZE))
  {
    TracksFromUnique(start, frames);
    TracksFromAligned(start, frames);
    Arith.MultipleMod(|frames|, PAGE_SIZE);
    forall v: nat | v % PAGE_SIZE == 0 && start <= v < start + |frames| * PAGE_SIZE
      ensures FindTrack(TracksFrom(start, frames), v).Some?
    {
      TracksFromFind(start, frames, v);
    }
  }
}
