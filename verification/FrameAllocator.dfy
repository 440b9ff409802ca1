/**
  The physical frame allocator (crates/runtime/src/frame.rs): one bitmap of machine words per
  memory region, single frames and runs of consecutive frames.
*/
module FrameAllocator {
  import opened Wrappers
  import opened Bits
  import opened Bytes
  import opened Arith

  /** Bits past the last frame of the region are padding and always set. */
  datatype Region = Region(bits: seq<Word>, start: nat, end: nat)
  {
    function Total(): nat
      requires start <= end
    {
      (end - start) / PAGE_SIZE
    }

    function Addr(i: nat): nat {
      start + i * PAGE_SIZE
    }
  }

  ghost predicate Good(r: Region) {
    && r.start % PAGE_SIZE == 0 && r.end % PAGE_SIZE == 0 && r.start <= r.end
    && |r.bits| == (r.Total() + 63) / 64
    && forall i :: r.Total() <= i < |r.bits| * WORD_BITS ==> Get(r.bits, i)
  }

  /** Frame `i` is in the region and not handed out. */
  predicate Clear(r: Region, i: nat)
    requires r.start <= r.end && r.Total() <= |r.bits| * WORD_BITS
  {
    i < r.Total() && !Get(r.bits, i)
  }

  lemma GoodCovers(r: Region)
    requires Good(r)
    ensures r.Total() <= |r.bits| * WORD_BITS < r.Total() + 64
    ensures r.Addr(r.Total()) == r.end
  {
  }

  /* ---------- Searches ---------- */

  function FindClear(ws: seq<Word>, i: nat): Option<nat>
    requires i <= |ws| * WORD_BITS
    decreases |ws| * WORD_BITS - i
  {
    if i == |ws| * WORD_BITS then None
    else if !Get(ws, i) then Some(i)
    else FindClear(ws, i + 1)
  }

  predicate RunClear(ws: seq<Word>, k: nat, pages: nat)
    requires k + pages <= |ws| * WORD_BITS
  {
    forall i :: k <= i < k + pages ==> !Get(ws, i)
  }

  /** The leftmost run of `pages` clear bits below `total`, starting at `k` or later. */
  function FindRun(ws: seq<Word>, k: nat, total: nat, pages: nat): Option<nat>
    requires total <= |ws| * WORD_BITS
    decreases total - k
  {
    if k + pages > total then None
    else if RunClear(ws, k, pages) then Some(k)
    else FindRun(ws, k + 1, total, pages)
  }

  function SetRun(ws: seq<Word>, k: nat, pages: nat): (r: seq<Word>)
    requires k + pages <= |ws| * WORD_BITS
    ensures |r| == |ws|
    ensures forall j :: 0 <= j < |ws| * WORD_BITS ==> (Get(r, j) <==> Get(ws, j) || k <= j < k + pages)
  {
    if pages == 0 then ws else Set(SetRun(ws, k, pages - 1), k + pages - 1, true)
  }

  lemma {:induction false} FindClearFacts(ws: seq<Word>, i: nat)
    requires i <= |ws| * WORD_BITS
    ensures match FindClear(ws, i)
      case Some(k) => i <= k < |ws| * WORD_BITS && !Get(ws, k) && (forall j :: i <= j < k ==> Get(ws, j))
      case None => forall j :: i <= j < |ws| * WORD_BITS ==> Get(ws, j)
    decreases |ws| * WORD_BITS - i
  {
    if i < |ws| * WORD_BITS && Get(ws, i) {
      FindClearFacts(ws, i + 1);
    }
  }

  lemma {:induction false} FindRunFacts(ws: seq<Word>, k: nat, total: nat, pages: nat)
    requires total <= |ws| * WORD_BITS
    ensures match FindRun(ws, k, total, pages)
      case Some(s) =>
        && k <= s && s + pages <= total && RunClear(ws, s, pages)
        && (forall j: nat :: k <= j < s ==> !RunClear(ws, j, pages))
      case None => forall j: nat :: k <= j && j + pages <= total ==> !RunClear(ws, j, pages)
    decreases total - k
  {
    if k + pages <= total && !RunClear(ws, k, pages) {
      FindRunFacts(ws, k + 1, total, pages);
    }
  }

  /** A run of clear bits needs that many clear bits: the early rejection by free count is sound. */
  lemma RunNeedsFree(ws: seq<Word>, k: nat, total: nat, pages: nat)
    requires k + pages <= total <= |ws| * WORD_BITS && RunClear(ws, k, pages)
    ensures pages <= CountClear(ws, total)
  {
    CountAllClear(ws, k, k + pages);
    CountMonotone(ws, k + pages, total);
  }

  /* ---------- The operations on one region ---------- */

  function AllocOne(r: Region): (Region, Option<nat>) {
    match FindClear(r.bits, 0)
    case None => (r, None)
    case Some(k) =>
      FindClearFacts(r.bits, 0);
      (r.(bits := Set(r.bits, k, true)), Some(r.Addr(k)))
  }

  function Addrs(r: Region, k: nat, pages: nat): seq<nat> {
    seq<nat>(pages, i requires 0 <= i < pages => r.Addr(k + i))
  }

  /** `alloc_much`; a request for no frames answers an empty list when some frame is free. */
  function AllocRun(r: Region, pages: nat): (Region, Option<seq<nat>>)
    requires r.start <= r.end && r.Total() <= |r.bits| * WORD_BITS
  {
    if pages == 0 then (r, if FindClear(r.bits, 0).Some? then Some([]) else None)
    else match FindRun(r.bits, 0, r.Total(), pages)
    case None => (r, None)
    case Some(k) =>
      FindRunFacts(r.bits, 0, r.Total(), pages);
      (r.(bits := SetRun(r.bits, k, pages)), Some(Addrs(r, k, pages)))
  }

  function FreeOne(r: Region, paddr: nat): Region
    requires r.start <= paddr && (paddr / PAGE_SIZE - r.start / PAGE_SIZE) < |r.bits| * WORD_BITS
  {
    r.(bits := Set(r.bits, paddr / PAGE_SIZE - r.start / PAGE_SIZE, false))
  }

  /* ---------- Frames as a set of addresses ---------- */

  function FramesBelow(r: Region, n: nat): set<nat> {
    if n == 0 then {} else FramesBelow(r, n - 1) + {r.Addr(n - 1)}
  }

  function FreeBelow(r: Region, n: nat): set<nat>
    requires n <= |r.bits| * WORD_BITS
  {
    if n == 0 then {}
    else FreeBelow(r, n - 1) + (if Get(r.bits, n - 1) then {} else {r.Addr(n - 1)})
  }

  ghost function Frames(r: Region): set<nat>
    requires Good(r)
  {
    FramesBelow(r, r.Total())
  }

  ghost function FreeFrames(r: Region): set<nat>
    requires Good(r)
  {
    FreeBelow(r, r.Total())
  }

  function IndexOf(r: Region, p: nat): nat
    requires r.start <= p
  {
    (p - r.start) / PAGE_SIZE
  }

  lemma {:induction false} FramesBelowIn(r: Region, n: nat, p: nat)
    ensures p in FramesBelow(r, n) <==> r.start <= p < r.Addr(n) && (p - r.start) % PAGE_SIZE == 0
  {
    if n > 0 {
      FramesBelowIn(r, n - 1, p);
    }
  }

  lemma {:induction false} FreeBelowIn(r: Region, n: nat, p: nat)
    requires n <= |r.bits| * WORD_BITS
    ensures p in FreeBelow(r, n) <==>
            r.start <= p < r.Addr(n) && (p - r.start) % PAGE_SIZE == 0 && !Get(r.bits, IndexOf(r, p))
  {
    if n > 0 {
      FreeBelowIn(r, n - 1, p);
    }
  }

  /** The free count is the size of the free set. */
  lemma {:induction false} CountIsSize(r: Region, n: nat)
    requires n <= |r.bits| * WORD_BITS
    ensures |FreeBelow(r, n)| == CountClear(r.bits, n)
    ensures |FramesBelow(r, n)| == n
  {
    if n > 0 {
      CountIsSize(r, n - 1);
      FreeBelowIn(r, n - 1, r.Addr(n - 1));
      FramesBelowIn(r, n - 1, r.Addr(n - 1));
    }
  }

  lemma FreeFramesIn(r: Region, p: nat)
    requires Good(r)
    ensures p in FreeFrames(r) ==> p in Frames(r)
    ensures p in Frames(r) <==> r.start <= p < r.end && p % PAGE_SIZE == 0
    ensures p in Frames(r) ==> IndexOf(r, p) < r.Total() && (p in FreeFrames(r) <==> !Get(r.bits, IndexOf(r, p)))
    ensures p in Frames(r) ==> r.Addr(IndexOf(r, p)) == p
  {
    GoodCovers(r);
    FramesBelowIn(r, r.Total(), p);
    FreeBelowIn(r, r.Total(), p);
  }

  lemma AddrIn(r: Region, i: nat)
    requires Good(r)
    ensures r.Addr(i) in Frames(r) <==> i < r.Total()
    ensures r.Addr(i) >= r.start && IndexOf(r, r.Addr(i)) == i
    ensures i < r.Total() ==> i < |r.bits| * WORD_BITS && (r.Addr(i) in FreeFrames(r) <==> !Get(r.bits, i))
  {
    GoodCovers(r);
    FreeFramesIn(r, r.Addr(i));
  }

  /* ---------- One region refines its free set ---------- */

  ghost predicate SameShape(r: Region, r': Region) {
    r'.start == r.start && r'.end == r.end && |r'.bits| == |r.bits|
  }

  lemma FramesSame(r: Region, r': Region)
    requires Good(r) && Good(r') && SameShape(r, r')
    ensures Frames(r') == Frames(r)
  {
    forall p: nat ensures p in Frames(r') <==> p in Frames(r) {
      FreeFramesIn(r, p);
      FreeFramesIn(r', p);
    }
  }

  /** `alloc` hands out the lowest free frame and only that one; it fails only when none is free. */
  lemma AllocOneStep(r: Region)
    requires Good(r)
    ensures var (r', a) := AllocOne(r);
      && Good(r') && Frames(r') == Frames(r)
      && match a
         case None => FreeFrames(r) == {} && r' == r
         case Some(p) =>
           p in FreeFrames(r) && FreeFrames(r') == FreeFrames(r) - {p}
           && forall q :: q in FreeFrames(r) ==> p <= q
  {
    GoodCovers(r);
    FindClearFacts(r.bits, 0);
    var (r', a) := AllocOne(r);
    FramesSame(r, r');
    forall q: nat
      ensures a.None? ==> q !in FreeFrames(r)
      ensures a.Some? && q in FreeFrames(r) ==> a.value <= q
      ensures a.Some? ==> (q in FreeFrames(r') <==> q in FreeFrames(r) && q != a.value)
    {
      FreeFramesIn(r, q);
      FreeFramesIn(r', q);
    }
    if a.Some? {
      AddrIn(r, FindClear(r.bits, 0).value);
    }
  }

  ghost predicate FreeRun(free: set<nat>, p: nat, pages: nat) {
    forall i: nat :: i < pages ==> p + i * PAGE_SIZE in free
  }

  lemma FreeRunMember(r: Region, k: nat, pages: nat, i: nat)
    requires Good(r) && i < pages && FreeRun(FreeFrames(r), r.Addr(k), pages)
    ensures k + i < r.Total() && k + i < |r.bits| * WORD_BITS && !Get(r.bits, k + i)
  {
    assert r.Addr(k) + i * PAGE_SIZE == r.Addr(k + i);
    AddrIn(r, k + i);
    FreeFramesIn(r, r.Addr(k + i));
  }

  lemma FreeRunIsClear(r: Region, k: nat, pages: nat)
    requires Good(r) && pages > 0 && FreeRun(FreeFrames(r), r.Addr(k), pages)
    ensures k + pages <= r.Total() && k + pages <= |r.bits| * WORD_BITS && RunClear(r.bits, k, pages)
  {
    FreeRunMember(r, k, pages, pages - 1);
    forall i | k <= i < k + pages ensures !Get(r.bits, i) {
      FreeRunMember(r, k, pages, i - k);
    }
  }

  lemma ClearIsFreeRun(r: Region, k: nat, pages: nat)
    requires Good(r) && k + pages <= r.Total() && k + pages <= |r.bits| * WORD_BITS && RunClear(r.bits, k, pages)
    ensures FreeRun(FreeFrames(r), r.Addr(k), pages)
  {
    forall i: nat | i < pages ensures r.Addr(k) + i * PAGE_SIZE in FreeFrames(r) {
      assert r.Addr(k) + i * PAGE_SIZE == r.Addr(k + i);
      AddrIn(r, k + i);
    }
  }

  /** What `alloc_much` answers for a positive request, in terms of the free set alone. */
  ghost predicate LeftmostRun(free: set<nat>, ps: seq<nat>, pages: nat) {
    && |ps| == pages > 0
    && (forall i: nat :: i < pages ==> ps[i] == ps[0] + i * PAGE_SIZE)
    && FreeRun(free, ps[0], pages)
    && (forall q: nat :: FreeRun(free, q, pages) ==> ps[0] <= q)
  }

  ghost function AsSet(ps: seq<nat>): set<nat> {
    set p | p in ps
  }

  lemma RunStarts(r: Region, q: nat, pages: nat)
    requires Good(r) && pages > 0 && FreeRun(FreeFrames(r), q, pages)
    ensures q in Frames(r) && r.start <= q && r.Addr(IndexOf(r, q)) == q
  {
    assert q + 0 * PAGE_SIZE in FreeFrames(r);
    FreeFramesIn(r, q);
  }

  lemma AllocRunSome(r: Region, pages: nat, k: nat)
    requires Good(r) && pages > 0 && r.Total() <= |r.bits| * WORD_BITS
    requires FindRun(r.bits, 0, r.Total(), pages) == Some(k)
    ensures LeftmostRun(FreeFrames(r), Addrs(r, k, pages), pages)
  {
    FindRunFacts(r.bits, 0, r.Total(), pages);
    ClearIsFreeRun(r, k, pages);
    var ps := Addrs(r, k, pages);
    assert ps[0] == r.Addr(k + 0);
    forall i: nat | i < pages ensures ps[i] == ps[0] + i * PAGE_SIZE {
      assert ps[i] == r.Addr(k + i);
    }
    forall q: nat | FreeRun(FreeFrames(r), q, pages) ensures r.Addr(k) <= q {
      RunStarts(r, q, pages);
      FreeRunIsClear(r, IndexOf(r, q), pages);
    }
  }

  lemma AddrsHas(r: Region, k: nat, pages: nat, q: nat)
    requires Good(r)
    ensures q in Addrs(r, k, pages) <==>
            r.start <= q && r.Addr(IndexOf(r, q)) == q && k <= IndexOf(r, q) < k + pages
  {
    var ps := Addrs(r, k, pages);
    if q in ps {
      var i :| 0 <= i < |ps| && ps[i] == q;
      assert ps[i] == r.Addr(k + i);
      AddrIn(r, k + i);
    }
    if r.start <= q && r.Addr(IndexOf(r, q)) == q && k <= IndexOf(r, q) < k + pages {
      assert ps[IndexOf(r, q) - k] == r.Addr(k + (IndexOf(r, q) - k));
    }
  }

  lemma SetRunGood(r: Region, k: nat, pages: nat)
    requires Good(r) && k + pages <= r.Total() <= |r.bits| * WORD_BITS
    ensures var r' := r.(bits := SetRun(r.bits, k, pages)); Good(r') && Frames(r') == Frames(r)
  {
    FramesSame(r, r.(bits := SetRun(r.bits, k, pages)));
  }

  lemma {:induction false} SetRunFree(r: Region, k: nat, pages: nat)
    requires Good(r) && k + pages <= r.Total() <= |r.bits| * WORD_BITS
    ensures var r' := r.(bits := SetRun(r.bits, k, pages));
      Good(r') && Frames(r') == Frames(r) && FreeFrames(r') == FreeFrames(r) - AsSet(Addrs(r, k, pages))
  {
    SetRunGood(r, k, pages);
    var r', gone := r.(bits := SetRun(r.bits, k, pages)), AsSet(Addrs(r, k, pages));
    forall q: nat ensures q in FreeFrames(r') <==> q in FreeFrames(r) - gone {
      FreeFramesIn(r, q);
      FreeFramesIn(r', q);
      AddrsHas(r, k, pages, q);
    }
  }

  lemma AllocRunStep(r: Region, pages: nat)
    requires Good(r) && pages > 0 && r.Total() <= |r.bits| * WORD_BITS
    ensures var (r', a) := AllocRun(r, pages);
      && Good(r') && Frames(r') == Frames(r)
      && match a
         case None => r' == r && forall q: nat :: !FreeRun(FreeFrames(r), q, pages)
         case Some(ps) =>
           LeftmostRun(FreeFrames(r), ps, pages) && FreeFrames(r') == FreeFrames(r) - AsSet(ps)
  {
    FindRunFacts(r.bits, 0, r.Total(), pages);
    match FindRun(r.bits, 0, r.Total(), pages) {
      case Some(k) =>
        AllocRunSome(r, pages, k);
        SetRunFree(r, k, pages);
      case None =>
        forall q: nat ensures !FreeRun(FreeFrames(r), q, pages) {
          if FreeRun(FreeFrames(r), q, pages) {
            RunStarts(r, q, pages);
            FreeRunIsClear(r, IndexOf(r, q), pages);
          }
        }
    }
  }

  /** The frame an address lies in. */
  function FrameAt(p: nat): nat {
    p / PAGE_SIZE * PAGE_SIZE
  }

  lemma FrameAtFacts(p: nat)
    ensures FrameAt(p) <= p < FrameAt(p) + PAGE_SIZE && FrameAt(p) % PAGE_SIZE == 0
    ensures FrameAt(p) / PAGE_SIZE == p / PAGE_SIZE && (p % PAGE_SIZE == 0 ==> FrameAt(p) == p)
  {
    MultipleMod(p / PAGE_SIZE, PAGE_SIZE);
  }

  lemma PpnIsIndex(start: nat, p: nat)
    requires start <= p && start % PAGE_SIZE == 0
    ensures p / PAGE_SIZE - start / PAGE_SIZE == (p - start) / PAGE_SIZE
  {
    assert p - start == (p / PAGE_SIZE - start / PAGE_SIZE) * PAGE_SIZE + p % PAGE_SIZE;
    DivUnique(p - start, PAGE_SIZE, p / PAGE_SIZE - start / PAGE_SIZE, p % PAGE_SIZE);
  }

  /** The frame of an address in the region, and where its bit is. */
  lemma AddressInside(r: Region, p: nat)
    requires Good(r) && r.start <= p < r.end
    ensures FrameAt(p) in Frames(r) && r.start <= FrameAt(p)
    ensures p / PAGE_SIZE - r.start / PAGE_SIZE == IndexOf(r, FrameAt(p)) < r.Total() <= |r.bits| * WORD_BITS
  {
    FrameAtFacts(p);
    FrameAtFacts(r.start);
    MulMonotone(r.start / PAGE_SIZE, p / PAGE_SIZE, PAGE_SIZE);
    PpnIsIndex(r.start, FrameAt(p));
    FreeFramesIn(r, FrameAt(p));
    GoodCovers(r);
  }

  /** `dealloc` of any address in the region frees the frame it lies in. */
  lemma FreeOneStep(r: Region, p: nat)
    requires Good(r) && r.start <= p < r.end
    ensures p / PAGE_SIZE - r.start / PAGE_SIZE < |r.bits| * WORD_BITS && FrameAt(p) in Frames(r)
    ensures Good(FreeOne(r, p)) && Frames(FreeOne(r, p)) == Frames(r)
    ensures FreeFrames(FreeOne(r, p)) == FreeFrames(r) + {FrameAt(p)}
  {
    AddressInside(r, p);
    var r' := FreeOne(r, p);
    FreedGood(r, IndexOf(r, FrameAt(p)));
    FramesSame(r, r');
    forall q: nat ensures q in FreeFrames(r') <==> q in FreeFrames(r) || q == FrameAt(p) {
      FreedAt(r, FrameAt(p), q);
    }
  }

  lemma FreedGood(r: Region, k: nat)
    requires Good(r) && k < r.Total() <= |r.bits| * WORD_BITS
    ensures Good(r.(bits := Set(r.bits, k, false)))
  {
  }

  lemma FreedAt(r: Region, f: nat, q: nat)
    requires Good(r) && f in Frames(r) && r.start <= f && IndexOf(r, f) < |r.bits| * WORD_BITS
    requires Good(r.(bits := Set(r.bits, IndexOf(r, f), false)))
    ensures q in FreeFrames(r.(bits := Set(r.bits, IndexOf(r, f), false))) <==> q in FreeFrames(r) || q == f
  {
    var r' := r.(bits := Set(r.bits, IndexOf(r, f), false));
    FramesSame(r, r');
    FreeFramesIn(r, f);
    FreeFramesIn(r, q);
    FreeFramesIn(r', q);
  }

  /* ---------- The bitmap, updated in place ---------- */

  lemma {:induction false} SkipSet(ws: seq<Word>, lo: nat, hi: nat)
    requires lo <= hi <= |ws| * WORD_BITS
    requires forall j :: lo <= j < hi ==> Get(ws, j)
    ensures FindClear(ws, lo) == FindClear(ws, hi)
    decreases hi - lo
  {
    if lo < hi {
      SkipSet(ws, lo + 1, hi);
    }
  }

  lemma FullWordBits(ws: seq<Word>, k: nat)
    requires k < |ws| && ws[k] == WORD_MAX
    ensures forall j :: k * WORD_BITS <= j < (k + 1) * WORD_BITS ==> Get(ws, j)
  {
    FullWord(ws[k]);
    forall j | k * WORD_BITS <= j < (k + 1) * WORD_BITS ensures Get(ws, j) {
      WordView(ws, k, j - k * WORD_BITS);
    }
  }

  lemma ZeroWordBits(ws: seq<Word>, k: nat)
    requires k < |ws| && ws[k] == 0
    ensures forall j :: k * WORD_BITS <= j < (k + 1) * WORD_BITS ==> !Get(ws, j)
  {
    forall j | k * WORD_BITS <= j < (k + 1) * WORD_BITS ensures !Get(ws, j) {
      WordView(ws, k, j - k * WORD_BITS);
      ZeroBits(j - k * WORD_BITS);
    }
  }

  /** The first run found is the leftmost one. */
  lemma FindRunIs(ws: seq<Word>, total: nat, pages: nat, k: nat)
    requires k + pages <= total <= |ws| * WORD_BITS && RunClear(ws, k, pages)
    requires forall j: nat :: j < k && j + pages <= total ==> !RunClear(ws, j, pages)
    ensures FindRun(ws, 0, total, pages) == Some(k)
  {
    FindRunFacts(ws, 0, total, pages);
  }

  lemma SomeClearIff(r: Region)
    requires Good(r)
    ensures FindClear(r.bits, 0).Some? <==> exists j: nat :: Clear(r, j)
  {
    FindClearFacts(r.bits, 0);
    if FindClear(r.bits, 0).Some? {
      assert Clear(r, FindClear(r.bits, 0).value);
    }
  }

  class FrameRegionMap {
    var bits: seq<Word>
    const paddr: nat
    const paddrEnd: nat

    function View(): Region
      reads this
    {
      Region(bits, paddr, paddrEnd)
    }

    ghost predicate Valid()
      reads this
    {
      Good(View())
    }

    /** A fresh region of page-aligned bounds: every frame free, the padding bits set. */
    constructor (start: nat, end: nat)
      requires start <= end && start % PAGE_SIZE == 0 && end % PAGE_SIZE == 0
      ensures Valid() && paddr == start && paddrEnd == end
      ensures FreeFrames(View()) == Frames(View())
    {
      var total := (end - start) / PAGE_SIZE;
      var words: seq<Word> := seq((total + 63) / 64, _ => 0);
      forall j | 0 <= j < |words| * WORD_BITS ensures !Get(words, j) {
        ZeroBits(j % WORD_BITS);
      }
      var i := total;
      while i < |words| * WORD_BITS
        invariant total <= i <= |words| * WORD_BITS && |words| == (total + 63) / 64
        invariant forall j :: 0 <= j < |words| * WORD_BITS ==> (Get(words, j) <==> total <= j < i)
      {
        words := Set(words, i, true);
        i := i + 1;
      }
      bits, paddr, paddrEnd := words, start, end;
      new;
      forall p: nat ensures p in FreeFrames(View()) <==> p in Frames(View()) {
        FreeFramesIn(View(), p);
      }
    }

    /** A zero word counts 64 at once; any other word is counted bit by bit. */
    method GetFreePageCount() returns (sum: nat)
      requires Valid()
      ensures sum == CountClear(bits, |bits| * WORD_BITS)
      ensures sum == |FreeFrames(View())|
    {
      sum := 0;
      for k := 0 to |bits|
        invariant sum == CountClear(bits, k * WORD_BITS)
      {
        if bits[k] == 0 {
          ZeroWordBits(bits, k);
          CountAllClear(bits, k * WORD_BITS, (k + 1) * WORD_BITS);
          sum := sum + 64;
        } else {
          var more := CountWord(k);
          sum := sum + more;
        }
      }
      CountIsFreeFrames();
    }

    lemma CountIsFreeFrames()
      requires Valid()
      ensures CountClear(bits, |bits| * WORD_BITS) == |FreeFrames(View())|
    {
      GoodCovers(View());
      CountIsSize(View(), View().Total());
      CountAllSet(bits, View().Total(), |bits| * WORD_BITS);
    }

    method CountWord(k: nat) returns (sum: nat)
      requires k < |bits|
      ensures CountClear(bits, (k + 1) * WORD_BITS) == CountClear(bits, k * WORD_BITS) + sum
    {
      sum := 0;
      for i := 0 to 64
        invariant k * WORD_BITS + i <= |bits| * WORD_BITS
        invariant CountClear(bits, k * WORD_BITS + i) == CountClear(bits, k * WORD_BITS) + sum
      {
        WordView(bits, k, i);
        sum := sum + (if Bit(bits[k], i) then 0 else 1);
      }
    }

    /** The lowest clear bit of one word, or `None` for a full word. */
    method AllocInPos(index: nat) returns (a: Option<nat>)
      requires index < |bits|
      modifies this`bits
      ensures a.None? <==> old(bits)[index] == WORD_MAX
      ensures a.None? ==> bits == old(bits)
      ensures a.Some? && FindClear(old(bits), 0) == FindClear(old(bits), index * WORD_BITS) ==>
        (View(), a) == AllocOne(old(View()))
    {
      FullWord(bits[index]);
      for b := 0 to 64
        invariant bits == old(bits)
        invariant forall j :: 0 <= j < b ==> Bit(bits[index], j)
        invariant FindClear(bits, index * WORD_BITS) == FindClear(bits, index * WORD_BITS + b)
      {
        WordView(bits, index, b);
        if !Bit(bits[index], b) {
          bits := Set(bits, index * 64 + b, true);
          return Some(paddr + (index * 64 + b) * PAGE_SIZE);
        }
      }
      return None;
    }

    /** `alloc`: skip full words, take the lowest clear bit of the first other word. */
    method Alloc() returns (a: Option<nat>)
      requires Valid()
      modifies this`bits
      ensures (View(), a) == AllocOne(old(View()))
      ensures Valid()
    {
      AllocOneStep(View());
      for i := 0 to |bits|
        invariant bits == old(bits)
        invariant FindClear(bits, 0) == FindClear(bits, i * WORD_BITS)
      {
        if bits[i] != WORD_MAX {
          a := AllocInPos(i);
          return;
        }
        FullWordBits(bits, i);
        SkipSet(bits, i * WORD_BITS, (i + 1) * WORD_BITS);
      }
      return None;
    }

    method MarkRun(k: nat, pages: nat) returns (ps: seq<nat>)
      requires k + pages <= |bits| * WORD_BITS
      modifies this`bits
      ensures bits == SetRun(old(bits), k, pages) && ps == Addrs(old(View()), k, pages)
    {
      ps := [];
      for x := 0 to pages
        invariant |bits| == |old(bits)| && bits == SetRun(old(bits), k, x)
        invariant ps == Addrs(old(View()), k, x)
      {
        bits := Set(bits, k + x, true);
        ps := ps + [paddr + (k + x) * PAGE_SIZE];
        assert Addrs(old(View()), k, x + 1) == Addrs(old(View()), k, x) + [old(View()).Addr(k + x)];
      }
    }

    /** The sliding window: the leftmost run of `pages` clear bits, or none. */
    method FindWindow(pages: nat) returns (k: Option<nat>)
      requires Valid()
      ensures View().Total() <= |bits| * WORD_BITS
      ensures pages > 0 ==> k == FindRun(bits, 0, View().Total(), pages)
      ensures pages == 0 ==> (k.Some? <==> exists j: nat :: Clear(View(), j))
      ensures k.Some? ==> k.value <= View().Total()
    {
      GoodCovers(View());
      var total := View().Total();
      var start, count := 0, 0;
      for i := 0 to total
        invariant start <= i && count == i - start && (if pages > 0 then count < pages else count == 0)
        invariant forall j :: start <= j < i ==> !Get(bits, j)
        invariant forall j: nat :: j < start ==>
          if pages > 0 then j + pages <= total ==> !RunClear(bits, j, pages) else Get(bits, j)
      {
        if Get(bits, i) {
          forall j: nat | j < i + 1 && pages > 0 && j + pages <= total ensures !RunClear(bits, j, pages) {
            if j >= start {
              assert j <= i < j + pages && Get(bits, i);
            }
          }
          start, count := i + 1, 0;
        } else {
          count := count + 1;
          if count >= pages {
            if pages > 0 {
              FindRunIs(bits, total, pages, start);
            } else {
              assert Clear(View(), i);
            }
            return Some(start);
          }
        }
      }
      FindRunFacts(bits, 0, total, pages);
      return None;
    }

    /** `alloc_much`, with its two early rejections. */
    method AllocMuch(pages: nat) returns (a: Option<seq<nat>>)
      requires Valid()
      modifies this`bits
      ensures Valid() && old(View().Total()) <= |old(bits)| * WORD_BITS == |bits| * WORD_BITS
      ensures (View(), a) == AllocRun(old(View()), pages)
    {
      GoodCovers(View());
      var total := View().Total();
      if pages > total {
        return None;
      }
      var free := GetFreePageCount();
      if pages > free {
        FindRunFacts(bits, 0, total, pages);
        if FindRun(bits, 0, total, pages).Some? {
          RunNeedsFree(bits, FindRun(bits, 0, total, pages).value, total, pages);
          CountAllSet(bits, total, |bits| * WORD_BITS);
        }
        return None;
      }
      var k := FindWindow(pages);
      if pages > 0 {
        AllocRunStep(View(), pages);
        FindRunFacts(bits, 0, total, pages);
      } else {
        SomeClearIff(View());
      }
      if k.None? {
        return None;
      }
      var ps := MarkRun(k.value, pages);
      return Some(ps);
    }

    method Release(p: nat)
      requires Valid() && paddr <= p < paddrEnd
      modifies this`bits
      ensures p / PAGE_SIZE - paddr / PAGE_SIZE < |old(bits)| * WORD_BITS
      ensures View() == FreeOne(old(View()), p)
      ensures Valid() && Frames(View()) == Frames(old(View()))
      ensures FreeFrames(View()) == FreeFrames(old(View())) + {FrameAt(p)}
    {
      FreeOneStep(View(), p);
      var ppn := p / PAGE_SIZE;
      var startPpn := paddr / PAGE_SIZE;
      bits := Set(bits, ppn - startPpn, false);
    }
  }
}
