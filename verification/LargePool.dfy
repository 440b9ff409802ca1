/**
  The allocator for blocks over 64 KiB (crates/runtime/src/heap.rs): a table of records in one
  pool, first fit over the gaps between live blocks, lazy removal of freed records, two fallbacks
  and an "emergency reset".
*/
module LargePool {
  import opened Wrappers
  import opened Arith

  const POOL_SIZE: nat := 128 * 1024 * 1024
  const THRESHOLD: nat := 64 * 1024

  datatype Record = Record(offset: nat, size: nat, isFree: bool)

  datatype Block = Block(offset: nat, size: nat)
  {
    function End(): nat {
      offset + size
    }
  }

  /** `(x + align - 1) & !(align - 1)`, for the powers of two that a layout's alignment can be. */
  function AlignTo(x: nat, align: nat): nat
    requires align > 0
  {
    (x + align - 1) - (x + align - 1) % align
  }

  /* ---------- Views of the table ---------- */

  function Live(rs: seq<Record>): seq<Block> {
    if rs == [] then []
    else (if rs[0].isFree then [] else [Block(rs[0].offset, rs[0].size)]) + Live(rs[1..])
  }

  function FreeCount(rs: seq<Record>): nat {
    if rs == [] then 0 else (if rs[0].isFree then 1 else 0) + FreeCount(rs[1..])
  }

  function UsedCount(rs: seq<Record>): int {
    |rs| - FreeCount(rs)
  }

  function KeepLive(rs: seq<Record>): seq<Record> {
    if rs == [] then []
    else (if rs[0].isFree then [] else [rs[0]]) + KeepLive(rs[1..])
  }

  function KeepBig(rs: seq<Record>): seq<Record> {
    if rs == [] then []
    else (if rs[0].isFree || rs[0].size >= 64 * 1024 then [rs[0]] else []) + KeepBig(rs[1..])
  }

  function EndOffset(rs: seq<Record>): nat {
    MaxEnd(Live(rs))
  }

  function MaxEnd(bs: seq<Block>): nat {
    if bs == [] then 0
    else
      var m := MaxEnd(bs[1..]);
      if bs[0].End() >= m then bs[0].End() else m
  }

  function Remaining(rs: seq<Record>): nat {
    if EndOffset(rs) <= POOL_SIZE then POOL_SIZE - EndOffset(rs) else 0
  }

  /* ---------- find_free_block ---------- */

  function Insert(b: Block, bs: seq<Block>): seq<Block> {
    if bs == [] || b.offset <= bs[0].offset then [b] + bs else [bs[0]] + Insert(b, bs[1..])
  }

  /** The stable sort by start offset. */
  function Sort(bs: seq<Block>): seq<Block> {
    if bs == [] then [] else Insert(bs[0], Sort(bs[1..]))
  }

  function FirstFit(bs: seq<Block>, pos: nat, size: nat, align: nat): Option<nat>
    requires align > 0
    decreases |bs|
  {
    var at := AlignTo(pos, align);
    if bs == [] then
      if at + size <= POOL_SIZE then Some(at) else None
    else if at + size <= bs[0].offset then Some(at)
    else FirstFit(bs[1..], bs[0].End(), size, align)
  }

  function FindFreeBlock(rs: seq<Record>, size: nat, align: nat): Option<nat>
    requires align > 0
  {
    FirstFit(Sort(Live(rs)), 0, size, align)
  }

  /* ---------- The operations ---------- */

  function EmergencyReset(rs: seq<Record>): seq<Record> {
    if FreeCount(rs) * 3 >= UsedCount(rs) then KeepLive(rs)
    else if |rs| > 800 && |KeepBig(rs)| < |rs| then KeepBig(rs)
    else if |rs| > 500 then rs[..|rs| / 2]
    else rs
  }

  predicate Emergency(rs: seq<Record>) {
    Remaining(rs) < POOL_SIZE / 10 && |rs| > 100
  }

  function Push(rs: seq<Record>, at: nat, size: nat): seq<Record> {
    rs + [Record(at, size, false)]
  }

  /** The check at the head of `alloc`. */
  function Settle(rs: seq<Record>): seq<Record> {
    if Emergency(rs) then EmergencyReset(rs) else rs
  }

  /** The rest of `alloc`: a free gap, a retry after compaction, or the tail. */
  function Place(rs: seq<Record>, size: nat, align: nat): (seq<Record>, Option<nat>)
    requires align > 0
  {
    var first := FindFreeBlock(rs, size, align);
    if first.Some? then (Push(rs, first.value, size), first)
    else
      var kept := KeepLive(rs);
      var again := FindFreeBlock(kept, size, align);
      if |kept| < |rs| && again.Some? then (Push(kept, again.value, size), again)
      else
        var tail := AlignTo(EndOffset(kept), align);
        if tail + size <= POOL_SIZE then (Push(kept, tail, size), Some(tail)) else (kept, None)
  }

  function Alloc(rs: seq<Record>, size: nat, align: nat): (seq<Record>, Option<nat>)
    requires align > 0
  {
    Place(Settle(rs), size, align)
  }

  function MarkExact(rs: seq<Record>, offset: nat, size: nat): Option<seq<Record>> {
    if rs == [] then None
    else if rs[0].offset == offset && rs[0].size == size && !rs[0].isFree then
      Some([rs[0].(isFree := true)] + rs[1..])
    else
      match MarkExact(rs[1..], offset, size)
      case None => None
      case Some(rest) => Some([rs[0]] + rest)
  }

  function MarkContaining(rs: seq<Record>, offset: nat): seq<Record> {
    if rs == [] then []
    else if !rs[0].isFree && rs[0].offset <= offset < rs[0].offset + rs[0].size then
      [rs[0].(isFree := true)] + rs[1..]
    else [rs[0]] + MarkContaining(rs[1..], offset)
  }

  predicate ShouldCompact(rs: seq<Record>) {
    FreeCount(rs) >= 50 || (FreeCount(rs) > 0 && FreeCount(rs) * 4 >= UsedCount(rs))
  }

  function Dealloc(rs: seq<Record>, offset: nat, size: nat): seq<Record> {
    match MarkExact(rs, offset, size)
    case Some(marked) => if ShouldCompact(marked) then KeepLive(marked) else marked
    case None => MarkContaining(rs, offset)
  }

  /* ---------- What the clients hold ---------- */

  predicate Apart(a: Block, b: Block) {
    a.End() <= b.offset || b.End() <= a.offset
  }

  /** Every block once, inside the pool, over the threshold, and no two overlapping. */
  ghost predicate Separate(m: multiset<Block>) {
    && (forall a :: a in m ==> m[a] == 1 && a.size > THRESHOLD && a.End() <= POOL_SIZE)
    && (forall a, b :: a in m && b in m && a != b ==> Apart(a, b))
  }

  ghost function Held(rs: seq<Record>): multiset<Block> {
    multiset(Live(rs))
  }

  /** Only sizes over the threshold reach the large pool. */
  predicate AllBig(rs: seq<Record>) {
    forall r :: r in rs ==> r.size > THRESHOLD
  }

  ghost predicate Inv(rs: seq<Record>) {
    && Separate(Held(rs))
    && AllBig(rs)
    && (FreeCount(rs) == 0 || (FreeCount(rs) < 50 && FreeCount(rs) * 4 < UsedCount(rs)))
  }

  /** An aligned place for a new block. */
  ghost predicate Fits(m: multiset<Block>, at: nat, size: nat, align: nat)
    requires align > 0
  {
    at % align == 0 && at + size <= POOL_SIZE && forall b :: b in m ==> Apart(Block(at, size), b)
  }

  ghost predicate LeastFit(m: multiset<Block>, r: Option<nat>, size: nat, align: nat)
    requires align > 0
  {
    match r
    case Some(at) => Fits(m, at, size, align) && forall o: nat :: Fits(m, o, size, align) ==> at <= o
    case None => forall o: nat :: !Fits(m, o, size, align)
  }

  /* ---------- Arithmetic of alignment ---------- */

  lemma AlignIsAligned(x: nat, align: nat)
    requires align > 0
    ensures AlignTo(x, align) % align == 0 && x <= AlignTo(x, align) < x + align
  {
    var y := x + align - 1;
    assert y - y % align == (y / align) * align;
    MultipleMod(y / align, align);
  }

  /** No aligned address lies between `x` and the one the mask computes. */
  lemma AlignIsLeast(x: nat, align: nat, o: nat)
    requires align > 0 && o % align == 0 && x <= o
    ensures AlignTo(x, align) <= o
  {
    AlignIsAligned(x, align);
    var a := AlignTo(x, align);
    ModZeroIsMultiple(a, align);
    ModZeroIsMultiple(o, align);
    if a / align <= o / align {
      MulMonotone(a / align, o / align, align);
    } else {
      MulMonotone(o / align + 1, a / align, align);
    }
  }

  /* ---------- First fit is least fit ---------- */

  lemma {:induction false} InsertElems(b: Block, bs: seq<Block>)
    ensures multiset(Insert(b, bs)) == multiset{b} + multiset(bs)
  {
    if bs != [] && b.offset > bs[0].offset {
      InsertElems(b, bs[1..]);
      assert bs == [bs[0]] + bs[1..];
    }
  }

  lemma {:induction false} SortElems(bs: seq<Block>)
    ensures multiset(Sort(bs)) == multiset(bs)
  {
    if bs != [] {
      SortElems(bs[1..]);
      InsertElems(bs[0], Sort(bs[1..]));
      assert bs == [bs[0]] + bs[1..];
    }
  }

  ghost predicate Ascending(bs: seq<Block>) {
    bs != [] ==> (forall b :: b in bs[1..] ==> bs[0].offset <= b.offset) && Ascending(bs[1..])
  }

  lemma {:induction false} InsertAscending(b: Block, bs: seq<Block>)
    requires Ascending(bs)
    ensures Ascending(Insert(b, bs))
  {
    var out := Insert(b, bs);
    if bs == [] || b.offset <= bs[0].offset {
      assert out[1..] == bs;
    } else {
      InsertAscending(b, bs[1..]);
      assert out[1..] == Insert(b, bs[1..]);
      InsertElems(b, bs[1..]);
      forall c | c in out[1..] ensures bs[0].offset <= c.offset {
        assert c in multiset(out[1..]);
        assert c == b || c in multiset(bs[1..]);
      }
    }
  }

  lemma {:induction false} SortAscending(bs: seq<Block>)
    ensures Ascending(Sort(bs))
  {
    if bs != [] {
      SortAscending(bs[1..]);
      InsertAscending(bs[0], Sort(bs[1..]));
    }
  }

  /** Blocks of `bs` follow one another from `pos` on, without touching. */
  ghost predicate Chain(bs: seq<Block>, pos: nat) {
    bs != [] ==> pos <= bs[0].offset && bs[0].size > 0 && bs[0].End() <= POOL_SIZE && Chain(bs[1..], bs[0].End())
  }

  lemma {:induction false} SortedIsChain(bs: seq<Block>, pos: nat)
    requires Ascending(bs) && Separate(multiset(bs))
    requires forall b :: b in bs ==> pos <= b.offset
    ensures Chain(bs, pos)
    decreases |bs|
  {
    if bs != [] {
      var rest := bs[1..];
      assert bs == [bs[0]] + rest;
      assert multiset(bs) == multiset{bs[0]} + multiset(rest);
      assert bs[0] in multiset(bs);
      forall b | b in rest ensures bs[0].End() <= b.offset {
        assert b in multiset(rest) && b in multiset(bs);
        assert b != bs[0];
        assert Apart(bs[0], b);
      }
      SeparateSub(multiset(rest), multiset{bs[0]});
      SortedIsChain(rest, bs[0].End());
    }
  }

  lemma SeparateSub(a: multiset<Block>, b: multiset<Block>)
    requires Separate(b + a)
    ensures Separate(a)
  {
    forall x | x in a ensures a[x] == 1 && x.size > THRESHOLD && x.End() <= POOL_SIZE {
      assert x in b + a && (b + a)[x] == 1;
    }
    forall x, y | x in a && y in a && x != y ensures Apart(x, y) {
      assert x in b + a && y in b + a;
    }
  }

  /** Fitting between the blocks of a chain, not below its start. */
  ghost predicate FitsIn(bs: seq<Block>, pos: nat, at: nat, size: nat, align: nat)
    requires align > 0
  {
    && pos <= at && at % align == 0 && at + size <= POOL_SIZE
    && forall b :: b in bs ==> Apart(Block(at, size), b)
  }

  lemma {:induction false} ChainIsAbove(bs: seq<Block>, pos: nat, b: Block)
    requires Chain(bs, pos) && b in bs
    ensures pos <= b.offset
    decreases |bs|
  {
    if b != bs[0] {
      ChainIsAbove(bs[1..], bs[0].End(), b);
    }
  }

  lemma {:induction false} FirstFitFits(bs: seq<Block>, pos: nat, size: nat, align: nat)
    requires align > 0 && size > 0 && Chain(bs, pos)
    ensures var r := FirstFit(bs, pos, size, align);
      r.Some? ==> FitsIn(bs, pos, r.value, size, align)
    decreases |bs|
  {
    AlignIsAligned(pos, align);
    if bs != [] {
      if AlignTo(pos, align) + size <= bs[0].offset {
        forall b | b in bs ensures AlignTo(pos, align) + size <= b.offset {
          if b != bs[0] {
            ChainIsAbove(bs[1..], bs[0].End(), b);
          }
        }
      } else {
        FirstFitFits(bs[1..], bs[0].End(), size, align);
      }
    }
  }

  lemma {:induction false} FirstFitLeast(bs: seq<Block>, pos: nat, size: nat, align: nat, o: nat)
    requires align > 0 && size > 0 && Chain(bs, pos)
    requires FitsIn(bs, pos, o, size, align)
    ensures FirstFit(bs, pos, size, align).Some? && FirstFit(bs, pos, size, align).value <= o
    decreases |bs|
  {
    AlignIsLeast(pos, align, o);
    if bs != [] && AlignTo(pos, align) + size > bs[0].offset {
      assert Apart(Block(o, size), bs[0]);
      FirstFitLeast(bs[1..], bs[0].End(), size, align, o);
    }
  }

  /** `find_free_block` returns the least aligned offset that fits, and `None` only if none does. */
  lemma FindFreeBlockIsLeast(rs: seq<Record>, size: nat, align: nat)
    requires align > 0 && size > 0 && Separate(Held(rs))
    ensures LeastFit(Held(rs), FindFreeBlock(rs, size, align), size, align)
  {
    var bs := Sort(Live(rs));
    SortElems(Live(rs));
    SortAscending(Live(rs));
    SortedIsChain(bs, 0);
    forall b ensures b in bs <==> b in Held(rs) {
      assert b in bs <==> b in multiset(bs);
    }
    FirstFitFits(bs, 0, size, align);
    forall o: nat | Fits(Held(rs), o, size, align)
      ensures FirstFit(bs, 0, size, align).Some? && FirstFit(bs, 0, size, align).value <= o
    {
      FirstFitLeast(bs, 0, size, align, o);
    }
  }

  /* ---------- Compaction and the tail fallback ---------- */

  lemma {:induction false} KeepLiveFacts(rs: seq<Record>)
    ensures Live(KeepLive(rs)) == Live(rs)
    ensures FreeCount(KeepLive(rs)) == 0
    ensures |KeepLive(rs)| == UsedCount(rs) == |Live(rs)|
    ensures forall r :: r in KeepLive(rs) ==> r in rs
  {
    if rs != [] {
      KeepLiveFacts(rs[1..]);
      var kept := KeepLive(rs);
      if rs[0].isFree {
        assert kept == KeepLive(rs[1..]);
      } else {
        assert kept[1..] == KeepLive(rs[1..]);
      }
    }
  }

  lemma {:induction false} MaxEndBounds(bs: seq<Block>, b: Block)
    requires b in bs
    ensures b.End() <= MaxEnd(bs)
  {
    if b != bs[0] {
      MaxEndBounds(bs[1..], b);
    }
  }

  /** Space at the tail is a fit like any other. */
  lemma TailFits(rs: seq<Record>, size: nat, align: nat)
    requires align > 0
    requires AlignTo(EndOffset(rs), align) + size <= POOL_SIZE
    ensures Fits(Held(rs), AlignTo(EndOffset(rs), align), size, align)
  {
    AlignIsAligned(EndOffset(rs), align);
    forall b | b in Held(rs) ensures Apart(Block(AlignTo(EndOffset(rs), align), size), b) {
      MaxEndBounds(Live(rs), b);
    }
  }

  /** Once `find_free_block` has failed, neither the retry nor the tail can succeed. */
  lemma FallbacksAreDead(rs: seq<Record>, size: nat, align: nat)
    requires align > 0 && size > 0 && Separate(Held(rs))
    requires FindFreeBlock(rs, size, align).None?
    ensures FindFreeBlock(KeepLive(rs), size, align).None?
    ensures AlignTo(EndOffset(KeepLive(rs)), align) + size > POOL_SIZE
  {
    KeepLiveFacts(rs);
    FindFreeBlockIsLeast(rs, size, align);
    if AlignTo(EndOffset(KeepLive(rs)), align) + size <= POOL_SIZE {
      TailFits(rs, size, align);
    }
  }

  /* ---------- The emergency reset ---------- */

  lemma {:induction false} KeepBigKeepsAll(rs: seq<Record>)
    requires forall r :: r in rs ==> r.size > THRESHOLD
    ensures KeepBig(rs) == rs
  {
    if rs != [] {
      assert rs[0] in rs;
      KeepBigKeepsAll(rs[1..]);
    }
  }

  /** Strategies 1 and 2 never remove a record: all a reset can do is halve a long table. */
  lemma ResetOnlyHalves(rs: seq<Record>)
    requires Inv(rs) && Emergency(rs)
    ensures EmergencyReset(rs) == if |rs| > 500 then rs[..|rs| / 2] else rs
  {
    KeepBigKeepsAll(rs);
  }

  lemma {:induction false} LiveConcat(xs: seq<Record>, ys: seq<Record>)
    ensures Live(xs + ys) == Live(xs) + Live(ys)
    ensures FreeCount(xs + ys) == FreeCount(xs) + FreeCount(ys)
  {
    if xs == [] {
      assert xs + ys == ys;
    } else {
      assert (xs + ys)[1..] == xs[1..] + ys;
      LiveConcat(xs[1..], ys);
    }
  }

  predicate Forgets(rs: seq<Record>) {
    Remaining(rs) < POOL_SIZE / 10 && |rs| > 500
  }

  ghost predicate KeepsAll(rs: seq<Record>, size: nat, align: nat)
    requires align > 0
  {
    Held(rs) <= Held(Alloc(rs, size, align).0)
  }

  lemma HalvingForgets(rs: seq<Record>)
    requires Inv(rs) && |rs| > 500
    ensures |Live(rs[..|rs| / 2])| + 200 < |Live(rs)|
  {
    var n := |rs| / 2;
    assert rs == rs[..n] + rs[n..];
    LiveConcat(rs[..n], rs[n..]);
    KeepLiveFacts(rs[n..]);
  }

  lemma PushHolds(rs: seq<Record>, at: nat, size: nat)
    ensures Held(Push(rs, at, size)) == Held(rs) + multiset{Block(at, size)}
    ensures FreeCount(Push(rs, at, size)) == FreeCount(rs)
  {
    var last := Record(at, size, false);
    LiveConcat(rs, [last]);
    assert [last][1..] == [];
    assert Live([last]) == [Block(at, size)] + [];
  }

  ghost function Granted(r: Option<nat>, size: nat): multiset<Block> {
    if r.Some? then multiset{Block(r.value, size)} else multiset{}
  }

  lemma PlaceShape(rs: seq<Record>, size: nat, align: nat)
    requires align > 0
    ensures var (out, r) := Place(rs, size, align);
      match r
      case None => out == KeepLive(rs)
      case Some(at) => out == Push(rs, at, size) || out == Push(KeepLive(rs), at, size)
  {
  }

  lemma PlaceHolds(rs: seq<Record>, size: nat, align: nat)
    requires align > 0
    ensures Held(Place(rs, size, align).0) == Held(rs) + Granted(Place(rs, size, align).1, size)
  {
    PlaceShape(rs, size, align);
    var (out, r) := Place(rs, size, align);
    KeepLiveFacts(rs);
    match r {
      case None =>
        assert Granted(r, size) == multiset{};
      case Some(at) =>
        PushHolds(rs, at, size);
        PushHolds(KeepLive(rs), at, size);
    }
  }

  lemma SizesCompare(a: multiset<Block>, b: multiset<Block>)
    requires a <= b
    ensures |a| <= |b|
  {
    assert b == a + (b - a);
  }

  /**
    An allocation keeps every live block on the books if and only if the table is short or the
    pool is not nearly full; otherwise the reset forgets more than two hundred of them.
  */
  lemma AllocKeepsAllIff(rs: seq<Record>, size: nat, align: nat)
    requires align > 0 && Inv(rs)
    ensures KeepsAll(rs, size, align) <==> !Forgets(rs)
  {
    PlaceHolds(Settle(rs), size, align);
    if Forgets(rs) {
      ResetOnlyHalves(rs);
      HalvingForgets(rs);
      if KeepsAll(rs, size, align) {
        SizesCompare(Held(rs), Held(Alloc(rs, size, align).0));
      }
    } else if Emergency(rs) {
      ResetOnlyHalves(rs);
    }
  }

  /* ---------- One call ---------- */

  lemma SeparateGrows(m: multiset<Block>, b: Block)
    requires Separate(m) && b.size > THRESHOLD && b.End() <= POOL_SIZE
    requires forall a :: a in m ==> Apart(b, a)
    ensures Separate(m + multiset{b})
  {
    assert b !in m;
  }

  /**
    Short of a forgetting reset, `alloc` grants the least aligned offset that fits, refuses only
    when nothing fits, and adds exactly the granted block.
  */
  lemma AllocStep(rs: seq<Record>, size: nat, align: nat)
    requires align > 0 && size > THRESHOLD && Inv(rs) && !Forgets(rs)
    ensures var (out, r) := Alloc(rs, size, align);
      && Inv(out)
      && LeastFit(Held(rs), r, size, align)
      && Held(out) == Held(rs) + Granted(r, size)
  {
    if Emergency(rs) {
      ResetOnlyHalves(rs);
    }
    assert Settle(rs) == rs;
    PlaceStep(rs, size, align);
  }

  lemma PlaceStep(rs: seq<Record>, size: nat, align: nat)
    requires align > 0 && size > THRESHOLD && Inv(rs)
    ensures var (out, r) := Place(rs, size, align);
      && Inv(out)
      && LeastFit(Held(rs), r, size, align)
      && Held(out) == Held(rs) + Granted(r, size)
  {
    PlaceHolds(rs, size, align);
    FindFreeBlockIsLeast(rs, size, align);
    var first := FindFreeBlock(rs, size, align);
    if first.Some? {
      GrantKeepsInv(rs, first.value, size, align);
    } else {
      FallbacksAreDead(rs, size, align);
      KeepLiveFacts(rs);
    }
  }

  lemma GrantKeepsInv(rs: seq<Record>, at: nat, size: nat, align: nat)
    requires align > 0 && size > THRESHOLD && Inv(rs) && LeastFit(Held(rs), Some(at), size, align)
    ensures Inv(Push(rs, at, size))
  {
    PushHolds(rs, at, size);
    SeparateGrows(Held(rs), Block(at, size));
  }

  lemma {:induction false} MarkExactFacts(rs: seq<Record>, b: Block)
    requires b in Live(rs)
    ensures MarkExact(rs, b.offset, b.size).Some?
    ensures var marked := MarkExact(rs, b.offset, b.size).value;
      Held(marked) + multiset{b} == Held(rs) && FreeCount(marked) == FreeCount(rs) + 1 && |marked| == |rs|
  {
    var rest := rs[1..];
    if rs[0].offset == b.offset && rs[0].size == b.size && !rs[0].isFree {
      var marked := [rs[0].(isFree := true)] + rest;
      assert marked[1..] == rest;
      assert Live(marked) == Live(rest);
    } else {
      MarkExactFacts(rest, b);
      var inner := MarkExact(rest, b.offset, b.size).value;
      var marked := [rs[0]] + inner;
      assert marked[1..] == inner;
    }
  }

  lemma {:induction false} MarkExactSizes(rs: seq<Record>, b: Block)
    requires MarkExact(rs, b.offset, b.size).Some? && AllBig(rs)
    ensures AllBig(MarkExact(rs, b.offset, b.size).value)
  {
    var rest := rs[1..];
    assert rs[0] in rs && forall r :: r in rest ==> r in rs;
    if !(rs[0].offset == b.offset && rs[0].size == b.size && !rs[0].isFree) {
      MarkExactSizes(rest, b);
    }
  }

  /** Freeing a block a client holds removes that block and nothing else. */
  lemma DeallocStep(rs: seq<Record>, b: Block)
    requires Inv(rs) && b in Held(rs)
    ensures Inv(Dealloc(rs, b.offset, b.size))
    ensures Held(Dealloc(rs, b.offset, b.size)) == Held(rs) - multiset{b}
  {
    MarkExactFacts(rs, b);
    MarkExactSizes(rs, b);
    var marked := MarkExact(rs, b.offset, b.size).value;
    TakeOut(Held(marked), b, Held(rs));
    SettledInv(marked);
  }

  /** The freed records pile up until fifty, or a quarter of those in use, and then all go at once. */
  lemma DeallocCompactsIff(rs: seq<Record>, b: Block)
    requires b in Held(rs)
    ensures var freed, used, out := FreeCount(rs) + 1, |Live(rs)| - 1, Dealloc(rs, b.offset, b.size);
      if freed >= 50 || freed * 4 >= used
      then FreeCount(out) == 0 && |out| == used
      else FreeCount(out) == freed && |out| == |rs|
  {
    MarkExactFacts(rs, b);
    var marked := MarkExact(rs, b.offset, b.size).value;
    KeepLiveFacts(marked);
    KeepLiveFacts(rs);
    assert |Held(marked) + multiset{b}| == |Held(rs)|;
  }

  lemma {:induction false} MarkExactNone(rs: seq<Record>, offset: nat, size: nat)
    requires Block(offset, size) !in Live(rs)
    ensures MarkExact(rs, offset, size).None?
  {
    if rs != [] {
      MarkExactNone(rs[1..], offset, size);
    }
  }

  predicate Around(b: Block, offset: nat) {
    b.offset <= offset < b.End()
  }

  lemma {:induction false} MarkContainingFacts(rs: seq<Record>, offset: nat) returns (b: Option<Block>)
    ensures b.Some? ==> b.value in Live(rs) && Around(b.value, offset)
    ensures b.Some? ==> Held(MarkContaining(rs, offset)) + multiset{b.value} == Held(rs)
    ensures b.None? ==> MarkContaining(rs, offset) == rs && forall c :: c in Live(rs) ==> !Around(c, offset)
  {
    if rs == [] {
      b := None;
    } else {
      var rest, out := rs[1..], MarkContaining(rs, offset);
      if !rs[0].isFree && rs[0].offset <= offset < rs[0].offset + rs[0].size {
        b := Some(Block(rs[0].offset, rs[0].size));
        assert out[1..] == rest;
        assert Live(out) == Live(rest);
      } else {
        b := MarkContainingFacts(rest, offset);
        assert out[1..] == MarkContaining(rest, offset);
      }
    }
  }

  lemma AroundOne(m: multiset<Block>, b: Block, c: Block, offset: nat)
    requires Separate(m) && b in m && c in m && Around(b, offset) && Around(c, offset)
    ensures b == c
  {
  }

  /**
    A release that matches no block in use: the block the address lies in goes, whatever its size,
    and without such a block nothing changes.
  */
  lemma MismatchedFree(rs: seq<Record>, offset: nat, size: nat, b: Block)
    requires Separate(Held(rs)) && Block(offset, size) !in Held(rs)
    ensures b in Held(rs) && Around(b, offset) ==> Held(Dealloc(rs, offset, size)) == Held(rs) - multiset{b}
    ensures (forall c :: c in Held(rs) ==> !Around(c, offset)) ==> Dealloc(rs, offset, size) == rs
  {
    hide Separate, Around, MarkContaining, MarkExact;
    MarkExactNone(rs, offset, size);
    var c := MarkContainingFacts(rs, offset);
    if c.Some? {
      TakeOut(Held(Dealloc(rs, offset, size)), c.value, Held(rs));
      assert c.value in Held(rs);
      if b in Held(rs) && Around(b, offset) {
        AroundOne(Held(rs), b, c.value, offset);
      }
    }
  }

  lemma TakeOut(a: multiset<Block>, b: Block, all: multiset<Block>)
    requires a + multiset{b} == all && Separate(all)
    ensures a == all - multiset{b} && Separate(a)
  {
    assert multiset{b} + a == all;
    SeparateSub(a, multiset{b});
  }

  /** Compacting when it is due restores the bound on freed records. */
  lemma SettledInv(marked: seq<Record>)
    requires Separate(Held(marked)) && AllBig(marked)
    ensures var out := if ShouldCompact(marked) then KeepLive(marked) else marked;
      Inv(out) && Held(out) == Held(marked)
  {
    KeepLiveFacts(marked);
  }

  /* ---------- Whole runs ---------- */

  datatype Call = CallAlloc(size: nat, align: nat) | CallFree(b: Block)

  /** A client's view: what it was granted and has not given back. */
  datatype State = State(table: seq<Record>, owned: multiset<Block>)

  function Apply(s: State, c: Call): State
    requires c.CallAlloc? ==> c.align > 0
  {
    match c
    case CallAlloc(size, align) =>
      var (out, r) := Alloc(s.table, size, align);
      State(out, if r.Some? then s.owned + multiset{Block(r.value, size)} else s.owned)
    case CallFree(b) => State(Dealloc(s.table, b.offset, b.size), s.owned - multiset{b})
  }

  /**
    Matched calls: sizes that reach the large pool, frees of blocks the client owns, and no
    request while the table is long and the pool nearly full.
  */
  ghost predicate Matched(s: State, calls: seq<Call>)
    decreases |calls|
  {
    calls != [] ==>
      && (match calls[0]
          case CallAlloc(size, align) => align > 0 && size > THRESHOLD && !Forgets(s.table)
          case CallFree(b) => b in s.owned)
      && Matched(Apply(s, calls[0]), calls[1..])
  }

  ghost function Run(s: State, calls: seq<Call>): State
    requires Matched(s, calls)
    decreases |calls|
  {
    if calls == [] then s else Run(Apply(s, calls[0]), calls[1..])
  }

  /** The freed records that linger are so few that 451 live blocks keep the table within 500. */
  lemma FewOwnedNeverForgets(rs: seq<Record>)
    requires Inv(rs) && |Live(rs)| <= 451
    ensures !Forgets(rs)
  {
    KeepLiveFacts(rs);
  }

  /**
    Over every matched run the table and the clients agree on the live blocks, which stay
    disjoint, in bounds and unforgotten.
  */
  lemma {:induction false} RunAgrees(s: State, calls: seq<Call>)
    requires Inv(s.table) && s.owned == Held(s.table) && Matched(s, calls)
    ensures var t := Run(s, calls); Inv(t.table) && t.owned == Held(t.table) && Separate(t.owned)
    decreases |calls|
  {
    if calls != [] {
      match calls[0] {
        case CallAlloc(size, align) =>
          AllocStep(s.table, size, align);
        case CallFree(b) =>
          DeallocStep(s.table, b);
      }
      RunAgrees(Apply(s, calls[0]), calls[1..]);
    }
  }

  /** A client that never asks for another block while it owns more than 451. */
  ghost predicate Modest(s: State, calls: seq<Call>)
    decreases |calls|
  {
    calls != [] ==>
      && (match calls[0]
          case CallAlloc(size, align) => align > 0 && size > THRESHOLD && |s.owned| <= 451
          case CallFree(b) => b in s.owned)
      && Modest(Apply(s, calls[0]), calls[1..])
  }

  /** Such a client never meets a forgetting reset. */
  lemma {:induction false} ModestIsMatched(s: State, calls: seq<Call>)
    requires Inv(s.table) && s.owned == Held(s.table) && Modest(s, calls)
    ensures Matched(s, calls)
    decreases |calls|
  {
    if calls != [] {
      match calls[0] {
        case CallAlloc(size, align) =>
          FewOwnedNeverForgets(s.table);
          AllocStep(s.table, size, align);
        case CallFree(b) =>
          DeallocStep(s.table, b);
      }
      ModestIsMatched(Apply(s, calls[0]), calls[1..]);
    }
  }

  /** From the empty pool, a modest client and the table agree for ever. */
  lemma FromEmpty(calls: seq<Call>)
    requires Modest(State([], multiset{}), calls)
    ensures var s := State([], multiset{});
      && Matched(s, calls)
      && var t := Run(s, calls); Inv(t.table) && t.owned == Held(t.table) && Separate(t.owned)
  {
    EmptyTable();
    ModestIsMatched(State([], multiset{}), calls);
    RunAgrees(State([], multiset{}), calls);
  }

  lemma EmptyTable()
    ensures Inv([]) && Held([]) == multiset{}
  {
  }

  /* ---------- A run that forgets ---------- */

  const CHUNK: nat := 260000

  /** The table after `n` allocations of `CHUNK` bytes. */
  function Chunks(n: nat): seq<Record> {
    if n == 0 then [] else Push(Chunks(n - 1), (n - 1) * CHUNK, CHUNK)
  }

  function Chunk(k: nat): Block {
    Block(k * CHUNK, CHUNK)
  }

  lemma {:induction false} ChunksHeld(n: nat)
    ensures |Chunks(n)| == n && FreeCount(Chunks(n)) == 0
    ensures forall b :: b in Held(Chunks(n)) ==> b.size == CHUNK && b.End() <= n * CHUNK
  {
    if n > 0 {
      ChunksHeld(n - 1);
      PushHolds(Chunks(n - 1), (n - 1) * CHUNK, CHUNK);
    }
  }

  lemma {:induction false} ChunkHeld(n: nat, k: nat)
    requires k < n
    ensures Chunk(k) in Held(Chunks(n))
  {
    PushHolds(Chunks(n - 1), (n - 1) * CHUNK, CHUNK);
    if k < n - 1 {
      ChunkHeld(n - 1, k);
    }
  }

  lemma {:induction false} ChunksBig(n: nat)
    ensures AllBig(Chunks(n))
  {
    if n > 0 {
      ChunksBig(n - 1);
    }
  }

  lemma {:induction false} ChunksSeparate(n: nat)
    requires n <= 501
    ensures Separate(Held(Chunks(n)))
  {
    if n > 0 {
      ChunksSeparate(n - 1);
      PushHolds(Chunks(n - 1), (n - 1) * CHUNK, CHUNK);
      ChunkApart(n - 1);
      SeparateGrows(Held(Chunks(n - 1)), Chunk(n - 1));
    }
  }

  /** The next chunk overlaps none of those before it. */
  lemma ChunkApart(n: nat)
    ensures forall a :: a in Held(Chunks(n)) ==> Apart(Chunk(n), a)
  {
    ChunksHeld(n);
  }

  lemma ChunksInv(n: nat)
    requires n <= 501
    ensures Inv(Chunks(n))
  {
    ChunksSeparate(n);
    ChunksBig(n);
    ChunksHeld(n);
  }

  lemma NoRoomBelow(n: nat, o: nat)
    requires o < n * CHUNK
    ensures !Fits(Held(Chunks(n)), o, CHUNK, 1)
  {
    ChunkHeld(n, o / CHUNK);
  }

  lemma ChunkFits(n: nat)
    requires n <= 500
    ensures FindFreeBlock(Chunks(n), CHUNK, 1) == Some(n * CHUNK)
  {
    ChunksSeparate(n);
    FindFreeBlockIsLeast(Chunks(n), CHUNK, 1);
    ChunkApart(n);
    forall o: nat | Fits(Held(Chunks(n)), o, CHUNK, 1) ensures n * CHUNK <= o {
      if o < n * CHUNK {
        NoRoomBelow(n, o);
      }
    }
    LeastFitIs(Held(Chunks(n)), FindFreeBlock(Chunks(n), CHUNK, 1), n * CHUNK, CHUNK);
  }

  lemma LeastFitIs(m: multiset<Block>, r: Option<nat>, at: nat, size: nat)
    requires LeastFit(m, r, size, 1) && at + size <= POOL_SIZE && forall b :: b in m ==> Apart(Block(at, size), b)
    requires forall o: nat :: Fits(m, o, size, 1) ==> at <= o
    ensures r == Some(at)
  {
    assert Fits(m, at, size, 1);
  }

  /** Each of the first 501 requests is granted right after the previous one. */
  lemma ChunkIsGranted(n: nat)
    requires n <= 500
    ensures Alloc(Chunks(n), CHUNK, 1) == (Chunks(n + 1), Some(n * CHUNK))
  {
    ChunksInv(n);
    ChunksHeld(n);
    ChunkFits(n);
    if Emergency(Chunks(n)) {
      ResetOnlyHalves(Chunks(n));
    }
  }

  /** After 501 such grants, the next request makes the pool lose track of blocks still in use. */
  lemma ReachableForgetting(n: nat)
    requires n == 501
    ensures Inv(Chunks(n)) && Forgets(Chunks(n))
    ensures !KeepsAll(Chunks(n), CHUNK, 1)
  {
    ChunksInv(n);
    ChunksHeld(n);
    ChunkHeld(n, n - 1);
    MaxEndBounds(Live(Chunks(n)), Chunk(n - 1));
    AllocKeepsAllIff(Chunks(n), CHUNK, 1);
  }

  lemma {:induction false} ChunksPrefix(n: nat, k: nat)
    requires k <= n
    ensures |Chunks(n)| == n && Chunks(n)[..k] == Chunks(k)
  {
    if n > 0 {
      ChunksPrefix(n - 1, if k < n then k else n - 1);
      if k < n {
        assert Chunks(n)[..k] == Chunks(n - 1)[..k];
      }
    }
  }

  /** And that next request is answered with a block another client still holds. */
  lemma DoubleGrant(n: nat)
    requires n == 501
    ensures Alloc(Chunks(n), CHUNK, 1).1 == Some(Chunk(n / 2).offset) && Chunk(n / 2) in Held(Chunks(n))
  {
    ReachableForgetting(n);
    ChunkHeld(n, n / 2);
    ChunksPrefix(n, n / 2);
    ResetOnlyHalves(Chunks(n));
    ChunkFits(n / 2);
  }

  /* ---------- The allocator itself ---------- */

  class LargeAllocator {
    var allocations: seq<Record>

    constructor ()
      ensures allocations == []
    {
      allocations := [];
    }

    method GetAllocationStats() returns (freeCount: nat, usedCount: nat)
      ensures freeCount == FreeCount(allocations) && usedCount == UsedCount(allocations) == |Live(allocations)|
    {
      KeepLiveFacts(allocations);
      freeCount := 0;
      for i := 0 to |allocations|
        invariant freeCount == FreeCount(allocations[..i]) <= i
      {
        assert allocations[..i + 1] == allocations[..i] + [allocations[i]];
        LiveConcat(allocations[..i], [allocations[i]]);
        assert [allocations[i]][1..] == [];
        if allocations[i].isFree {
          freeCount := freeCount + 1;
        }
      }
      assert allocations[..|allocations|] == allocations;
      usedCount := |allocations| - freeCount;
    }

    /** Walk the gaps between the sorted live blocks with a running position. */
    method FindFree(size: nat, align: nat) returns (r: Option<nat>)
      requires align > 0
      ensures r == FindFreeBlock(allocations, size, align)
      ensures size > 0 && Separate(Held(allocations)) ==> LeastFit(Held(allocations), r, size, align)
    {
      if size > 0 && Separate(Held(allocations)) {
        FindFreeBlockIsLeast(allocations, size, align);
      }
      var ranges := Sort(Live(allocations));
      var pos := 0;
      for i := 0 to |ranges|
        invariant FirstFit(ranges, 0, size, align) == FirstFit(ranges[i..], pos, size, align)
      {
        var at := AlignTo(pos, align);
        if at + size <= ranges[i].offset {
          return Some(at);
        }
        assert ranges[i..][1..] == ranges[i + 1..];
        pos := ranges[i].End();
      }
      var at := AlignTo(pos, align);
      return if at + size <= POOL_SIZE then Some(at) else None;
    }

    method CompactMemory() returns (removed: bool)
      modifies this
      ensures allocations == KeepLive(old(allocations))
      ensures removed == (|allocations| < |old(allocations)|)
      ensures Held(allocations) == Held(old(allocations))
    {
      var before := allocations;
      allocations := KeepLive(before);
      KeepLiveFacts(before);
      return |allocations| < |before|;
    }

    method Reset()
      modifies this
      ensures allocations == EmergencyReset(old(allocations))
      ensures Inv(old(allocations)) && Emergency(old(allocations)) ==>
        allocations == if |old(allocations)| > 500 then old(allocations)[..|old(allocations)| / 2] else old(allocations)
    {
      if Inv(allocations) && Emergency(allocations) {
        ResetOnlyHalves(allocations);
      }
      var freeCount, usedCount := GetAllocationStats();
      if freeCount * 3 >= usedCount {
        allocations := KeepLive(allocations);
        return;
      }
      if |allocations| > 800 {
        var big := KeepBig(allocations);
        if |big| < |allocations| {
          allocations := big;
          return;
        }
        KeepBigSame(allocations);
      }
      if |allocations| > 500 {
        allocations := allocations[..|allocations| / 2];
      }
    }

    method Allocate(size: nat, align: nat) returns (r: Option<nat>)
      requires align > 0
      modifies this
      ensures (allocations, r) == Alloc(old(allocations), size, align)
      ensures size > THRESHOLD && Inv(old(allocations)) && !Forgets(old(allocations)) ==>
        && Inv(allocations)
        && LeastFit(Held(old(allocations)), r, size, align)
        && Held(allocations) == Held(old(allocations)) + Granted(r, size)
    {
      if size > THRESHOLD && Inv(allocations) && !Forgets(allocations) {
        AllocStep(allocations, size, align);
      }
      if Emergency(allocations) {
        Reset();
      }
      r := FindFree(size, align);
      if r.Some? {
        allocations := Push(allocations, r.value, size);
        return;
      }
      var removed := CompactMemory();
      if removed {
        r := FindFree(size, align);
        if r.Some? {
          allocations := Push(allocations, r.value, size);
          return;
        }
      }
      var tail := AlignTo(EndOffset(allocations), align);
      if tail + size <= POOL_SIZE {
        allocations := Push(allocations, tail, size);
        return Some(tail);
      }
      return None;
    }

    /** The first loop of `dealloc`: free the live record with this very offset and size. */
    method FreeExact(offset: nat, size: nat) returns (found: bool)
      modifies this
      ensures found == MarkExact(old(allocations), offset, size).Some?
      ensures allocations
              == if found then MarkExact(old(allocations), offset, size).value else old(allocations)
    {
      var before := allocations;
      ghost var goal := MarkExact(before, offset, size);
      assert before[0..] == before;
      assert goal.Some? ==> [] + goal.value == goal.value;
      for i := 0 to |before|
        invariant allocations == before
        invariant goal == After(before[..i], MarkExact(before[i..], offset, size))
      {
        var r := before[i];
        assert before[i..][1..] == before[i + 1..];
        if r.offset == offset && r.size == size && !r.isFree {
          allocations := before[i := r.(isFree := true)];
          assert allocations == before[..i] + ([r.(isFree := true)] + before[i + 1..]);
          return true;
        }
        AfterStep(before, i, MarkExact(before[i + 1..], offset, size));
      }
      return false;
    }

    /** The second loop of `dealloc`: free the first live record containing the address. */
    method FreeContaining(offset: nat)
      modifies this
      ensures allocations == MarkContaining(old(allocations), offset)
    {
      var before := allocations;
      assert before[0..] == before;
      for i := 0 to |before|
        invariant allocations == before
        invariant MarkContaining(before, offset) == before[..i] + MarkContaining(before[i..], offset)
      {
        var r := before[i];
        assert before[i..][1..] == before[i + 1..];
        if !r.isFree && r.offset <= offset < r.offset + r.size {
          allocations := before[i := r.(isFree := true)];
          assert allocations == before[..i] + ([r.(isFree := true)] + before[i + 1..]);
          return;
        }
        assert before[..i] + ([r] + MarkContaining(before[i + 1..], offset))
               == before[..i + 1] + MarkContaining(before[i + 1..], offset);
      }
    }

    method Deallocate(offset: nat, size: nat)
      modifies this
      ensures allocations == Dealloc(old(allocations), offset, size)
      ensures Inv(old(allocations)) && Block(offset, size) in Held(old(allocations)) ==>
        && Inv(allocations)
        && Held(allocations) == Held(old(allocations)) - multiset{Block(offset, size)}
    {
      if Inv(allocations) && Block(offset, size) in Held(allocations) {
        DeallocStep(allocations, Block(offset, size));
      }
      var found := FreeExact(offset, size);
      if found {
        var freeCount, usedCount := GetAllocationStats();
        if freeCount >= 50 || (freeCount > 0 && freeCount * 4 >= usedCount) {
          var _ := CompactMemory();
        }
      } else {
        FreeContaining(offset);
      }
    }
  }

  lemma AfterStep(rs: seq<Record>, i: nat, rest: Option<seq<Record>>)
    requires i < |rs|
    ensures After(rs[..i], match rest case None => None case Some(t) => Some([rs[i]] + t))
            == After(rs[..i + 1], rest)
  {
    if rest.Some? {
      assert rs[..i] + ([rs[i]] + rest.value) == rs[..i + 1] + rest.value;
    }
  }

  function After(prefix: seq<Record>, o: Option<seq<Record>>): Option<seq<Record>> {
    match o
    case None => None
    case Some(rest) => Some(prefix + rest)
  }

  lemma {:induction false} KeepBigSame(rs: seq<Record>)
    ensures |KeepBig(rs)| <= |rs|
  {
    if rs != [] {
      KeepBigSame(rs[1..]);
    }
  }
}
