/**
  A RamFs file (filesystem/ramfs/src/lib.rs): a vector of page frames and a length, read and
  written page by page, against the flat byte string it stands for.
*/
module RamFiles {
  import opened Wrappers
  import opened Bytes

  datatype File = File(pages: seq<Page>, len: nat)

  datatype Errno = ENOMEM

  function DivCeil(n: nat): nat {
    (n + PAGE_SIZE - 1) / PAGE_SIZE
  }

  function Min(a: nat, b: nat): nat {
    if a <= b then a else b
  }

  /* ---------- The flat byte string ---------- */

  function Flat(pages: seq<Page>): (r: seq<Byte>)
    ensures |r| == |pages| * PAGE_SIZE
  {
    if pages == [] then [] else pages[0] + Flat(pages[1..])
  }

  /** The length is backed by pages, and every byte past it is zero. */
  ghost predicate Inv(f: File) {
    && f.len <= |f.pages| * PAGE_SIZE
    && forall i :: f.len <= i < |f.pages| * PAGE_SIZE ==> Flat(f.pages)[i] == 0
  }

  ghost function Contents(f: File): seq<Byte>
    requires Inv(f)
  {
    Flat(f.pages)[..f.len]
  }

  function Overwrite(c: seq<Byte>, off: nat, d: seq<Byte>): seq<Byte>
    requires off + |d| <= |c|
  {
    c[..off] + d + c[off + |d|..]
  }

  function Extend(c: seq<Byte>, n: nat): seq<Byte> {
    if n <= |c| then c else c + Zeros(n - |c|)
  }

  /** A write on the flat file: the gap, if any, reads as zero. */
  function FlatWrite(c: seq<Byte>, off: nat, d: seq<Byte>): seq<Byte> {
    Overwrite(Extend(c, off + |d|), off, d)
  }

  function FlatTruncate(c: seq<Byte>, n: nat): seq<Byte> {
    if n <= |c| then c[..n] else Extend(c, n)
  }

  function FlatRead(c: seq<Byte>, off: nat, n: nat): seq<Byte> {
    if off >= |c| then [] else c[off..Min(off + n, |c|)]
  }

  /* ---------- Reading and writing page by page ---------- */

  function Chunk(off: nat, n: nat): nat {
    Min(PAGE_SIZE - off % PAGE_SIZE, n)
  }

  function ReadPages(pages: seq<Page>, off: nat, n: nat): seq<Byte>
    requires off + n <= |pages| * PAGE_SIZE
    decreases n
  {
    var k := Chunk(off, n);
    if k == 0 then []
    else pages[off / PAGE_SIZE][off % PAGE_SIZE..off % PAGE_SIZE + k] + ReadPages(pages, off + k, n - k)
  }

  function PutInPage(p: Page, at: nat, d: seq<Byte>): Page
    requires at + |d| <= PAGE_SIZE
  {
    p[..at] + d + p[at + |d|..]
  }

  function WritePages(pages: seq<Page>, off: nat, d: seq<Byte>): (r: seq<Page>)
    requires off + |d| <= |pages| * PAGE_SIZE
    ensures |r| == |pages|
    decreases |d|
  {
    var k := Chunk(off, |d|);
    if k == 0 then pages
    else
      var i := off / PAGE_SIZE;
      WritePages(pages[i := PutInPage(pages[i], off % PAGE_SIZE, d[..k])], off + k, d[k..])
  }

  lemma {:induction false} FlatAt(pages: seq<Page>, i: nat)
    requires i < |pages| * PAGE_SIZE
    ensures i / PAGE_SIZE < |pages| && Flat(pages)[i] == pages[i / PAGE_SIZE][i % PAGE_SIZE]
  {
    if i >= PAGE_SIZE {
      FlatAt(pages[1..], i - PAGE_SIZE);
    }
  }

  lemma {:induction false} FlatConcat(ps: seq<Page>, qs: seq<Page>)
    ensures Flat(ps + qs) == Flat(ps) + Flat(qs)
  {
    if ps == [] {
      assert ps + qs == qs;
    } else {
      assert (ps + qs)[1..] == ps[1..] + qs;
      FlatConcat(ps[1..], qs);
    }
  }

  lemma {:induction false} FlatInPage(pages: seq<Page>, q: nat, a: nat)
    requires q < |pages| && a < PAGE_SIZE
    ensures q * PAGE_SIZE + a < |pages| * PAGE_SIZE
    ensures Flat(pages)[q * PAGE_SIZE + a] == pages[q][a]
  {
    assert (q * PAGE_SIZE + a) / PAGE_SIZE == q && (q * PAGE_SIZE + a) % PAGE_SIZE == a;
    FlatAt(pages, q * PAGE_SIZE + a);
  }

  lemma {:induction false} PageSlice(pages: seq<Page>, q: nat, a: nat, k: nat)
    requires q < |pages| && a + k <= PAGE_SIZE
    ensures q * PAGE_SIZE + a + k <= |pages| * PAGE_SIZE
    ensures Flat(pages)[q * PAGE_SIZE + a..q * PAGE_SIZE + a + k] == pages[q][a..a + k]
  {
    var whole, part := Flat(pages)[q * PAGE_SIZE + a..q * PAGE_SIZE + a + k], pages[q][a..a + k];
    forall j | 0 <= j < k ensures whole[j] == part[j] {
      FlatInPage(pages, q, a + j);
    }
  }

  lemma {:induction false} FlatSlice(pages: seq<Page>, off: nat, k: nat)
    requires off + k <= |pages| * PAGE_SIZE && off % PAGE_SIZE + k <= PAGE_SIZE && k > 0
    ensures off / PAGE_SIZE < |pages|
    ensures Flat(pages)[off..off + k] == pages[off / PAGE_SIZE][off % PAGE_SIZE..off % PAGE_SIZE + k]
  {
    PageSlice(pages, off / PAGE_SIZE, off % PAGE_SIZE, k);
  }

  lemma {:induction false} ReadPagesIsSlice(pages: seq<Page>, off: nat, n: nat)
    requires off + n <= |pages| * PAGE_SIZE
    ensures ReadPages(pages, off, n) == Flat(pages)[off..off + n]
    decreases n
  {
    var k := Chunk(off, n);
    if k > 0 {
      FlatSlice(pages, off, k);
      ReadPagesIsSlice(pages, off + k, n - k);
      JoinSlices(Flat(pages), off, off + k, off + n);
    }
  }

  lemma JoinSlices(c: seq<Byte>, i: nat, j: nat, k: nat)
    requires i <= j <= k <= |c|
    ensures c[i..j] + c[j..k] == c[i..k]
  {
  }

  lemma PutIsOverwrite(pages: seq<Page>, off: nat, d: seq<Byte>)
    requires off + |d| <= |pages| * PAGE_SIZE && off % PAGE_SIZE + |d| <= PAGE_SIZE && |d| > 0
    ensures off / PAGE_SIZE < |pages|
    ensures var i := off / PAGE_SIZE;
      Flat(pages[i := PutInPage(pages[i], off % PAGE_SIZE, d)]) == Overwrite(Flat(pages), off, d)
  {
    FlatAt(pages, off);
    var i := off / PAGE_SIZE;
    var out := pages[i := PutInPage(pages[i], off % PAGE_SIZE, d)];
    forall j | 0 <= j < |pages| * PAGE_SIZE ensures Flat(out)[j] == Overwrite(Flat(pages), off, d)[j] {
      FlatAt(out, j);
      FlatAt(pages, j);
    }
  }

  lemma OverwriteTwice(c: seq<Byte>, off: nat, d: seq<Byte>, k: nat)
    requires off + |d| <= |c| && k <= |d|
    ensures Overwrite(Overwrite(c, off, d[..k]), off + k, d[k..]) == Overwrite(c, off, d)
  {
  }

  lemma {:induction false} WritePagesIsOverwrite(pages: seq<Page>, off: nat, d: seq<Byte>)
    requires off + |d| <= |pages| * PAGE_SIZE
    ensures Flat(WritePages(pages, off, d)) == Overwrite(Flat(pages), off, d)
    decreases |d|
  {
    var k := Chunk(off, |d|);
    if k == 0 {
      assert d == [];
      assert Overwrite(Flat(pages), off, d) == Flat(pages);
    } else {
      var i := off / PAGE_SIZE;
      PutIsOverwrite(pages, off, d[..k]);
      WritePagesIsOverwrite(pages[i := PutInPage(pages[i], off % PAGE_SIZE, d[..k])], off + k, d[k..]);
      OverwriteTwice(Flat(pages), off, d, k);
    }
  }

  /* ---------- The operations ---------- */

  function BlankPages(n: nat): seq<Page> {
    seq(n, _ => ZeroPage())
  }

  /** Frames the allocator supplies out of `need`, when it can supply `avail`. */
  function Granted(need: int, avail: nat): nat {
    if need <= 0 then 0 else Min(need, avail)
  }

  function ReadAt(f: File, off: nat, n: nat): seq<Byte>
    requires f.len <= |f.pages| * PAGE_SIZE
  {
    if off >= f.len then [] else ReadPages(f.pages, off, Min(n, f.len - off))
  }

  /** How much of the buffer fits once `pages` pages are there. */
  function Writable(off: nat, n: nat, pages: nat): nat {
    if off < pages * PAGE_SIZE then Min(n, pages * PAGE_SIZE - off) else 0
  }

  /** The write loop and the length update, for bytes that fit the pages. */
  function StoreInto(len: nat, pages: seq<Page>, off: nat, d: seq<Byte>): File
    requires d != [] ==> off + |d| <= |pages| * PAGE_SIZE
  {
    File(if d == [] then pages else WritePages(pages, off, d), if off + |d| > len then off + |d| else len)
  }

  function WriteAt(f: File, off: nat, d: seq<Byte>, avail: nat): (File, Result<nat, Errno>) {
    var need := DivCeil(off + |d|) - |f.pages|;
    var got := Granted(need, avail);
    if need > 0 && got == 0 then (f, Err(ENOMEM))
    else
      var pages := f.pages + BlankPages(got);
      var n := Writable(off, |d|, |pages|);
      (StoreInto(f.len, pages, off, d[..n]), Ok(n))
  }

  function ClearedPage(p: Page, i: nat, size: nat): Page {
    if i >= DivCeil(size) then ZeroPage()
    else if i == size / PAGE_SIZE && size % PAGE_SIZE != 0
    then PutInPage(p, size % PAGE_SIZE, Zeros(PAGE_SIZE - size % PAGE_SIZE))
    else p
  }

  function ClearFrom(pages: seq<Page>, size: nat): (r: seq<Page>)
    ensures |r| == |pages|
  {
    seq<Page>(|pages|, i requires 0 <= i < |pages| => ClearedPage(pages[i], i, size))
  }

  function Truncate(f: File, size: nat, avail: nat): (File, Result<(), Errno>) {
    var need := DivCeil(size) - |f.pages|;
    var got := Granted(need, avail);
    (File(ClearFrom(f.pages, size) + BlankPages(got), size), if need > got then Err(ENOMEM) else Ok(()))
  }

  /* ---------- What they mean for the flat file ---------- */

  lemma {:induction false} FlatBlank(n: nat)
    ensures Flat(BlankPages(n)) == Zeros(n * PAGE_SIZE)
  {
    forall i | 0 <= i < n * PAGE_SIZE ensures Flat(BlankPages(n))[i] == 0 {
      FlatAt(BlankPages(n), i);
    }
  }

  lemma {:induction false} ReadIsFlatRead(f: File, off: nat, n: nat)
    requires Inv(f)
    ensures ReadAt(f, off, n) == FlatRead(Contents(f), off, n)
  {
    if off < f.len {
      hide ReadPages, Flat;
      var k := Min(n, f.len - off);
      ReadPagesIsSlice(f.pages, off, k);
      SliceOfPrefix(Flat(f.pages), f.len, off, k);
    }
  }

  lemma SliceOfPrefix(c: seq<Byte>, len: nat, off: nat, k: nat)
    requires off + k <= len <= |c|
    ensures c[..len][off..off + k] == c[off..off + k]
  {
  }

  lemma MorePages(f: File, got: nat)
    requires Inv(f)
    ensures Flat(f.pages + BlankPages(got)) == Contents(f) + Zeros((|f.pages| + got) * PAGE_SIZE - f.len)
  {
    FlatConcat(f.pages, BlankPages(got));
    FlatBlank(got);
  }

  /** Writing inside zero-padded pages is the flat write, padded. */
  lemma PaddedWrite(c: seq<Byte>, total: nat, off: nat, d: seq<Byte>)
    requires |c| <= total && off + |d| <= total
    ensures var w := FlatWrite(c, off, d);
      |w| <= total && Overwrite(c + Zeros(total - |c|), off, d) == w + Zeros(total - |w|)
  {
  }

  lemma PaddedIsInv(f: File, c: seq<Byte>)
    requires |c| <= |f.pages| * PAGE_SIZE && f.len == |c|
    requires Flat(f.pages) == c + Zeros(|f.pages| * PAGE_SIZE - |c|)
    ensures Inv(f) && Contents(f) == c
  {
  }

  /** The condition under which a write keeps the file sound: the offset lies within its pages. */
  predicate OffsetBacked(f: File, off: nat, n: nat, avail: nat) {
    off <= (|f.pages| + Granted(DivCeil(off + n) - |f.pages|, avail)) * PAGE_SIZE
  }

  lemma {:induction false} StoreIsFlatWrite(f: File, got: nat, off: nat, d: seq<Byte>)
    requires Inv(f) && off + |d| <= (|f.pages| + got) * PAGE_SIZE
    ensures var g := StoreInto(f.len, f.pages + BlankPages(got), off, d);
      Inv(g) && Contents(g) == FlatWrite(Contents(f), off, d)
  {
    MorePages(f, got);
    StorePadded(f.pages + BlankPages(got), Contents(f), off, d);
  }

  lemma {:induction false} StorePadded(pages: seq<Page>, c: seq<Byte>, off: nat, d: seq<Byte>)
    requires |c| <= |pages| * PAGE_SIZE && off + |d| <= |pages| * PAGE_SIZE
    requires Flat(pages) == c + Zeros(|pages| * PAGE_SIZE - |c|)
    ensures var g := StoreInto(|c|, pages, off, d); Inv(g) && Contents(g) == FlatWrite(c, off, d)
  {
    var total := |pages| * PAGE_SIZE;
    var g, w := StoreInto(|c|, pages, off, d), FlatWrite(c, off, d);
    assert Flat(g.pages) == w + Zeros(total - |w|) && |g.pages| == |pages| by {
      StoreIsOverwrite(|c|, pages, off, d);
      PaddedWrite(c, total, off, d);
    }
    assert g.len == |w|;
    PaddedIsInv(g, w);
  }

  lemma {:induction false} StoreIsOverwrite(len: nat, pages: seq<Page>, off: nat, d: seq<Byte>)
    requires off + |d| <= |pages| * PAGE_SIZE
    ensures var g := StoreInto(len, pages, off, d);
      |g.pages| == |pages| && Flat(g.pages) == Overwrite(Flat(pages), off, d)
  {
    if d == [] {
      assert Overwrite(Flat(pages), off, d) == Flat(pages);
    } else {
      WritePagesIsOverwrite(pages, off, d);
    }
  }

  lemma WritableFits(off: nat, n: nat, pages: nat)
    requires off <= pages * PAGE_SIZE
    ensures Writable(off, n, pages) <= n && off + Writable(off, n, pages) <= pages * PAGE_SIZE
  {
  }

  lemma {:induction false} WriteIsFlatWrite(f: File, off: nat, d: seq<Byte>, avail: nat)
    requires Inv(f) && OffsetBacked(f, off, |d|, avail)
    ensures var (g, r) := WriteAt(f, off, d, avail);
      && Inv(g)
      && match r
         case Err(_) => g == f
         case Ok(n) => n <= |d| && Contents(g) == FlatWrite(Contents(f), off, d[..n])
  {
    StoredWrite(f, Granted(DivCeil(off + |d|) - |f.pages|, avail), off, d);
  }

  /** With `got` frames more, as much is stored as then fits. */
  lemma {:induction false} StoredWrite(f: File, got: nat, off: nat, d: seq<Byte>)
    requires Inv(f) && off <= (|f.pages| + got) * PAGE_SIZE
    ensures var n := Writable(off, |d|, |f.pages| + got);
      && n <= |d| && (n > 0 ==> off + n <= |f.pages + BlankPages(got)| * PAGE_SIZE)
      && var g := StoreInto(f.len, f.pages + BlankPages(got), off, d[..n]);
         Inv(g) && Contents(g) == FlatWrite(Contents(f), off, d[..n])
  {
    var n := Writable(off, |d|, |f.pages| + got);
    WritableFits(off, |d|, |f.pages| + got);
    StoreIsFlatWrite(f, got, off, d[..n]);
  }

  /** A write that gets some pages but none for its offset still raises the length past the pages. */
  lemma WriteKeepsInvIff(f: File, off: nat, d: seq<Byte>, avail: nat)
    requires Inv(f)
    ensures Inv(WriteAt(f, off, d, avail).0)
            <==> OffsetBacked(f, off, |d|, avail) || avail == 0
  {
    if OffsetBacked(f, off, |d|, avail) {
      WriteIsFlatWrite(f, off, d, avail);
    }
  }

  /** One byte three pages into an empty file, with one frame left: a length without pages. */
  lemma ShortWriteExample()
    ensures Inv(File([], 0)) && !Inv(WriteAt(File([], 0), 3 * PAGE_SIZE, [1], 1).0)
  {
    assert Flat([]) == [];
    WriteKeepsInvIff(File([], 0), 3 * PAGE_SIZE, [1], 1);
  }

  /**
    How much a write stores: it fails exactly when it needs frames and there is none; otherwise it
    takes frames up to its need, and stores all that then fits, stopping short only at the last page.
  */
  lemma WriteStoresWhatFits(f: File, off: nat, d: seq<Byte>, avail: nat)
    ensures var (g, r), need := WriteAt(f, off, d, avail), DivCeil(off + |d|);
      && (r.Err? <==> need > |f.pages| && avail == 0)
      && (r.Ok? ==>
            && |g.pages| == (if need <= |f.pages| then |f.pages| else Min(need, |f.pages| + avail))
            && r.value <= |d|
            && (r.value > 0 ==> off + r.value <= |g.pages| * PAGE_SIZE)
            && (r.value < |d| ==> off + r.value >= |g.pages| * PAGE_SIZE))
  {
    var need := DivCeil(off + |d|) - |f.pages|;
    var pages := f.pages + BlankPages(Granted(need, avail));
    var n := Writable(off, |d|, |pages|);
    if n > 0 {
      StoreIsOverwrite(f.len, pages, off, d[..n]);
    }
  }

  /** With frames enough, the whole buffer is stored. */
  lemma WriteIsComplete(f: File, off: nat, d: seq<Byte>, avail: nat)
    requires Inv(f) && DivCeil(off + |d|) - |f.pages| <= avail
    ensures OffsetBacked(f, off, |d|, avail) && WriteAt(f, off, d, avail).1 == Ok(|d|)
  {
  }

  lemma {:induction false} ClearFromFlat(pages: seq<Page>, size: nat, i: nat)
    requires i < |pages| * PAGE_SIZE
    ensures Flat(ClearFrom(pages, size))[i] == if i < size then Flat(pages)[i] else 0
  {
    FlatAt(pages, i);
    FlatAt(ClearFrom(pages, size), i);
  }

  lemma TruncateIsFlat(f: File, size: nat, avail: nat)
    requires Inv(f) && Truncate(f, size, avail).1.Ok?
    ensures Inv(Truncate(f, size, avail).0)
    ensures Contents(Truncate(f, size, avail).0) == FlatTruncate(Contents(f), size)
  {
    var got := Granted(DivCeil(size) - |f.pages|, avail);
    var g := Truncate(f, size, avail).0;
    var kept := ClearFrom(f.pages, size);
    FlatConcat(kept, BlankPages(got));
    FlatBlank(got);
    forall i | 0 <= i < |g.pages| * PAGE_SIZE
      ensures Flat(g.pages)[i] == if i < size && i < f.len then Contents(f)[i] else 0
    {
      if i < |f.pages| * PAGE_SIZE {
        ClearFromFlat(f.pages, size, i);
      }
    }
  }

  /** A truncate that runs out of frames has already set a length its pages cannot back. */
  lemma TruncateKeepsInvIff(f: File, size: nat, avail: nat)
    requires Inv(f)
    ensures Inv(Truncate(f, size, avail).0) <==> DivCeil(size) - |f.pages| <= avail
  {
    if DivCeil(size) - |f.pages| <= avail {
      TruncateIsFlat(f, size, avail);
    }
  }

  /** One byte of an empty file without a frame: the call fails and the length stays set. */
  lemma FailedTruncateExample()
    ensures var (g, r) := Truncate(File([], 0), 1, 0); r == Err(ENOMEM) && g.len == 1 && !Inv(g)
  {
    TruncateKeepsInvIff(File([], 0), 1, 0);
  }

  /**
    A write of no bytes past the end raises the length and takes the frames for it, where write(2)
    would leave the file alone.
  */
  lemma EmptyWriteExtends(f: File, off: nat, avail: nat)
    requires Inv(f) && off > f.len && DivCeil(off) - |f.pages| <= avail
    ensures var (g, r) := WriteAt(f, off, [], avail);
      r == Ok(0) && Inv(g) && Contents(g) == Contents(f) + Zeros(off - f.len)
  {
    WriteIsComplete(f, off, [], avail);
    WriteIsFlatWrite(f, off, [], avail);
    var c := Contents(f) + Zeros(off - f.len);
    assert c[..off] + [] + c[off..] == c;
  }

  /** write(2) of no bytes changes nothing; here that is so only up to the end, or without frames. */
  lemma EmptyWriteIdleIff(f: File, off: nat, avail: nat)
    requires Inv(f)
    ensures WriteAt(f, off, [], avail).0 == f
            <==> off <= f.len || (DivCeil(off) > |f.pages| && avail == 0)
  {
    assert f.pages + BlankPages(0) == f.pages;
  }

  /** No bytes at offset one of an empty file, with a frame left: the length becomes one. */
  lemma EmptyWriteExample()
    ensures var (g, r) := WriteAt(File([], 0), 1, [], 1); r == Ok(0) && g.len == 1 && Contents(g) == [0]
  {
    EmptyWriteExtends(File([], 0), 1, 1);
    assert Flat([]) == [] && [] + Zeros(1) == [0];
  }

  /* ---------- Whole runs ---------- */

  datatype Op =
    | Read(off: nat, n: nat)
    | Write(off: nat, d: seq<Byte>, avail: nat)
    | Trunc(size: nat, avail: nat)

  datatype Answer = Data(bytes: seq<Byte>) | Wrote(n: nat) | Done | NoMemory

  function Step(f: File, op: Op): (File, Answer)
    requires f.len <= |f.pages| * PAGE_SIZE
  {
    match op
    case Read(off, n) => (f, Data(ReadAt(f, off, n)))
    case Write(off, d, avail) =>
      var (g, r) := WriteAt(f, off, d, avail);
      (g, if r.Ok? then Wrote(r.value) else NoMemory)
    case Trunc(size, avail) =>
      var (g, r) := Truncate(f, size, avail);
      (g, if r.Ok? then Done else NoMemory)
  }

  /** The frames are enough for truncates, and for writes at least up to their offset. */
  predicate Supplied(f: File, op: Op) {
    match op
    case Read(_, _) => true
    case Write(off, d, avail) => OffsetBacked(f, off, |d|, avail)
    case Trunc(size, avail) => DivCeil(size) - |f.pages| <= avail
  }

  /** What a flat file may answer: a write may be short or refused, never wrong. */
  ghost predicate FlatStep(c: seq<Byte>, op: Op, answer: Answer, c': seq<Byte>) {
    match op
    case Read(off, n) => answer == Data(FlatRead(c, off, n)) && c' == c
    case Write(off, d, _) =>
      || (answer == NoMemory && c' == c)
      || (answer.Wrote? && answer.n <= |d| && c' == FlatWrite(c, off, d[..answer.n]))
    case Trunc(size, _) => answer == Done && c' == FlatTruncate(c, size)
  }

  lemma StepIsFlat(f: File, op: Op)
    requires Inv(f) && Supplied(f, op)
    ensures var (g, answer) := Step(f, op); Inv(g) && FlatStep(Contents(f), op, answer, Contents(g))
  {
    match op
    case Read(off, n) => ReadIsFlatRead(f, off, n);
    case Write(off, d, avail) => WriteIsFlatWrite(f, off, d, avail);
    case Trunc(size, avail) => TruncateIsFlat(f, size, avail);
  }

  ghost predicate SuppliedRun(f: File, ops: seq<Op>)
    requires Inv(f)
    decreases |ops|
  {
    ops != [] ==> Supplied(f, ops[0]) && (StepIsFlat(f, ops[0]); SuppliedRun(Step(f, ops[0]).0, ops[1..]))
  }

  ghost function Run(f: File, ops: seq<Op>): (File, seq<Answer>)
    requires Inv(f) && SuppliedRun(f, ops)
    decreases |ops|
  {
    if ops == [] then (f, [])
    else
      StepIsFlat(f, ops[0]);
      var (g, answer) := Step(f, ops[0]);
      var (h, answers) := Run(g, ops[1..]);
      (h, [answer] + answers)
  }

  ghost predicate FlatRun(c: seq<Byte>, ops: seq<Op>, answers: seq<Answer>, c': seq<Byte>)
    decreases |ops|
  {
    if ops == [] then answers == [] && c' == c
    else
      && answers != []
      && exists mid :: FlatStep(c, ops[0], answers[0], mid) && FlatRun(mid, ops[1..], answers[1..], c')
  }

  /** Every run of reads, writes and truncates answers as the flat byte string would. */
  lemma {:induction false} RunIsFlat(f: File, ops: seq<Op>)
    requires Inv(f) && SuppliedRun(f, ops)
    ensures Inv(Run(f, ops).0)
    ensures FlatRun(Contents(f), ops, Run(f, ops).1, Contents(Run(f, ops).0))
    decreases |ops|
  {
    if ops != [] {
      StepIsFlat(f, ops[0]);
      var (g, answer) := Step(f, ops[0]);
      RunIsFlat(g, ops[1..]);
      var answers := Run(f, ops).1;
      assert answers[1..] == Run(g, ops[1..]).1;
      assert FlatStep(Contents(f), ops[0], answers[0], Contents(g));
    }
  }

  /* ---------- The file, updated in place ---------- */

  class RamFile {
    var pages: seq<Page>
    var len: nat

    function View(): File
      reads this
    {
      File(pages, len)
    }

    ghost predicate Valid()
      reads this
    {
      Inv(View())
    }

    constructor ()
      ensures Valid() && Contents(View()) == []
    {
      pages, len := [], 0;
    }

    method CopyOut(offset: nat, n: nat) returns (buffer: seq<Byte>)
      requires offset + n <= |pages| * PAGE_SIZE
      ensures buffer == Flat(pages)[offset..offset + n]
    {
      var off: nat, last: nat := offset, n;
      buffer := [];
      var k := Chunk(off, last);
      while k != 0
        invariant k == Chunk(off, last) && offset <= off && off + last == offset + n
        invariant buffer == Flat(pages)[offset..off]
        decreases last
      {
        FlatSlice(pages, off, k);
        buffer := buffer + pages[off / PAGE_SIZE][off % PAGE_SIZE..off % PAGE_SIZE + k];
        off, last := off + k, last - k;
        k := Chunk(off, last);
      }
    }

    method ReadInto(offset: nat, n: nat) returns (buffer: seq<Byte>)
      requires Valid()
      ensures buffer == ReadAt(View(), offset, n) == FlatRead(Contents(View()), offset, n)
    {
      ReadIsFlatRead(View(), offset, n);
      if offset >= len {
        return [];
      }
      ReadPagesIsSlice(pages, offset, Min(n, len - offset));
      buffer := CopyOut(offset, Min(n, len - offset));
    }

    /** Take up to `need` frames one at a time, from an allocator with `avail` left. */
    method Grow(need: nat, avail: nat) returns (got: nat)
      modifies this`pages
      ensures got == Min(need, avail) && pages == old(pages) + BlankPages(got)
    {
      got := 0;
      while got < need && got < avail
        invariant got <= need && got <= avail && pages == old(pages) + BlankPages(got)
      {
        assert BlankPages(got + 1) == BlankPages(got) + [ZeroPage()];
        pages := pages + [ZeroPage()];
        got := got + 1;
      }
    }

    method Store(offset: nat, d: seq<Byte>)
      requires d != [] ==> offset + |d| <= |pages| * PAGE_SIZE
      modifies this
      ensures View() == StoreInto(old(len), old(pages), offset, d)
    {
      if d != [] {
        var off: nat, rest := offset, d;
        var k := Chunk(off, |rest|);
        while k != 0
          invariant k == Chunk(off, |rest|) && off + |rest| == offset + |d| <= |pages| * PAGE_SIZE
          invariant WritePages(old(pages), offset, d) == WritePages(pages, off, rest)
          invariant len == old(len)
          decreases |rest|
        {
          var i := off / PAGE_SIZE;
          pages := pages[i := PutInPage(pages[i], off % PAGE_SIZE, rest[..k])];
          off, rest := off + k, rest[k..];
          k := Chunk(off, |rest|);
        }
      }
      if offset + |d| > len {
        len := offset + |d|;
      }
    }

    method WriteFrom(offset: nat, d: seq<Byte>, avail: nat) returns (r: Result<nat, Errno>)
      requires Valid()
      modifies this
      ensures (View(), r) == WriteAt(old(View()), offset, d, avail)
      ensures Valid() <==> OffsetBacked(old(View()), offset, |d|, avail) || avail == 0
      ensures r.Ok? && Valid() ==>
        r.value <= |d| && Contents(View()) == FlatWrite(Contents(old(View())), offset, d[..r.value])
    {
      WriteKeepsInvIff(View(), offset, d, avail);
      if OffsetBacked(View(), offset, |d|, avail) {
        WriteIsFlatWrite(View(), offset, d, avail);
      }
      var total := DivCeil(offset + |d|);
      var need := if total > |pages| then total - |pages| else 0;
      var got := Grow(need, avail);
      if need > 0 && got == 0 {
        assert pages == old(pages);
        return Err(ENOMEM);
      }
      var n := Writable(offset, |d|, |pages|);
      Store(offset, d[..n]);
      return Ok(n);
    }

    method ClearTail(size: nat)
      modifies this`pages
      ensures pages == ClearFrom(old(pages), size)
    {
      ghost var before := pages;
      var i := DivCeil(size);
      while i < |pages|
        invariant |pages| == |before|
        invariant forall j :: 0 <= j < |before| ==>
          pages[j] == if DivCeil(size) <= j < i then ZeroPage() else before[j]
      {
        pages := pages[i := ZeroPage()];
        i := i + 1;
      }
      if size % PAGE_SIZE != 0 {
        var at := size / PAGE_SIZE;
        if at < |pages| {
          pages := pages[at := PutInPage(pages[at], size % PAGE_SIZE, Zeros(PAGE_SIZE - size % PAGE_SIZE))];
        }
      }
    }

    method SetLength(size: nat, avail: nat) returns (r: Result<(), Errno>)
      requires Valid()
      modifies this
      ensures (View(), r) == Truncate(old(View()), size, avail)
      ensures Valid() <==> r.Ok?
      ensures r.Ok? ==> Contents(View()) == FlatTruncate(Contents(old(View())), size)
    {
      TruncateKeepsInvIff(View(), size, avail);
      if Truncate(View(), size, avail).1.Ok? {
        TruncateIsFlat(View(), size, avail);
      }
      len := size;
      var target := DivCeil(size);
      var had := |pages|;
      ClearTail(size);
      var need := if target > had then target - had else 0;
      var got := Grow(need, avail);
      return if need > got then Err(ENOMEM) else Ok(());
    }
  }
}
