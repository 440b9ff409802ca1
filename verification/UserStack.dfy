/**
  The initial user stack: `push_arr`, `push_num` and `init_task_stack`
  (kernel/src/tasks/task.rs, kernel/src/tasks/elf.rs), read back the way a C runtime does, by the
  process stack layout of section 3.4.1 of the System V AMD64 psABI.

  The stack is the byte sequence `up` from the stack pointer up to USER_STACK_TOP; pushing
  prepends to it, so an address `a` always names the suffix of length USER_STACK_TOP - a.
*/
module UserStack {
  import opened Wrappers
  import opened Bytes

  const TOP: nat := 0x8000_0000
  const SIZE: nat := 0x20000
  const WORD: nat := 8
  const WORD_LIMIT: nat := 0x1_0000_0000_0000_0000

  /* ---------- Words as bytes ---------- */

  function Word64(n: nat): seq<Byte> {
    Enc(n, WORD)
  }

  lemma WordRoundTrip(n: nat)
    requires n < WORD_LIMIT
    ensures Dec(Word64(n)) == n
  {
    assert Pow256(4) == 0x1_0000_0000;
    assert Pow256(8) == WORD_LIMIT;
    DecEnc(n, WORD);
  }

  /* ---------- Pushing ---------- */

  /** `alignup(len + 1, size_of::<usize>())`: at least one byte of padding, which stays zero. */
  function Slot(len: nat): (r: nat)
    ensures len < r <= len + WORD && r % WORD == 0
  {
    (len + 1 + WORD - 1) / WORD * WORD
  }

  function PushArr(up: seq<Byte>, buf: seq<Byte>): seq<Byte> {
    buf + Zeros(Slot(|buf|) - |buf|) + up
  }

  function PushNum(up: seq<Byte>, n: nat): seq<Byte> {
    Word64(n) + up
  }

  /** The stack pointer; a stack that overflows the address space is outside every statement. */
  function Sp(up: seq<Byte>): nat {
    if |up| <= TOP then TOP - |up| else 0
  }

  /** Push the strings last to first, so that the first ends up lowest. */
  function PushStrs(up: seq<Byte>, ss: seq<seq<Byte>>): seq<Byte> {
    if ss == [] then up else PushArr(PushStrs(up, ss[1..]), ss[0])
  }

  /** The addresses of those strings, first to last. */
  function Ptrs(up: seq<Byte>, ss: seq<seq<Byte>>): seq<nat> {
    if ss == [] then [] else [Sp(PushStrs(up, ss))] + Ptrs(up, ss[1..])
  }

  /** Push words so that the first ends up lowest. */
  function PushAll(up: seq<Byte>, xs: seq<nat>): seq<Byte> {
    if xs == [] then up else PushNum(PushAll(up, xs[1..]), xs[0])
  }

  /** Push pairs so that the first ends up lowest, each key below its value. */
  function PushPairs(up: seq<Byte>, ps: seq<(nat, nat)>): seq<Byte> {
    if ps == [] then up else PushNum(PushNum(PushPairs(up, ps[1..]), ps[0].1), ps[0].0)
  }

  /** Words closed by a NULL, and pairs closed by a zero key. */
  function NulList(up: seq<Byte>, xs: seq<nat>): seq<Byte> {
    PushAll(PushNum(up, 0), xs)
  }

  function NulPairs(up: seq<Byte>, ps: seq<(nat, nat)>): seq<Byte> {
    PushPairs(PushNum(up, 0), ps)
  }

  /** The words a reader meets: argc, argv, NULL, envp, NULL, the auxiliary pairs, a zero key. */
  function WithHeader(up: seq<Byte>, argv: seq<nat>, envp: seq<nat>, aux: seq<(nat, nat)>): seq<Byte> {
    PushNum(NulList(NulList(NulPairs(up, aux), envp), argv), |argv|)
  }

  /* Keys of the auxiliary vector (kernel/src/syscall/types/elf.rs). */
  const AT_PHDR: nat := 3
  const AT_PHENT: nat := 4
  const AT_PHNUM: nat := 5
  const AT_PAGESZ: nat := 6
  const AT_ENTRY: nat := 9
  const AT_UID: nat := 11
  const AT_EUID: nat := 12
  const AT_GID: nat := 13
  const AT_EGID: nat := 14
  const AT_PLATFORM: nat := 15
  const AT_SECURE: nat := 23
  const AT_RANDOM: nat := 25
  const AT_EXECFN: nat := 31

  datatype Exec = Exec(
    args: seq<seq<Byte>>,
    envs: seq<seq<Byte>>,
    path: seq<Byte>,
    platform: seq<Byte>,
    entry: nat,
    phCount: nat,
    phEntrySize: nat,
    phAddr: nat
  )

  /* The string part of the stack, in the order it is pushed. */

  function WithEnv(x: Exec): seq<Byte> {
    PushStrs([], x.envs)
  }

  function WithArgs(x: Exec): seq<Byte> {
    PushStrs(WithEnv(x), x.args)
  }

  function WithRandom(x: Exec): seq<Byte> {
    PushArr(WithArgs(x), Zeros(16))
  }

  function WithPlatform(x: Exec): seq<Byte> {
    PushArr(WithRandom(x), x.platform)
  }

  function Strings(x: Exec): seq<Byte> {
    PushArr(WithPlatform(x), x.path)
  }

  /** The auxiliary vector in the ascending key order of the `BTreeMap`. */
  function Auxv(x: Exec): seq<(nat, nat)> {
    [(3, x.phAddr), (4, x.phEntrySize), (5, x.phCount), (6, PAGE_SIZE), (9, x.entry),
     (11, 0), (12, 0), (13, 0), (14, 0), (15, Sp(WithPlatform(x))),
     (23, 0), (25, Sp(WithRandom(x))), (31, Sp(Strings(x)))]
  }

  /** Pushed in ascending order, the vector is met in descending order. */
  function Reversed(aux: seq<(nat, nat)>): seq<(nat, nat)> {
    if aux == [] then [] else Reversed(aux[1..]) + [aux[0]]
  }

  function Argv(x: Exec): seq<nat> {
    Ptrs(WithEnv(x), x.args)
  }

  function Envp(x: Exec): seq<nat> {
    Ptrs([], x.envs)
  }

  function Final(x: Exec): seq<Byte> {
    WithHeader(Strings(x), Argv(x), Envp(x), Reversed(Auxv(x)))
  }

  /** The program fits the 128 KiB that are mapped, and its ELF values are machine words. */
  predicate Fits(x: Exec) {
    && |Final(x)| <= SIZE
    && x.entry < WORD_LIMIT && x.phAddr < WORD_LIMIT && x.phCount < WORD_LIMIT && x.phEntrySize < WORD_LIMIT
  }

  /* ---------- Reading back ---------- */

  /** Memory from address `a` to the top of the stack. */
  function At(up: seq<Byte>, a: nat): seq<Byte>
    requires |up| <= TOP && Sp(up) <= a <= TOP
  {
    up[a - Sp(up)..]
  }

  function Head(up: seq<Byte>): nat
    requires |up| >= WORD
  {
    Dec(up[..WORD])
  }

  /** The words up to the first NULL. */
  function ReadList(up: seq<Byte>): seq<nat> {
    if |up| < WORD || Head(up) == 0 then [] else [Head(up)] + ReadList(up[WORD..])
  }

  /** What follows that NULL. */
  function SkipList(up: seq<Byte>): seq<Byte> {
    if |up| < WORD then up else if Head(up) == 0 then up[WORD..] else SkipList(up[WORD..])
  }

  /** Key and value pairs up to the first zero key. */
  function ReadAuxv(up: seq<Byte>): seq<(nat, nat)> {
    if |up| < 2 * WORD || Head(up) == 0 then []
    else [(Head(up), Head(up[WORD..]))] + ReadAuxv(up[2 * WORD..])
  }

  /** What a C runtime reads upward from the stack pointer. */
  ghost predicate ReadsAs(up: seq<Byte>, argv: seq<nat>, envp: seq<nat>, aux: seq<(nat, nat)>) {
    && |up| >= WORD && Head(up) == |argv|
    && var afterCount := up[WORD..];
       var afterArgs := SkipList(afterCount);
       && ReadList(afterCount) == argv
       && ReadList(afterArgs) == envp
       && ReadAuxv(SkipList(afterArgs)) == aux
  }

  /* ---------- Words ---------- */

  lemma Cut<T>(a: seq<T>, b: seq<T>)
    ensures (a + b)[..|a|] == a && (a + b)[|a|..] == b
  {
  }

  lemma PushedHead(up: seq<Byte>, n: nat)
    requires n < WORD_LIMIT
    ensures |PushNum(up, n)| == WORD + |up|
    ensures Head(PushNum(up, n)) == n && PushNum(up, n)[WORD..] == up
  {
    Cut(Word64(n), up);
    WordRoundTrip(n);
  }

  ghost predicate Pointers(ps: seq<nat>) {
    forall i :: 0 <= i < |ps| ==> 0 < ps[i] < WORD_LIMIT
  }

  ghost predicate Entries(ps: seq<(nat, nat)>) {
    forall i :: 0 <= i < |ps| ==> 0 < ps[i].0 < WORD_LIMIT && ps[i].1 < WORD_LIMIT
  }

  /** A NULL-terminated list reads back, and reading goes on right behind it. */
  lemma {:induction false} ListReadsBack(up: seq<Byte>, ps: seq<nat>)
    requires Pointers(ps)
    ensures ReadList(NulList(up, ps)) == ps && SkipList(NulList(up, ps)) == up
  {
    if ps == [] {
      PushedHead(up, 0);
    } else {
      ListReadsBack(up, ps[1..]);
      PushedHead(PushAll(PushNum(up, 0), ps[1..]), ps[0]);
    }
  }

  lemma PairHead(up: seq<Byte>, p: (nat, nat))
    requires 0 < p.0 < WORD_LIMIT && p.1 < WORD_LIMIT
    ensures var all := PushNum(PushNum(up, p.1), p.0);
      |all| == 2 * WORD + |up| && Head(all) == p.0 && Head(all[WORD..]) == p.1 && all[2 * WORD..] == up
  {
    PushedHead(up, p.1);
    PushedHead(PushNum(up, p.1), p.0);
    var all := PushNum(PushNum(up, p.1), p.0);
    DropTwice(all, WORD, WORD);
  }

  lemma DropTwice<T>(a: seq<T>, p: nat, q: nat)
    requires p + q <= |a|
    ensures a[p..][q..] == a[p + q..]
  {
  }

  lemma {:induction false} PairsReadBack(up: seq<Byte>, ps: seq<(nat, nat)>)
    requires Entries(ps)
    ensures ReadAuxv(NulPairs(up, ps)) == ps
  {
    if ps == [] {
      PushedHead(up, 0);
    } else {
      PairsReadBack(up, ps[1..]);
      PairHead(NulPairs(up, ps[1..]), ps[0]);
    }
  }

  /** Any header reads back, whatever bytes lie above it. */
  lemma {:induction false} HeaderReadsBack(up: seq<Byte>, argv: seq<nat>, envp: seq<nat>, aux: seq<(nat, nat)>)
    requires Pointers(argv) && Pointers(envp) && Entries(aux) && |argv| < WORD_LIMIT
    ensures ReadsAs(WithHeader(up, argv, envp, aux), argv, envp, aux)
  {
    var u1 := NulPairs(up, aux);
    var u2 := NulList(u1, envp);
    PairsReadBack(up, aux);
    ListReadsBack(u1, envp);
    ListReadsBack(u2, argv);
    PushedHead(NulList(u2, argv), |argv|);
  }

  lemma {:induction false} PushAllSuffix(up: seq<Byte>, xs: seq<nat>)
    ensures Suffix(up, PushAll(up, xs)) && |PushAll(up, xs)| == |up| + WORD * |xs|
  {
    if xs != [] {
      PushAllSuffix(up, xs[1..]);
      PushNumSuffix(PushAll(up, xs[1..]), xs[0]);
      SuffixTrans(up, PushAll(up, xs[1..]), PushAll(up, xs));
    }
  }

  lemma PushNumSuffix(up: seq<Byte>, n: nat)
    ensures Suffix(up, PushNum(up, n)) && |PushNum(up, n)| == WORD + |up|
  {
    PrefixSuffix(Word64(n), up);
  }

  lemma TwoPushesSuffix(up: seq<Byte>, a: nat, b: nat)
    ensures Suffix(up, PushNum(PushNum(up, a), b)) && |PushNum(PushNum(up, a), b)| == 2 * WORD + |up|
  {
    PushNumSuffix(up, a);
    PushNumSuffix(PushNum(up, a), b);
    SuffixTrans(up, PushNum(up, a), PushNum(PushNum(up, a), b));
  }

  lemma {:induction false} PushPairsSuffix(up: seq<Byte>, ps: seq<(nat, nat)>)
    ensures Suffix(up, PushPairs(up, ps)) && |PushPairs(up, ps)| == |up| + 2 * WORD * |ps|
  {
    if ps != [] {
      PushPairsSuffix(up, ps[1..]);
      TwoPushesSuffix(PushPairs(up, ps[1..]), ps[0].1, ps[0].0);
      SuffixTrans(up, PushPairs(up, ps[1..]), PushPairs(up, ps));
    }
  }

  lemma NulListSuffix(up: seq<Byte>, xs: seq<nat>)
    ensures Suffix(up, NulList(up, xs)) && |NulList(up, xs)| == |up| + WORD * (1 + |xs|)
  {
    PushNumSuffix(up, 0);
    PushAllSuffix(PushNum(up, 0), xs);
    SuffixTrans(up, PushNum(up, 0), NulList(up, xs));
  }

  lemma NulPairsSuffix(up: seq<Byte>, ps: seq<(nat, nat)>)
    ensures Suffix(up, NulPairs(up, ps)) && |NulPairs(up, ps)| == |up| + WORD * (1 + 2 * |ps|)
  {
    PushNumSuffix(up, 0);
    PushPairsSuffix(PushNum(up, 0), ps);
    SuffixTrans(up, PushNum(up, 0), NulPairs(up, ps));
  }

  lemma HeaderSuffix(up: seq<Byte>, argv: seq<nat>, envp: seq<nat>, aux: seq<(nat, nat)>)
    ensures Suffix(up, WithHeader(up, argv, envp, aux))
    ensures |WithHeader(up, argv, envp, aux)| == |up| + WORD * (4 + |argv| + |envp| + 2 * |aux|)
  {
    var u1 := NulPairs(up, aux);
    var u2 := NulList(u1, envp);
    var u3 := NulList(u2, argv);
    NulPairsSuffix(up, aux);
    NulListSuffix(u1, envp);
    NulListSuffix(u2, argv);
    PushNumSuffix(u3, |argv|);
    SuffixTrans(up, u1, u2);
    SuffixTrans(up, u2, u3);
    SuffixTrans(up, u3, PushNum(u3, |argv|));
  }

  lemma {:induction false} ReversedElems(aux: seq<(nat, nat)>)
    ensures multiset(Reversed(aux)) == multiset(aux) && |Reversed(aux)| == |aux|
  {
    if aux != [] {
      ReversedElems(aux[1..]);
      assert aux == [aux[0]] + aux[1..];
    }
  }

  /* ---------- Strings ---------- */

  ghost predicate Suffix(a: seq<Byte>, b: seq<Byte>) {
    |a| <= |b| && b[|b| - |a|..] == a
  }

  lemma SuffixAt(a: seq<Byte>, up: seq<Byte>)
    requires Suffix(a, up) && |up| <= TOP
    ensures Sp(up) <= Sp(a) <= TOP && At(up, Sp(a)) == a
  {
  }

  lemma SuffixTrans(a: seq<Byte>, b: seq<Byte>, c: seq<Byte>)
    requires Suffix(a, b) && Suffix(b, c)
    ensures Suffix(a, c)
  {
    assert c[|c| - |b|..][|b| - |a|..] == c[|c| - |a|..];
  }

  lemma PrefixSuffix(pre: seq<Byte>, a: seq<Byte>)
    ensures Suffix(a, pre + a)
  {
  }

  lemma PushArrSuffix(up: seq<Byte>, buf: seq<Byte>)
    ensures Suffix(up, PushArr(up, buf)) && |up| < |PushArr(up, buf)|
  {
    PrefixSuffix(buf + Zeros(Slot(|buf|) - |buf|), up);
  }

  lemma {:induction false} PushStrsSuffix(up: seq<Byte>, ss: seq<seq<Byte>>, k: nat)
    requires k <= |ss|
    ensures Suffix(PushStrs(up, ss[k..]), PushStrs(up, ss))
    ensures Suffix(up, PushStrs(up, ss))
  {
    if k == 0 {
      assert ss[0..] == ss;
    } else {
      PushStrsSuffix(up, ss[1..], k - 1);
      assert ss[1..][k - 1..] == ss[k..];
      PushArrSuffix(PushStrs(up, ss[1..]), ss[0]);
      SuffixTrans(PushStrs(up, ss[k..]), PushStrs(up, ss[1..]), PushStrs(up, ss));
    }
    if ss != [] {
      PushStrsSuffix(up, ss[1..], 0);
      PushArrSuffix(PushStrs(up, ss[1..]), ss[0]);
      SuffixTrans(up, PushStrs(up, ss[1..]), PushStrs(up, ss));
    }
  }

  lemma {:induction false} PtrsAt(up: seq<Byte>, ss: seq<seq<Byte>>, i: nat)
    requires i < |ss|
    ensures |Ptrs(up, ss)| == |ss| && Ptrs(up, ss)[i] == Sp(PushStrs(up, ss[i..]))
  {
    PtrsLength(up, ss);
    if i == 0 {
      assert ss[0..] == ss;
    } else {
      PtrsAt(up, ss[1..], i - 1);
      assert ss[1..][i - 1..] == ss[i..];
    }
  }

  lemma {:induction false} PtrsLength(up: seq<Byte>, ss: seq<seq<Byte>>)
    ensures |Ptrs(up, ss)| == |ss|
  {
    if ss != [] {
      PtrsLength(up, ss[1..]);
    }
  }

  /** A pushed string is found at its address in any later stack. */
  lemma {:induction false} PushedString(base: seq<Byte>, buf: seq<Byte>, up: seq<Byte>)
    requires Suffix(PushArr(base, buf), up) && |up| <= TOP
    ensures Sp(up) <= Sp(PushArr(base, buf)) <= TOP
    ensures CString(At(up, Sp(PushArr(base, buf)))) == CString(buf)
    ensures At(up, Sp(PushArr(base, buf)))[..|buf|] == buf
  {
    SuffixAt(PushArr(base, buf), up);
    CStringStops(buf, Slot(|buf|) - |buf|, base);
  }

  /* ---------- The header ---------- */

  lemma StringsStack(x: Exec)
    ensures Suffix(WithEnv(x), Strings(x)) && Suffix(WithArgs(x), Strings(x))
    ensures Suffix(WithRandom(x), Strings(x)) && Suffix(WithPlatform(x), Strings(x))
    ensures Suffix(Strings(x), Final(x))
  {
    PushArrSuffix(WithPlatform(x), x.path);
    PushArrSuffix(WithRandom(x), x.platform);
    PushArrSuffix(WithArgs(x), Zeros(16));
    SuffixTrans(WithRandom(x), WithPlatform(x), Strings(x));
    SuffixTrans(WithArgs(x), WithRandom(x), Strings(x));
    PushStrsSuffix(WithEnv(x), x.args, 0);
    SuffixTrans(WithEnv(x), WithArgs(x), Strings(x));
    HeaderSuffix(Strings(x), Argv(x), Envp(x), Reversed(Auxv(x)));
  }

  /** Every pointer is inside the mapped stack, so none is NULL and all are machine words. */
  lemma PtrsInside(x: Exec, up: seq<Byte>, ss: seq<seq<Byte>>, i: nat)
    requires Fits(x) && Suffix(PushStrs(up, ss), Final(x)) && i < |ss|
    ensures |Ptrs(up, ss)| == |ss| && TOP - SIZE <= Ptrs(up, ss)[i] <= TOP
  {
    PtrsAt(up, ss, i);
    PushStrsSuffix(up, ss, i);
  }

  /* ---------- What the program sees ---------- */

  lemma {:induction false} ReversedEntries(aux: seq<(nat, nat)>)
    requires Entries(aux)
    ensures Entries(Reversed(aux)) && |Reversed(aux)| == |aux|
  {
    if aux != [] {
      ReversedEntries(aux[1..]);
    }
  }

  lemma AuxvIsEntries(x: Exec)
    requires |Strings(x)| <= SIZE
    requires x.entry < WORD_LIMIT && x.phAddr < WORD_LIMIT && x.phCount < WORD_LIMIT && x.phEntrySize < WORD_LIMIT
    ensures Entries(Auxv(x))
  {
    assert Sp(Strings(x)) <= TOP && Sp(WithPlatform(x)) <= TOP && Sp(WithRandom(x)) <= TOP;
  }

  lemma PtrsArePointers(x: Exec, up: seq<Byte>, ss: seq<seq<Byte>>)
    requires Fits(x) && Suffix(PushStrs(up, ss), Final(x))
    ensures Pointers(Ptrs(up, ss))
  {
    PtrsLength(up, ss);
    forall i | 0 <= i < |ss| ensures 0 < Ptrs(up, ss)[i] < WORD_LIMIT {
      PtrsInside(x, up, ss, i);
    }
  }

  lemma HeaderIsSound(x: Exec)
    requires Fits(x)
    ensures Pointers(Argv(x)) && Pointers(Envp(x)) && Entries(Reversed(Auxv(x)))
    ensures |Argv(x)| == |x.args| < WORD_LIMIT && |Envp(x)| == |x.envs|
  {
    StringsStack(x);
    SuffixTrans(WithArgs(x), Strings(x), Final(x));
    SuffixTrans(WithEnv(x), Strings(x), Final(x));
    PtrsArePointers(x, WithEnv(x), x.args);
    PtrsArePointers(x, [], x.envs);
    AuxvIsEntries(x);
    ReversedEntries(Auxv(x));
    PtrsLength(WithEnv(x), x.args);
    PtrsLength([], x.envs);
    ArgsAreFew(WithEnv(x), x.args);
  }

  lemma {:induction false} ArgsAreFew(up: seq<Byte>, ss: seq<seq<Byte>>)
    ensures |ss| <= |PushStrs(up, ss)|
  {
    if ss != [] {
      ArgsAreFew(up, ss[1..]);
    }
  }

  /** Reading words upward from the stack pointer gives argc, argv, envp and the auxiliary vector. */
  lemma {:induction false} StackReadsBack(x: Exec)
    requires Fits(x)
    ensures |Argv(x)| == |x.args| && |Envp(x)| == |x.envs|
    ensures ReadsAs(Final(x), Argv(x), Envp(x), Reversed(Auxv(x)))
  {
    HeaderIsSound(x);
    HeaderReadsBack(Strings(x), Argv(x), Envp(x), Reversed(Auxv(x)));
  }

  /* ---------- Alignment ---------- */

  lemma {:induction false} PushAllLength(up: seq<Byte>, xs: seq<nat>)
    ensures |PushAll(up, xs)| == |up| + WORD * |xs|
  {
    if xs != [] {
      PushAllLength(up, xs[1..]);
    }
  }

  lemma {:induction false} PushPairsLength(up: seq<Byte>, ps: seq<(nat, nat)>)
    ensures |PushPairs(up, ps)| == |up| + 2 * WORD * |ps|
  {
    if ps != [] {
      PushPairsLength(up, ps[1..]);
    }
  }

  /** A string of `len` bytes and its NUL take this many words. */
  lemma SlotWords(len: nat)
    ensures Slot(len) == WORD * (len / WORD + 1)
  {
  }

  /** The whole words that the strings fill. */
  function FullWords(ss: seq<seq<Byte>>): nat {
    if ss == [] then 0 else |ss[0]| / WORD + FullWords(ss[1..])
  }

  lemma {:induction false} PushStrsLength(up: seq<Byte>, ss: seq<seq<Byte>>)
    ensures |PushStrs(up, ss)| == |up| + WORD * (FullWords(ss) + |ss|)
  {
    if ss != [] {
      PushStrsLength(up, ss[1..]);
      SlotWords(|ss[0]|);
    }
  }

  lemma {:induction false} ReversedLength(aux: seq<(nat, nat)>)
    ensures |Reversed(aux)| == |aux|
  {
    if aux != [] {
      ReversedLength(aux[1..]);
    }
  }

  lemma {:induction false} HeaderLength(up: seq<Byte>, argv: seq<nat>, envp: seq<nat>, aux: seq<(nat, nat)>)
    ensures |WithHeader(up, argv, envp, aux)| == |up| + WORD * (|argv| + |envp| + 2 * |aux| + 4)
  {
    PushPairsLength(PushNum(up, 0), aux);
    NulListLength(NulPairs(up, aux), envp);
    NulListLength(NulList(NulPairs(up, aux), envp), argv);
  }

  lemma {:induction false} NulListLength(up: seq<Byte>, xs: seq<nat>)
    ensures |NulList(up, xs)| == |up| + WORD * (|xs| + 1)
  {
    PushAllLength(PushNum(up, 0), xs);
  }

  /** The whole words filled by everything `exec` is given. */
  function GivenWords(x: Exec): nat {
    FullWords(x.args) + FullWords(x.envs) + |x.path| / WORD + |x.platform| / WORD
  }

  lemma {:induction false} StringsLength(x: Exec)
    ensures |Strings(x)| == WORD * (GivenWords(x) + |x.args| + |x.envs| + 5)
  {
    PushStrsLength([], x.envs);
    PushStrsLength(WithEnv(x), x.args);
    SlotWords(16);
    SlotWords(|x.platform|);
    SlotWords(|x.path|);
  }

  lemma {:induction false} FinalLength(x: Exec)
    ensures |Final(x)| == |Strings(x)| + WORD * (|x.args| + |x.envs| + 30)
  {
    PtrsLength(WithEnv(x), x.args);
    PtrsLength([], x.envs);
    var aux := Auxv(x);
    assert |aux| == 13;
    ReversedLength(aux);
    HeaderLength(Strings(x), Argv(x), Envp(x), Reversed(aux));
  }

  /**
    The psABI wants the stack pointer on a 16-byte boundary; nothing here pads for it.  It holds
    exactly when the arguments, the environment, the path and the platform name fill an odd number
    of whole words, each counted by itself: the pointer of an argument makes up for the NUL word.
  */
  lemma StackAlignedIff(x: Exec)
    requires Fits(x)
    ensures Sp(Final(x)) % 16 == 0 <==> GivenWords(x) % 2 == 1
  {
    FinalLength(x);
    StringsLength(x);
    Parity(|Final(x)|, GivenWords(x), |x.args| + |x.envs|);
  }

  lemma Parity(len: nat, words: nat, pointers: nat)
    requires len == WORD * (words + 2 * pointers + 35) && len <= TOP
    ensures (TOP - len) % 16 == 0 <==> words % 2 == 1
  {
    var n := words + 2 * pointers + 35;
    assert TOP - len == 8 * (0x1000_0000 - n);
  }

  /** With no argument and no environment, a one-byte path and platform name: off the boundary. */
  lemma MisalignedExample(x: Exec)
    requires x.args == [] && x.envs == [] && |x.path| == 1 && |x.platform| == 1 && Fits(x)
    ensures Sp(Final(x)) % 16 != 0
  {
    StackAlignedIff(x);
  }

  lemma StringReadsBack(x: Exec, base: seq<Byte>, ss: seq<seq<Byte>>, i: nat)
    requires Fits(x) && Suffix(PushStrs(base, ss), Final(x)) && i < |ss|
    ensures |Ptrs(base, ss)| == |ss| && Sp(Final(x)) <= Ptrs(base, ss)[i] <= TOP
    ensures CString(At(Final(x), Ptrs(base, ss)[i])) == CString(ss[i])
  {
    PtrsAt(base, ss, i);
    PushStrsSuffix(base, ss, i);
    SuffixTrans(PushStrs(base, ss[i..]), PushStrs(base, ss), Final(x));
    assert ss[i..][0] == ss[i] && ss[i..][1..] == ss[i + 1..];
    PushedString(PushStrs(base, ss[i + 1..]), ss[i], Final(x));
  }

  /**
    The argument and environment pointers lead to the strings in order, each up to its first NUL,
    and the auxiliary pointers to the platform name, the path and sixteen zero bytes.
  */
  lemma StringsReadBack(x: Exec, i: nat)
    requires Fits(x)
    ensures var up := Final(x);
      && (i < |x.args| ==>
            var a := Argv(x);
            |a| == |x.args| && Sp(up) <= a[i] <= TOP && CString(At(up, a[i])) == CString(x.args[i]))
      && (i < |x.envs| ==>
            var e := Envp(x);
            |e| == |x.envs| && Sp(up) <= e[i] <= TOP && CString(At(up, e[i])) == CString(x.envs[i]))
  {
    StringsStack(x);
    SuffixTrans(WithArgs(x), Strings(x), Final(x));
    SuffixTrans(WithEnv(x), Strings(x), Final(x));
    if i < |x.args| {
      StringReadsBack(x, WithEnv(x), x.args, i);
    }
    if i < |x.envs| {
      StringReadsBack(x, [], x.envs, i);
    }
  }

  lemma AuxStringsReadBack(x: Exec)
    requires Fits(x)
    ensures var up := Final(x);
      && Sp(up) <= Sp(Strings(x)) <= TOP && CString(At(up, Sp(Strings(x)))) == CString(x.path)
      && Sp(up) <= Sp(WithPlatform(x)) <= TOP && CString(At(up, Sp(WithPlatform(x)))) == CString(x.platform)
      && Sp(up) <= Sp(WithRandom(x)) <= TOP
      && |At(up, Sp(WithRandom(x)))| >= 16 && At(up, Sp(WithRandom(x)))[..16] == Zeros(16)
  {
    StringsStack(x);
    SuffixTrans(WithPlatform(x), Strings(x), Final(x));
    SuffixTrans(WithRandom(x), Strings(x), Final(x));
    PushedString(WithPlatform(x), x.path, Final(x));
    PushedString(WithRandom(x), x.platform, Final(x));
    PushedString(WithArgs(x), Zeros(16), Final(x));
  }

  /* ---------- The pushes themselves ---------- */

  const BASE: nat := TOP - SIZE

  function Rev(xs: seq<nat>): seq<nat> {
    if xs == [] then [] else Rev(xs[1..]) + [xs[0]]
  }

  /* ---------- What the runtime finds, key by key ---------- */

  /** The auxiliary pairs a runtime meets behind the two pointer lists. */
  function AuxOf(up: seq<Byte>): seq<(nat, nat)>
    requires |up| >= WORD
  {
    ReadAuxv(SkipList(SkipList(up[WORD..])))
  }

  /** `getauxval`: the value of the first pair with this key. */
  function AuxVal(aux: seq<(nat, nat)>, key: nat): Option<nat> {
    if aux == [] then None else if aux[0].0 == key then Some(aux[0].1) else AuxVal(aux[1..], key)
  }

  ghost predicate OncePerKey(aux: seq<(nat, nat)>) {
    forall i, j :: 0 <= i < j < |aux| ==> aux[i].0 != aux[j].0
  }

  lemma {:induction false} ReversedAt(aux: seq<(nat, nat)>, k: nat)
    requires k < |aux|
    ensures |Reversed(aux)| == |aux| && Reversed(aux)[|aux| - 1 - k] == aux[k]
  {
    ReversedLength(aux[1..]);
    if k > 0 {
      ReversedAt(aux[1..], k - 1);
    }
  }

  lemma {:induction false} AuxValAt(aux: seq<(nat, nat)>, k: nat)
    requires OncePerKey(aux) && k < |aux|
    ensures AuxVal(aux, aux[k].0) == Some(aux[k].1)
  {
    if k > 0 {
      AuxValAt(aux[1..], k - 1);
    }
  }

  lemma {:induction false} ReversedOnce(aux: seq<(nat, nat)>)
    requires OncePerKey(aux)
    ensures OncePerKey(Reversed(aux))
  {
    var n, rev := |aux|, Reversed(aux);
    ReversedLength(aux);
    forall i, j | 0 <= i < j < |rev| ensures rev[i].0 != rev[j].0 {
      ReversedAt(aux, n - 1 - i);
      ReversedAt(aux, n - 1 - j);
    }
  }

  lemma {:induction false} AuxValReversed(aux: seq<(nat, nat)>, k: nat)
    requires OncePerKey(aux) && k < |aux|
    ensures AuxVal(Reversed(aux), aux[k].0) == Some(aux[k].1)
  {
    ReversedOnce(aux);
    ReversedAt(aux, k);
    AuxValAt(Reversed(aux), |aux| - 1 - k);
  }

  lemma AuxOfFinal(x: Exec)
    requires Fits(x)
    ensures |Final(x)| >= WORD && AuxOf(Final(x)) == Reversed(Auxv(x))
    ensures |AuxOf(Final(x))| == 13 && OncePerKey(AuxOf(Final(x)))
  {
    hide *;
    AuxvOnce(x);
    StackReadsBack(x);
    ReadsAsAux(Final(x), Argv(x), Envp(x), Reversed(Auxv(x)));
    ReversedLength(Auxv(x));
    ReversedOnce(Auxv(x));
  }

  lemma AuxvOnce(x: Exec)
    ensures |Auxv(x)| == 13 && OncePerKey(Auxv(x))
  {
  }

  lemma ReadsAsAux(up: seq<Byte>, argv: seq<nat>, envp: seq<nat>, aux: seq<(nat, nat)>)
    requires ReadsAs(up, argv, envp, aux)
    ensures |up| >= WORD && AuxOf(up) == aux
  {
  }

  lemma AuxEntry(x: Exec, k: nat)
    requires Fits(x) && k < 13
    ensures |Auxv(x)| == 13 && |Final(x)| >= WORD
    ensures AuxVal(AuxOf(Final(x)), Auxv(x)[k].0) == Some(Auxv(x)[k].1)
  {
    hide *;
    AuxvOnce(x);
    AuxOfFinal(x);
    AuxValReversed(Auxv(x), k);
  }

  /**
    The thirteen keys a runtime finds, each once: where the program headers are, how large and how
    many, the page size, the entry point, and zero for the four ids and the secure flag.
  */
  lemma AuxNumbersReadBack(x: Exec)
    requires Fits(x)
    ensures |Final(x)| >= WORD && |AuxOf(Final(x))| == 13 && OncePerKey(AuxOf(Final(x)))
    ensures var aux := AuxOf(Final(x));
      && AuxVal(aux, AT_PHDR) == Some(x.phAddr) && AuxVal(aux, AT_PHENT) == Some(x.phEntrySize)
      && AuxVal(aux, AT_PHNUM) == Some(x.phCount) && AuxVal(aux, AT_PAGESZ) == Some(PAGE_SIZE)
      && AuxVal(aux, AT_ENTRY) == Some(x.entry)
      && AuxVal(aux, AT_UID) == AuxVal(aux, AT_EUID) == Some(0)
      && AuxVal(aux, AT_GID) == AuxVal(aux, AT_EGID) == Some(0)
      && AuxVal(aux, AT_SECURE) == Some(0)
  {
    hide Fits, Final, AuxOf, AuxVal, OncePerKey;
    AuxOfFinal(x);
    AuxEntry(x, 0);
    AuxEntry(x, 1);
    AuxEntry(x, 2);
    AuxEntry(x, 3);
    AuxEntry(x, 4);
    AuxEntry(x, 5);
    AuxEntry(x, 6);
    AuxEntry(x, 7);
    AuxEntry(x, 8);
    AuxEntry(x, 10);
  }

  /** An address inside the stack that has just been built. */
  predicate OnStack(x: Exec, a: nat) {
    |Final(x)| <= TOP && Sp(Final(x)) <= a <= TOP
  }

  /** The three addresses lead to the platform name, sixteen random bytes (all zero) and the path. */
  lemma AuxPointersReadBack(x: Exec)
    requires Fits(x)
    ensures |Final(x)| >= WORD
    ensures var aux, up := AuxOf(Final(x)), Final(x);
      && (match AuxVal(aux, AT_PLATFORM)
          case Some(a) => OnStack(x, a) && CString(At(up, a)) == CString(x.platform)
          case None => false)
      && (match AuxVal(aux, AT_RANDOM)
          case Some(a) => OnStack(x, a) && |At(up, a)| >= 16 && At(up, a)[..16] == Zeros(16)
          case None => false)
      && (match AuxVal(aux, AT_EXECFN)
          case Some(a) => OnStack(x, a) && CString(At(up, a)) == CString(x.path)
          case None => false)
  {
    hide Final, AuxOf, AuxVal, Sp, At, CString, Strings, WithPlatform, WithRandom;
    AuxEntry(x, 9);
    AuxEntry(x, 11);
    AuxEntry(x, 12);
    AuxStringsReadBack(x);
  }

  /** The argument and environment pointers a runtime reads lead to the strings, in order. */
  lemma ListsReadBack(x: Exec, i: nat)
    requires Fits(x)
    ensures |Final(x)| >= WORD && Head(Final(x)) == |x.args|
    ensures var up := Final(x); var args, envs := ReadList(up[WORD..]), ReadList(SkipList(up[WORD..]));
      && |args| == |x.args| && |envs| == |x.envs|
      && (i < |args| ==> OnStack(x, args[i]) && CString(At(up, args[i])) == CString(x.args[i]))
      && (i < |envs| ==> OnStack(x, envs[i]) && CString(At(up, envs[i])) == CString(x.envs[i]))
  {
    hide Final, Argv, Envp, Auxv, Reversed, Sp, At, CString, ReadList, SkipList, ReadAuxv, Head;
    StackReadsBack(x);
    StringsReadBack(x, i);
  }

  lemma {:induction false} RevSnoc(xs: seq<nat>, y: nat)
    ensures Rev(xs + [y]) == [y] + Rev(xs)
  {
    if xs == [] {
      assert xs + [y] == [y];
    } else {
      assert (xs + [y])[1..] == xs[1..] + [y];
      RevSnoc(xs[1..], y);
    }
  }

  lemma {:induction false} RevRev(xs: seq<nat>)
    ensures Rev(Rev(xs)) == xs && |Rev(xs)| == |xs|
  {
    if xs != [] {
      RevRev(xs[1..]);
      RevSnoc(Rev(xs[1..]), xs[0]);
    }
  }

  lemma {:induction false} ReversedSnoc(aux: seq<(nat, nat)>, p: (nat, nat))
    ensures Reversed(aux + [p]) == [p] + Reversed(aux)
  {
    if aux == [] {
      assert aux + [p] == [p];
    } else {
      assert (aux + [p])[1..] == aux[1..] + [p];
      ReversedSnoc(aux[1..], p);
    }
  }

  /** Pushing in source order builds the reversed list from its end. */
  lemma NextWord(up: seq<Byte>, xs: seq<nat>, i: nat)
    requires i < |xs|
    ensures PushAll(up, Rev(xs[..i + 1])) == PushNum(PushAll(up, Rev(xs[..i])), xs[i])
  {
    assert xs[..i + 1] == xs[..i] + [xs[i]];
    RevSnoc(xs[..i], xs[i]);
    assert ([xs[i]] + Rev(xs[..i]))[1..] == Rev(xs[..i]);
  }

  lemma NextPair(up: seq<Byte>, aux: seq<(nat, nat)>, i: nat)
    requires i < |aux|
    ensures PushPairs(up, Reversed(aux[..i + 1]))
            == PushNum(PushNum(PushPairs(up, Reversed(aux[..i])), aux[i].1), aux[i].0)
  {
    assert aux[..i + 1] == aux[..i] + [aux[i]];
    ReversedSnoc(aux[..i], aux[i]);
    assert ([aux[i]] + Reversed(aux[..i]))[1..] == Reversed(aux[..i]);
  }

  /** Writing `buf` below the used part of a zeroed memory prepends it, with zero padding. */
  lemma SpliceBelow(mem: seq<Byte>, at: nat, buf: seq<Byte>, top: nat)
    requires at + |buf| <= top <= |mem| && forall i :: 0 <= i < top ==> mem[i] == 0
    ensures var out := mem[..at] + buf + mem[at + |buf|..];
      && |out| == |mem| && out[at..] == buf + Zeros(top - at - |buf|) + mem[top..]
      && forall i :: 0 <= i < at ==> out[i] == 0
  {
    assert mem[at + |buf|..] == Zeros(top - at - |buf|) + mem[top..];
  }

  class TaskStack {
    var mem: seq<Byte>
    var sp: nat

    /** Nothing below the stack pointer has been written: the frames came zeroed. */
    ghost predicate Valid()
      reads this
    {
      |mem| == SIZE && BASE <= sp <= TOP && forall i :: 0 <= i < sp - BASE ==> mem[i] == 0
    }

    ghost function Up(): (up: seq<Byte>)
      requires Valid()
      reads this
      ensures Sp(up) == sp
    {
      mem[sp - BASE..]
    }

    constructor ()
      ensures Valid() && Up() == []
    {
      mem, sp := seq(SIZE, _ => 0), TOP;
    }

    method PushBytes(buffer: seq<Byte>) returns (addr: nat)
      requires Valid() && |PushArr(Up(), buffer)| <= SIZE
      modifies this
      ensures Valid() && Up() == PushArr(old(Up()), buffer) && addr == Sp(Up())
    {
      var to := sp - Slot(|buffer|);
      var at := to - BASE;
      SpliceBelow(mem, at, buffer, sp - BASE);
      mem := mem[..at] + buffer + mem[at + |buffer|..];
      sp := to;
      return to;
    }

    method PushWord(n: nat)
      requires Valid() && |Up()| + WORD <= SIZE
      modifies this
      ensures Valid() && Up() == PushNum(old(Up()), n)
    {
      var to := sp - WORD;
      var at := to - BASE;
      var word := Word64(n);
      SpliceBelow(mem, at, word, sp - BASE);
      assert word + Zeros(0) == word;
      mem := mem[..at] + word + mem[at + |word|..];
      sp := to;
    }

    /** Push the strings in reverse; the addresses are collected in pushing order. */
    method PushStrings(ss: seq<seq<Byte>>) returns (ptrs: seq<nat>)
      requires Valid() && |PushStrs(Up(), ss)| <= SIZE
      modifies this
      ensures Valid() && Up() == PushStrs(old(Up()), ss) && ptrs == Rev(Ptrs(old(Up()), ss))
    {
      ghost var base := Up();
      ptrs := [];
      assert ss[|ss|..] == [];
      for i := |ss| downto 0
        invariant Valid() && Up() == PushStrs(base, ss[i..]) && ptrs == Rev(Ptrs(base, ss[i..]))
      {
        assert ss[i..][0] == ss[i] && ss[i..][1..] == ss[i + 1..];
        PushStrsSuffix(base, ss, i);
        var p := PushBytes(ss[i]);
        assert Ptrs(base, ss[i..]) == [p] + Ptrs(base, ss[i + 1..]);
        assert ([p] + Ptrs(base, ss[i + 1..]))[1..] == Ptrs(base, ss[i + 1..]);
        ptrs := ptrs + [p];
      }
      assert ss[0..] == ss;
    }

    method PushWords(xs: seq<nat>)
      requires Valid() && |Up()| + |xs| * WORD <= SIZE
      modifies this
      ensures Valid() && Up() == PushAll(old(Up()), Rev(xs)) && |Up()| == |old(Up())| + WORD * |xs|
    {
      ghost var base := Up();
      for i := 0 to |xs|
        invariant Valid() && Up() == PushAll(base, Rev(xs[..i])) && |Up()| == i * WORD + |base|
      {
        NextWord(base, xs, i);
        PushNumSuffix(Up(), xs[i]);
        PushWord(xs[i]);
      }
      assert xs[..|xs|] == xs;
    }

    method PushAuxv(aux: seq<(nat, nat)>)
      requires Valid() && |Up()| + 2 * |aux| * WORD <= SIZE
      modifies this
      ensures Valid() && Up() == PushPairs(old(Up()), Reversed(aux)) && |Up()| == |old(Up())| + 2 * WORD * |aux|
    {
      ghost var base := Up();
      for i := 0 to |aux|
        invariant Valid() && Up() == PushPairs(base, Reversed(aux[..i])) && |Up()| == 2 * i * WORD + |base|
      {
        NextPair(base, aux, i);
        PushNumSuffix(Up(), aux[i].1);
        PushNumSuffix(PushNum(Up(), aux[i].1), aux[i].0);
        PushWord(aux[i].1);
        PushWord(aux[i].0);
      }
      assert aux[..|aux|] == aux;
    }

    method PushHeader(argPtrs: seq<nat>, envPtrs: seq<nat>, aux: seq<(nat, nat)>)
      requires Valid() && (4 + |argPtrs| + |envPtrs| + 2 * |aux|) * WORD + |Up()| <= SIZE
      modifies this
      ensures Valid() && Up() == WithHeader(old(Up()), Rev(argPtrs), Rev(envPtrs), Reversed(aux))
    {
      RevRev(argPtrs);
      PushNumSuffix(Up(), 0);
      PushWord(0);
      PushAuxv(aux);
      PushNumSuffix(Up(), 0);
      PushWord(0);
      PushWords(envPtrs);
      PushNumSuffix(Up(), 0);
      PushWord(0);
      PushWords(argPtrs);
      PushWord(|argPtrs|);
    }

    /** `init_task_stack` from the mapped, zeroed stack on. */
    method InitTaskStack(x: Exec)
      requires Valid() && Up() == [] && |Final(x)| <= SIZE
      modifies this
      ensures Valid() && Up() == Final(x) && sp == Sp(Final(x))
    {
      SizesAdd(x);
      RevRev(Argv(x));
      RevRev(Envp(x));
      var envPtrs := PushStrings(x.envs);
      var argPtrs := PushStrings(x.args);
      var random := PushBytes(Zeros(16));
      var platform := PushBytes(x.platform);
      var execfn := PushBytes(x.path);
      var aux := [(3, x.phAddr), (4, x.phEntrySize), (5, x.phCount), (6, PAGE_SIZE), (9, x.entry),
                  (11, 0), (12, 0), (13, 0), (14, 0), (15, platform), (23, 0), (25, random), (31, execfn)];
      assert aux == Auxv(x);
      PushHeader(argPtrs, envPtrs, aux);
    }
  }

  /** Every intermediate stack is no larger than the final one. */
  lemma SizesAdd(x: Exec)
    ensures |Final(x)| == |Strings(x)| + WORD * (4 + |x.args| + |x.envs| + 2 * |Auxv(x)|)
    ensures |WithEnv(x)| <= |WithArgs(x)| <= |WithRandom(x)| <= |WithPlatform(x)| <= |Strings(x)|
    ensures |Argv(x)| == |x.args| && |Envp(x)| == |x.envs|
  {
    PushStrsSuffix(WithEnv(x), x.args, 0);
    PushArrSuffix(WithPlatform(x), x.path);
    PushArrSuffix(WithRandom(x), x.platform);
    PushArrSuffix(WithArgs(x), Zeros(16));
    PtrsLength(WithEnv(x), x.args);
    PtrsLength([], x.envs);
    ReversedElems(Auxv(x));
    HeaderSuffix(Strings(x), Argv(x), Envp(x), Reversed(Auxv(x)));
  }
}
