/**
  Pending signals of a thread: `tkill`, `tgkill`, `SignalList`, `SignalFlags` and `check_signal`
  (kernel/src/syscall/task.rs, kernel/src/user/entry.rs, kernel/src/tasks/signal.rs,
  crates/signal/src/lib.rs).  A signal is named by its bit, one less than its number.
*/
module Signals {
  import opened Wrappers
  import opened Bits

  const REAL_TIME_SIGNAL_NUM: nat := 33
  const REAL_TIME_MASK: nat := 0xFFFF_FFFE_0000_0000

  type Sig = s: nat | s < WORD_BITS

  /* ---------- SignalFlags ---------- */

  /**
    The bit of a signal number as it comes from the user, unchecked: `num - 1` wraps and the shift
    looks at its six low bits only.
  */
  function SigOf(num: nat): Sig {
    (num + WORD_BITS - 1) % WORD_BITS
  }

  function FromNum(num: nat): Word {
    WordSetBit(0, SigOf(num), true)
  }

  function LowestFrom(w: Word, i: nat): nat
    requires i <= WORD_BITS
    decreases WORD_BITS - i
  {
    if i == WORD_BITS || Bit(w, i) then i else LowestFrom(w, i + 1)
  }

  /** The number of the lowest bit, or 0 when there is none. */
  function Num(w: Word): nat {
    if LowestFrom(w, 0) == WORD_BITS then 0 else LowestFrom(w, 0) + 1
  }

  predicate IsRealTime(s: Sig) {
    Bit(REAL_TIME_MASK, s)
  }

  /** The slot of a real-time signal in `signal_queue`: its number minus 32. */
  function RealTimeIndex(s: Sig): (r: Option<nat>)
    ensures r.Some? ==> 0 < r.value < REAL_TIME_SIGNAL_NUM
  {
    RealTimeIsHigh(s);
    if IsRealTime(s) then Some(s + 1 - 32) else None
  }

  lemma {:induction false} LowestIs(w: Word, i: nat)
    requires i <= WORD_BITS
    ensures var k := LowestFrom(w, i);
      i <= k <= WORD_BITS && (k < WORD_BITS ==> Bit(w, k)) && forall j :: i <= j < k ==> !Bit(w, j)
    decreases WORD_BITS - i
  {
    if i < WORD_BITS && !Bit(w, i) {
      LowestIs(w, i + 1);
    }
  }

  /** The number comes back exactly when it is one of 1 to 64. */
  lemma NumRoundTripIff(num: nat)
    ensures Num(FromNum(num)) == SigOf(num) + 1
    ensures Num(FromNum(num)) == num <==> 1 <= num <= 64
  {
    LowestIs(FromNum(num), 0);
    assert Bit(FromNum(num), SigOf(num));
    forall i | 0 <= i < SigOf(num) ensures !Bit(FromNum(num), i) {
      ZeroBits(i);
    }
  }

  /** All other numbers stand for the one they are congruent to. */
  lemma NumWraps(num: nat)
    ensures FromNum(num + 64) == FromNum(num)
  {
    hide WordSetBit;
    assert SigOf(num + 64) == SigOf(num);
  }

  /** Number 0, which should only probe for the thread, raises signal 64. */
  lemma ZeroRaisesLast()
    ensures FromNum(0) == FromNum(64) && Num(FromNum(0)) == 64
  {
    hide WordSetBit, Num;
    assert SigOf(0) == SigOf(64);
    NumRoundTripIff(0);
  }

  lemma {:induction false} HighBits(w: nat, k: nat, i: nat)
    ensures Bit(w * Pow2(k), i) == (i >= k && Bit(w, i - k))
    decreases k
  {
    if k > 0 {
      var v := w * Pow2(k);
      assert v == (w * Pow2(k - 1)) * 2;
      if i > 0 {
        HighBits(w, k - 1, i - 1);
      }
    }
  }

  function Pow2(k: nat): nat {
    if k == 0 then 1 else 2 * Pow2(k - 1)
  }

  /** The mask picks signals 34 to 64. */
  lemma RealTimeIsHigh(s: Sig)
    ensures IsRealTime(s) <==> 33 <= s
  {
    assert Pow2(8) == 256;
    assert Pow2(16) == 0x1_0000;
    assert Pow2(24) == 0x100_0000;
    assert Pow2(33) == 0x2_0000_0000;
    assert REAL_TIME_MASK == 0x7FFF_FFFF * Pow2(33);
    HighBits(0x7FFF_FFFF, 33, s);
    assert Ones(8) == 0xFF;
    assert Ones(16) == 0xFFFF;
    assert Ones(24) == 0xFF_FFFF;
    assert Ones(31) == 0x7FFF_FFFF;
    if s >= 33 {
      OnesBits(31, s - 33);
    }
  }

  /* ---------- A thread's signals ---------- */

  datatype Tcb = Tcb(pending: Word, queue: seq<nat>, mask: Word)

  ghost predicate Good(t: Tcb) {
    |t.queue| == REAL_TIME_SIGNAL_NUM
  }

  /** `tkill` and `tgkill`: set the bit, or count one more occurrence of a real-time signal. */
  function Send(t: Tcb, s: Sig): Tcb
    requires Good(t)
  {
    if !Bit(t.pending, s) then t.(pending := WordSetBit(t.pending, s, true))
    else
      match RealTimeIndex(s)
      case Some(i) => t.(queue := t.queue[i := t.queue[i] + 1])
      case None => t
  }

  /** After the handler: clear the bit, and raise it again for a queued occurrence. */
  function Complete(t: Tcb, s: Sig): Tcb
    requires Good(t)
  {
    var cleared := t.(pending := WordSetBit(t.pending, s, false));
    match RealTimeIndex(s)
    case Some(i) =>
      if t.queue[i] > 0
      then cleared.(pending := WordSetBit(cleared.pending, s, true), queue := t.queue[i := t.queue[i] - 1])
      else cleared
    case None => cleared
  }

  predicate Deliverable(t: Tcb, s: Sig) {
    Bit(t.pending, s) && !Bit(t.mask, s)
  }

  function NextFrom(t: Tcb, i: nat): (r: Option<Sig>)
    requires i <= WORD_BITS
    ensures match r
      case None => forall j :: i <= j < WORD_BITS ==> !Deliverable(t, j)
      case Some(s) => i <= s && Deliverable(t, s) && forall j :: i <= j < s ==> !Deliverable(t, j)
    decreases WORD_BITS - i
  {
    if i == WORD_BITS then None
    else if Deliverable(t, i) then Some(i)
    else NextFrom(t, i + 1)
  }

  /** The lowest pending signal that is not masked. */
  function Next(t: Tcb): Option<Sig> {
    NextFrom(t, 0)
  }

  /** Occurrences of `s` still to be delivered: the pending bit plus the queued count. */
  function Owed(t: Tcb, s: Sig): nat
    requires Good(t)
  {
    (if Bit(t.pending, s) then 1 else 0)
    + (match RealTimeIndex(s) case Some(i) => t.queue[i] case None => 0)
  }

  lemma SendOwes(t: Tcb, s: Sig, r: Sig)
    requires Good(t)
    ensures Good(Send(t, s)) && Send(t, s).mask == t.mask
    ensures Owed(Send(t, s), r)
            == Owed(t, r) + (if r == s && (IsRealTime(s) || !Bit(t.pending, s)) then 1 else 0)
  {
    RealTimeIsHigh(s);
    RealTimeIsHigh(r);
  }

  lemma CompleteOwes(t: Tcb, s: Sig, r: Sig)
    requires Good(t) && Bit(t.pending, s)
    ensures Good(Complete(t, s)) && Complete(t, s).mask == t.mask
    ensures Owed(Complete(t, s), r) == Owed(t, r) - (if r == s then 1 else 0)
    ensures r != s ==> Bit(Complete(t, s).pending, r) == Bit(t.pending, r)
    ensures Bit(Complete(t, s).pending, s) ==> IsRealTime(s)
  {
    RealTimeIsHigh(s);
    RealTimeIsHigh(r);
  }

  /** Occurrences are queued only behind a pending bit. */
  ghost predicate QueueBacked(t: Tcb)
    requires Good(t)
  {
    forall s: Sig :: RealTimeIndex(s).Some? && t.queue[RealTimeIndex(s).value] > 0 ==> Bit(t.pending, s)
  }

  lemma SendBacked(t: Tcb, s: Sig)
    requires Good(t) && QueueBacked(t)
    ensures QueueBacked(Send(t, s))
  {
    var u := Send(t, s);
    forall r: Sig | RealTimeIndex(r).Some? && u.queue[RealTimeIndex(r).value] > 0 ensures Bit(u.pending, r) {
      RealTimeIsHigh(s);
      RealTimeIsHigh(r);
    }
  }

  lemma CompleteBacked(t: Tcb, s: Sig)
    requires Good(t) && QueueBacked(t)
    ensures QueueBacked(Complete(t, s))
  {
    var u := Complete(t, s);
    forall r: Sig | RealTimeIndex(r).Some? && u.queue[RealTimeIndex(r).value] > 0 ensures Bit(u.pending, r) {
      RealTimeIsHigh(s);
      RealTimeIsHigh(r);
    }
  }

  /* ---------- Every run, arrivals during a handler included ---------- */

  /** `Abandon`: the system call beside `check_signal` ends first, and the handler is dropped. */
  datatype Event = Kill(s: Sig) | Begin | End | Abandon | SetMask(m: Word)

  /** `handling` is the signal whose handler is running; `sent` and `done` count per signal. */
  datatype State = State(t: Tcb, handling: Option<Sig>, sent: seq<nat>, done: seq<nat>)

  ghost predicate Shaped(st: State) {
    Good(st.t) && |st.sent| == WORD_BITS && |st.done| == WORD_BITS
  }

  function Step(st: State, e: Event): (r: State)
    requires Shaped(st)
    ensures Shaped(r)
  {
    match e
    case Kill(s) => st.(t := Send(st.t, s), sent := st.sent[s := st.sent[s] + 1])
    case Begin => if st.handling.None? then st.(handling := Next(st.t)) else st
    case End =>
      (match st.handling
       case None => st
       case Some(s) =>
         st.(t := Complete(st.t, s), handling := None, done := st.done[s := st.done[s] + 1]))
    case Abandon => st.(handling := None)
    case SetMask(m) => st.(t := st.t.(mask := m))
  }

  ghost predicate Inv(st: State) {
    && Shaped(st) && QueueBacked(st.t)
    && (st.handling.Some? ==> Bit(st.t.pending, st.handling.value))
    && forall s: Sig :: Balanced(st, s)
  }

  /** Real-time occurrences are conserved; others may coalesce while one is pending. */
  ghost predicate Balanced(st: State, s: Sig)
    requires Shaped(st)
  {
    if IsRealTime(s) then st.sent[s] == st.done[s] + Owed(st.t, s)
    else st.done[s] + Owed(st.t, s) <= st.sent[s]
  }

  /** A new thread, whatever its mask: nothing pending, queued, sent or delivered. */
  function NewThread(mask: Word): State {
    State(Tcb(0, seq(REAL_TIME_SIGNAL_NUM, _ => 0), mask), None, seq(WORD_BITS, _ => 0), seq(WORD_BITS, _ => 0))
  }

  lemma NewThreadInv(mask: Word)
    ensures Inv(NewThread(mask))
  {
    var st := NewThread(mask);
    forall s: Sig ensures Balanced(st, s) {
      ZeroBits(s);
    }
  }

  lemma StepKeeps(st: State, e: Event)
    requires Inv(st)
    ensures Inv(Step(st, e))
  {
    var u := Step(st, e);
    assert QueueBacked(u.t) by {
      match e {
        case Kill(k) => SendBacked(st.t, k);
        case Begin =>
        case End =>
          if st.handling.Some? {
            CompleteBacked(st.t, st.handling.value);
          }
        case Abandon =>
        case SetMask(m) =>
      }
    }
    forall s: Sig ensures Balanced(u, s) {
      assert Balanced(st, s);
      match e {
        case Kill(k) => SendOwes(st.t, k, s);
        case Begin =>
        case End =>
          if st.handling.Some? {
            CompleteOwes(st.t, st.handling.value, s);
          }
        case Abandon =>
        case SetMask(m) =>
      }
    }
  }

  function Run(st: State, es: seq<Event>): (r: State)
    requires Shaped(st)
    ensures Shaped(r)
    decreases |es|
  {
    if es == [] then st else Run(Step(st, es[0]), es[1..])
  }

  /** At every point of every run, sends equal completed deliveries plus pending bit plus queue. */
  lemma {:induction false} NoRealTimeSignalIsLost(st: State, es: seq<Event>, s: Sig)
    requires Inv(st) && IsRealTime(s)
    ensures Inv(Run(st, es))
    ensures var u := Run(st, es); u.sent[s] == u.done[s] + Owed(u.t, s)
    decreases |es|
  {
    if es == [] {
      assert Balanced(st, s);
    } else {
      StepKeeps(st, es[0]);
      NoRealTimeSignalIsLost(Step(st, es[0]), es[1..], s);
    }
  }

  /* ---------- One call of check_signal without arrivals ---------- */

  function TotalOwed(t: Tcb, n: nat): nat
    requires Good(t) && n <= WORD_BITS
  {
    if n == 0 then 0 else TotalOwed(t, n - 1) + Owed(t, n - 1)
  }

  lemma {:induction false} CompleteShrinks(t: Tcb, s: Sig, n: nat)
    requires Good(t) && Bit(t.pending, s) && n <= WORD_BITS
    ensures Good(Complete(t, s))
    ensures TotalOwed(Complete(t, s), n) == TotalOwed(t, n) - (if s < n then 1 else 0)
  {
    CompleteOwes(t, s, s);
    if n > 0 {
      CompleteOwes(t, s, n - 1);
      CompleteShrinks(t, s, n - 1);
    }
  }

  /** How often a call delivers `s`: every occurrence owed, unless the signal is masked. */
  function Due(t: Tcb, s: Sig): nat
    requires Good(t)
  {
    if Bit(t.mask, s) then 0 else Owed(t, s)
  }

  ghost predicate Ascending(log: seq<Sig>) {
    forall i, j :: 0 <= i < j < |log| ==> log[i] <= log[j]
  }

  /** What a whole call does: every occurrence due, in signal order, and nothing else. */
  ghost predicate Delivered(before: Tcb, after: Tcb, log: seq<Sig>)
    requires Good(before) && Good(after)
  {
    && Ascending(log)
    && (forall s: Sig :: multiset(log)[s] == Due(before, s))
    && (forall s: Sig :: Owed(after, s) == Owed(before, s) - Due(before, s))
  }

  ghost predicate Progress(before: Tcb, now: Tcb, log: seq<Sig>)
    requires Good(before) && Good(now)
  {
    && now.mask == before.mask && Ascending(log)
    && (forall x: Sig, s: Sig :: x in log && Deliverable(now, s) ==> x <= s)
    && (forall s: Sig :: Owed(now, s) + multiset(log)[s] == Owed(before, s))
    && (forall s: Sig :: Bit(now.mask, s) ==> multiset(log)[s] == 0)
  }

  lemma ProgressStep(before: Tcb, now: Tcb, log: seq<Sig>, s: Sig)
    requires Good(before) && Good(now) && Progress(before, now, log) && Next(now) == Some(s)
    ensures Progress(before, Complete(now, s), log + [s])
  {
    var after, longer := Complete(now, s), log + [s];
    forall r: Sig
      ensures Owed(after, r) == Owed(now, r) - (if r == s then 1 else 0)
      ensures Deliverable(after, r) ==> Deliverable(now, r)
    {
      CompleteOwes(now, s, r);
    }
    assert multiset(longer) == multiset(log) + multiset{s};
    AscendingMore(log, s);
  }

  lemma AscendingMore(log: seq<Sig>, s: Sig)
    requires Ascending(log) && forall x: Sig :: x in log ==> x <= s
    ensures Ascending(log + [s])
  {
    var longer := log + [s];
    forall i, j | 0 <= i < j < |longer| ensures longer[i] <= longer[j] {
      assert log[i] in log;
    }
  }

  lemma ProgressEnd(before: Tcb, now: Tcb, log: seq<Sig>)
    requires Good(before) && Good(now) && QueueBacked(now) && Progress(before, now, log) && Next(now).None?
    ensures Delivered(before, now, log)
  {
    forall s: Sig ensures !Bit(now.mask, s) ==> Owed(now, s) == 0 {
      if !Bit(now.mask, s) {
        assert !Deliverable(now, s);
      }
    }
  }

  /* ---------- Delivery within a run ---------- */

  /** `check_signal` as events: `n` handlers, one after the other. */
  function Drain(n: nat): seq<Event> {
    if n == 0 then [] else [Begin, End] + Drain(n - 1)
  }

  /** How many handlers run before nothing unmasked is pending. */
  function Rounds(t: Tcb): nat
    requires Good(t)
    decreases TotalOwed(t, WORD_BITS)
  {
    match Next(t)
    case None => 0
    case Some(s) =>
      CompleteShrinks(t, s, WORD_BITS);
      1 + Rounds(Complete(t, s))
  }

  lemma OneRound(st: State, s: Sig, r: Sig)
    requires Inv(st) && st.handling.None? && Next(st.t) == Some(s)
    ensures var u := Step(Step(st, Begin), End);
      && Inv(u) && u.handling.None? && u.t == Complete(st.t, s) && u.sent == st.sent
      && u.t.mask == st.t.mask && u.done[r] + Due(u.t, r) == st.done[r] + Due(st.t, r)
      && TotalOwed(u.t, WORD_BITS) < TotalOwed(st.t, WORD_BITS)
  {
    CompleteShrinks(st.t, s, WORD_BITS);
    StepKeeps(st, Begin);
    StepKeeps(Step(st, Begin), End);
    CompleteOwes(st.t, s, r);
  }

  lemma NothingDue(t: Tcb, s: Sig)
    requires Good(t) && QueueBacked(t) && Next(t).None?
    ensures Due(t, s) == 0
  {
    assert !Deliverable(t, s);
  }

  lemma NoRounds()
    ensures Drain(0) == []
  {
  }

  lemma DrainSplit(st: State, n: nat)
    requires Shaped(st) && n > 0
    ensures Run(st, Drain(n)) == Run(Step(Step(st, Begin), End), Drain(n - 1))
  {
    var es := Drain(n);
    assert es[0] == Begin && es[1..][0] == End && es[1..][1..] == Drain(n - 1);
  }

  /** From any point of a run, letting the handlers run delivers exactly what is due. */
  lemma {:induction false} DrainDelivers(st: State, r: Sig)
    requires Inv(st) && st.handling.None?
    ensures var u := Run(st, Drain(Rounds(st.t)));
      && Inv(u) && u.handling.None? && u.sent == st.sent && u.t.mask == st.t.mask
      && Due(u.t, r) == 0 && u.done[r] == st.done[r] + Due(st.t, r)
    decreases TotalOwed(st.t, WORD_BITS)
  {
    hide Balanced, QueueBacked, Step, Complete, TotalOwed, Due, Owed, Drain, Next;
    if Next(st.t).None? {
      NothingDue(st.t, r);
      NoRounds();
    } else {
      OneRound(st, Next(st.t).value, r);
      DrainSplit(st, Rounds(st.t));
      DrainDelivers(Step(Step(st, Begin), End), r);
    }
  }

  /**
    From a new thread, after any run that ends between handlers, letting the handlers run leaves
    every unmasked real-time signal delivered as often as it was sent.
  */
  lemma EverySendIsDelivered(mask: Word, es: seq<Event>, s: Sig)
    requires IsRealTime(s) && Run(NewThread(mask), es).handling.None?
    requires !Bit(Run(NewThread(mask), es).t.mask, s)
    ensures Shaped(NewThread(mask))
    ensures var st := Run(NewThread(mask), es);
      var u := Run(st, Drain(Rounds(st.t)));
      u.done[s] == u.sent[s] == st.sent[s]
  {
    NewThreadInv(mask);
    NoRealTimeSignalIsLost(NewThread(mask), es, s);
    var st := Run(NewThread(mask), es);
    DrainDelivers(st, s);
    NoRealTimeSignalIsLost(st, Drain(Rounds(st.t)), s);
  }

  class Thread {
    var pending: Word
    var queue: seq<nat>
    var mask: Word

    function View(): Tcb
      reads this
    {
      Tcb(pending, queue, mask)
    }

    ghost predicate Valid()
      reads this
    {
      Good(View()) && QueueBacked(View())
    }

    method Kill(num: nat)
      requires Valid()
      modifies this
      ensures Valid() && View() == Send(old(View()), SigOf(num))
      ensures Bit(pending, SigOf(num))
    {
      var s := SigOf(num);
      SendBacked(View(), s);
      if !Bit(pending, s) {
        pending := WordSetBit(pending, s, true);
      } else {
        var index := RealTimeIndex(s);
        if index.Some? {
          queue := queue[index.value := queue[index.value] + 1];
        }
      }
    }

    method Finish(s: Sig)
      requires Valid() && Bit(pending, s)
      modifies this
      ensures Valid() && View() == Complete(old(View()), s)
    {
      CompleteBacked(View(), s);
      pending := WordSetBit(pending, s, false);
      var index := RealTimeIndex(s);
      if index.Some? && queue[index.value] > 0 {
        pending := WordSetBit(pending, s, true);
        queue := queue[index.value := queue[index.value] - 1];
      }
    }

    /**
      With no arrivals the loop ends, having delivered every unmasked occurrence exactly once,
      lower signal numbers first, and nothing else.
    */
    method CheckSignal() returns (log: seq<Sig>)
      requires Valid()
      modifies this
      ensures Valid() && mask == old(mask) && Next(View()).None?
      ensures Delivered(old(View()), View(), log)
    {
      ghost var t := View();
      log := [];
      var next := Next(View());
      while next.Some?
        invariant Valid() && next == Next(View()) && Progress(t, View(), log)
        decreases TotalOwed(View(), WORD_BITS)
      {
        ProgressStep(t, View(), log, next.value);
        CompleteShrinks(View(), next.value, WORD_BITS);
        Finish(next.value);
        log := log + [next.value];
        next := Next(View());
      }
      ProgressEnd(t, View(), log);
    }
  }
}
