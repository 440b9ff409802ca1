/**
  Futex wait queues (kernel/src/syscall/task.rs, kernel/src/tasks/async_ops.rs): one queue of
  thread ids per user address.
*/
module Futexes {
  import opened Wrappers

  type Table = map<nat, seq<nat>>

  function QueueOf(t: Table, uaddr: nat): seq<nat> {
    if uaddr in t then t[uaddr] else []
  }

  predicate InFutex(t: Table, tid: nat) {
    exists u :: u in t && tid in t[u]
  }

  function Min(a: nat, b: nat): nat {
    if a <= b then a else b
  }

  /* ---------- Operations ---------- */

  function Enqueue(t: Table, uaddr: nat, tid: nat): Table {
    t[uaddr := QueueOf(t, uaddr) + [tid]]
  }

  /** `futex_wake`: drain the oldest waiters. */
  function Wake(t: Table, uaddr: nat, count: nat): (Table, nat) {
    var q := QueueOf(t, uaddr);
    if |q| == 0 then (t, 0)
    else
      var n := Min(count, |q|);
      (t[uaddr := q[n..]], n)
  }

  /**
    `futex_requeue`, or `None` where one of its two drains runs past the queue and panics; an
    address without a queue wakes and moves nobody.
  */
  function Requeue(t: Table, uaddr: nat, wake: nat, uaddr2: nat, move: nat): Option<(Table, nat)> {
    if uaddr !in t then Some((t, 0))
    else if wake + move > |t[uaddr]| then None
    else
      var q := t[uaddr];
      var drained: Table := t[uaddr := q[wake + move..]];
      var joined: Table := drained[uaddr2 := QueueOf(drained, uaddr2) + q[wake..wake + move]];
      Some((joined, wake))
  }

  function Without(q: seq<nat>, tid: nat): seq<nat> {
    if q == [] then []
    else if q[0] == tid then Without(q[1..], tid)
    else [q[0]] + Without(q[1..], tid)
  }

  /** The interrupted branch of `WaitFutex::poll`: leave the queue that holds the thread. */
  ghost function Leave(t: Table, tid: nat): Table
    requires InFutex(t, tid)
  {
    var u :| u in t && tid in t[u];
    t[u := Without(t[u], tid)]
  }

  /* ---------- Runs ---------- */

  /**
    `waiting` are the threads inside a wait, `woken` those of them no longer queued; `lost` counts
    wakes spent on ids whose wait has timed out; `arrived` and `left` record, per address, who
    joined the queue and who left it from the front.
  */
  datatype State = State(
    table: Table,
    waiting: set<nat>,
    woken: set<nat>,
    wakes: nat,
    oks: nat,
    lost: nat,
    arrived: Table,
    left: Table
  )

  datatype Event =
    | Wait(tid: nat, uaddr: nat)
    | WakeUp(uaddr: nat, count: nat)
    | Move(uaddr: nat, wake: nat, uaddr2: nat, move: nat)
    | Poll(tid: nat, signalled: bool)
    | Timeout(tid: nat)

  function AsSet(q: seq<nat>): set<nat> {
    set x | x in q
  }

  function Log(h: Table, uaddr: nat, more: seq<nat>): Table {
    h[uaddr := QueueOf(h, uaddr) + more]
  }

  /**
    A thread waits only when it is not waiting already, and polls come to waiting threads.  The
    timer is looked at only after the wait has been polled and found its thread still queued.
  */
  ghost predicate Legal(s: State, e: Event) {
    match e
    case Wait(tid, _) => tid !in s.waiting
    case WakeUp(_, _) => true
    case Move(u, wake, u2, move) => Requeue(s.table, u, wake, u2, move).Some?
    case Poll(tid, _) => tid in s.waiting
    case Timeout(tid) => tid in s.waiting && InFutex(s.table, tid)
  }

  /** The first `n` ids of `u` have been taken off, leaving `table`. */
  function Woke(s: State, table: Table, u: nat, n: nat): State
    requires n <= |QueueOf(s.table, u)|
  {
    var out := QueueOf(s.table, u)[..n];
    s.(table := table, woken := s.woken + AsSet(out) * s.waiting, wakes := s.wakes + n,
       lost := s.lost + |AsSet(out) - s.waiting|, left := Log(s.left, u, out))
  }

  /** After a requeue: the first `wake` ids are off, the next `move` stand at the end of `u2`. */
  function Moved(s: State, u: nat, wake: nat, u2: nat, move: nat): State
    requires u in s.table && wake + move <= |s.table[u]|
  {
    var q, (table, n) := s.table[u], Requeue(s.table, u, wake, u2, move).value;
    Woke(s, table, u, n).(
      left := Log(s.left, u, q[..wake + move]), arrived := Log(s.arrived, u2, q[wake..wake + move]))
  }

  ghost function Step(s: State, e: Event): State
    requires Legal(s, e)
  {
    match e
    case Wait(tid, u) =>
      s.(table := Enqueue(s.table, u, tid), waiting := s.waiting + {tid}, arrived := Log(s.arrived, u, [tid]))
    case WakeUp(u, count) =>
      var (t, n) := Wake(s.table, u, count);
      Woke(s, t, u, n)
    case Move(u, wake, u2, move) =>
      if u !in s.table then s else Moved(s, u, wake, u2, move)
    case Poll(tid, signalled) =>
      if !InFutex(s.table, tid) then
        s.(waiting := s.waiting - {tid}, woken := s.woken - {tid}, oks := s.oks + 1)
      else if signalled then
        s.(table := Leave(s.table, tid), waiting := s.waiting - {tid})
      else s
    case Timeout(tid) => s.(waiting := s.waiting - {tid})
  }

  /* ---------- Invariant ---------- */

  ghost predicate NoDup(q: seq<nat>) {
    forall x :: multiset(q)[x] <= 1
  }

  /** No thread id stands in two places. */
  ghost predicate Unique(t: Table) {
    && (forall u :: u in t ==> NoDup(t[u]))
    && (forall u, v, x :: u in t && v in t && x in t[u] && x in t[v] ==> u == v)
  }

  ghost predicate Subseq(a: seq<nat>, b: seq<nat>)
    decreases |b|
  {
    if a == [] then true
    else if b == [] then false
    else if a[0] == b[0] then Subseq(a[1..], b[1..])
    else Subseq(a, b[1..])
  }

  /** Those who left the front and those still queued came in this order. */
  ghost predicate Ordered(gone: seq<nat>, q: seq<nat>, came: seq<nat>) {
    Subseq(gone + q, came)
  }

  ghost predicate Fifo(s: State, u: nat) {
    Ordered(QueueOf(s.left, u), QueueOf(s.table, u), QueueOf(s.arrived, u))
  }

  /** Every waiting thread is queued or woken, and not both; a queued id may have stopped waiting. */
  ghost predicate Members(s: State) {
    && (forall x :: x in s.waiting ==> InFutex(s.table, x) || x in s.woken)
    && (forall x :: x in s.woken ==> x in s.waiting && !InFutex(s.table, x))
  }

  ghost predicate Inv(s: State) {
    && Unique(s.table) && Members(s)
    && s.wakes == s.oks + s.lost + |s.woken|
    && (forall u: nat :: Fifo(s, u))
  }

  /* ---------- Subsequences ---------- */

  lemma {:induction false} SubseqAppend(a: seq<nat>, b: seq<nat>, x: seq<nat>)
    requires Subseq(a, b)
    ensures Subseq(a + x, b + x)
    decreases |b|
  {
    if b == [] {
      assert a + x == x && b + x == x;
      SubseqRefl(x);
    } else {
      assert (b + x)[1..] == b[1..] + x;
      if a == [] {
        assert a + x == x;
        SubseqAppend([], b[1..], x);
        assert [] + x == x;
        SubseqSkip(x, b[1..] + x, b[0]);
        assert b + x == [b[0]] + (b[1..] + x);
      } else if a[0] == b[0] {
        SubseqAppend(a[1..], b[1..], x);
        assert (a + x)[1..] == a[1..] + x;
      } else {
        SubseqAppend(a, b[1..], x);
      }
    }
  }

  lemma {:induction false} SubseqRefl(a: seq<nat>)
    ensures Subseq(a, a)
  {
    if a != [] {
      SubseqRefl(a[1..]);
    }
  }

  /** Dropping the head of the smaller sequence, or adding one to the larger, keeps the relation. */
  lemma {:induction false} SubseqSkip(a: seq<nat>, b: seq<nat>, y: nat)
    requires Subseq(a, b)
    ensures Subseq(a, [y] + b)
    ensures a != [] ==> Subseq(a[1..], b)
    decreases |b|
  {
    assert ([y] + b)[1..] == b;
    if a != [] {
      if a[0] == b[0] {
        SubseqSkip(a[1..], b[1..], b[0]);
        assert [b[0]] + b[1..] == b;
      } else {
        SubseqSkip(a, b[1..], b[0]);
        SubseqSkip(a[1..], b[1..], b[0]);
        assert [b[0]] + b[1..] == b;
      }
    }
  }

  lemma {:induction false} SubseqTrans(a: seq<nat>, b: seq<nat>, c: seq<nat>)
    requires Subseq(a, b) && Subseq(b, c)
    ensures Subseq(a, c)
    decreases |c|, |b|
  {
    if a != [] {
      if b[0] == c[0] {
        if a[0] == b[0] {
          SubseqTrans(a[1..], b[1..], c[1..]);
        } else {
          SubseqTrans(a, b[1..], c[1..]);
        }
      } else {
        SubseqTrans(a, b, c[1..]);
        SubseqSkip(a, c[1..], c[0]);
        assert [c[0]] + c[1..] == c;
      }
    }
  }

  lemma {:induction false} SubseqPrefix(pre: seq<nat>, a: seq<nat>, b: seq<nat>)
    requires Subseq(a, b)
    ensures Subseq(pre + a, pre + b)
  {
    if pre == [] {
      assert pre + a == a && pre + b == b;
    } else {
      SubseqPrefix(pre[1..], a, b);
      assert (pre + a)[1..] == pre[1..] + a;
      assert (pre + b)[1..] == pre[1..] + b;
    }
  }

  lemma {:induction false} WithoutSubseq(q: seq<nat>, tid: nat)
    ensures Subseq(Without(q, tid), q)
  {
    if q != [] {
      WithoutSubseq(q[1..], tid);
      if q[0] == tid {
        SubseqSkip(Without(q[1..], tid), q[1..], q[0]);
        assert [q[0]] + q[1..] == q;
      } else {
        assert Without(q, tid)[1..] == Without(q[1..], tid);
      }
    }
  }

  lemma {:induction false} WithoutIn(q: seq<nat>, tid: nat, x: nat)
    ensures x in Without(q, tid) <==> x in q && x != tid
  {
    if q != [] {
      WithoutIn(q[1..], tid, x);
    }
  }

  /* ---------- Queues without repetition ---------- */

  lemma SliceNoDup(q: seq<nat>, n: nat)
    requires n <= |q| && NoDup(q)
    ensures NoDup(q[..n]) && NoDup(q[n..])
    ensures forall x :: x in q <==> x in q[..n] || x in q[n..]
    ensures forall x :: !(x in q[..n] && x in q[n..])
  {
    assert q == q[..n] + q[n..];
    assert multiset(q) == multiset(q[..n]) + multiset(q[n..]);
    forall x ensures !(x in q[..n] && x in q[n..]) {
      assert multiset(q)[x] <= 1;
      assert x in q[..n] ==> x in multiset(q[..n]);
      assert x in q[n..] ==> x in multiset(q[n..]);
    }
    forall x ensures multiset(q[..n])[x] <= 1 && multiset(q[n..])[x] <= 1 {
      assert multiset(q)[x] <= 1;
    }
  }

  lemma ConcatNoDup(p: seq<nat>, q: seq<nat>)
    requires NoDup(p) && NoDup(q) && forall x :: !(x in p && x in q)
    ensures NoDup(p + q)
  {
    assert multiset(p + q) == multiset(p) + multiset(q);
    forall x ensures multiset(p + q)[x] <= 1 {
      assert x in p <==> x in multiset(p);
      assert x in q <==> x in multiset(q);
    }
  }

  lemma {:induction false} SizeOfNoDup(q: seq<nat>)
    requires NoDup(q)
    ensures |AsSet(q)| == |q|
  {
    if q != [] {
      SliceNoDup(q, 1);
      SizeOfNoDup(q[1..]);
      assert AsSet(q) == {q[0]} + AsSet(q[1..]);
      assert q[0] in q[..1];
    }
  }

  lemma {:induction false} WithoutNoDup(q: seq<nat>, tid: nat)
    requires NoDup(q)
    ensures NoDup(Without(q, tid))
  {
    if q != [] {
      SliceNoDup(q, 1);
      WithoutNoDup(q[1..], tid);
      if q[0] != tid {
        assert q[0] in q[..1];
        WithoutIn(q[1..], tid, q[0]);
        assert multiset(Without(q, tid)) == multiset{q[0]} + multiset(Without(q[1..], tid));
      }
    }
  }

  ghost predicate Elsewhere(t: Table, u: nat, x: nat) {
    exists v :: v in t && v != u && x in t[v]
  }

  lemma InFutexSplit(t: Table, u: nat, x: nat)
    ensures InFutex(t, x) <==> x in QueueOf(t, u) || Elsewhere(t, u, x)
  {
    if x in QueueOf(t, u) {
      assert u in t && x in t[u];
    }
  }

  lemma ElsewhereSame(t: Table, u: nat, q: seq<nat>, x: nat)
    ensures Elsewhere(t[u := q], u, x) <==> Elsewhere(t, u, x)
  {
    if Elsewhere(t, u, x) {
      var v :| v in t && v != u && x in t[v];
      assert v in t[u := q] && x in t[u := q][v];
    }
  }

  /** One queue replaced: membership changes there and nowhere else. */
  lemma ReplacedMember(t: Table, u: nat, q: seq<nat>, x: nat)
    ensures InFutex(t[u := q], x) <==> x in q || Elsewhere(t, u, x)
  {
    InFutexSplit(t[u := q], u, x);
    ElsewhereSame(t, u, q, x);
  }

  /** Replacing one queue by one whose threads stand nowhere else. */
  lemma ReplaceQueue(t: Table, u: nat, q: seq<nat>)
    requires Unique(t) && NoDup(q)
    requires forall x :: x in q ==> !Elsewhere(t, u, x)
    ensures Unique(t[u := q])
  {
    var t' := t[u := q];
    forall v, x | v in t' && v != u && x in t'[v] ensures x !in q {
      assert Elsewhere(t, u, x);
    }
  }

  lemma QueuedNotElsewhere(t: Table, u: nat, x: nat)
    requires Unique(t) && x in QueueOf(t, u)
    ensures !Elsewhere(t, u, x)
  {
  }

  /* ---------- Tables ---------- */

  /** The first `n` of a queue leave. */
  lemma DrainMembers(t: Table, u: nat, n: nat)
    requires Unique(t) && u in t && n <= |t[u]|
    ensures Unique(t[u := t[u][n..]]) && NoDup(t[u][..n])
    ensures forall x :: InFutex(t[u := t[u][n..]], x) <==> InFutex(t, x) && x !in t[u][..n]
    ensures forall x :: x in t[u][..n] ==> InFutex(t, x)
  {
    var q := t[u];
    SliceNoDup(q, n);
    forall x
      ensures InFutex(t[u := q[n..]], x) <==> InFutex(t, x) && x !in q[..n]
      ensures x in q[..n] ==> InFutex(t, x)
      ensures x in q[n..] ==> !Elsewhere(t, u, x)
    {
      InFutexSplit(t, u, x);
      ReplacedMember(t, u, q[n..], x);
      if x in q {
        QueuedNotElsewhere(t, u, x);
      }
    }
    ReplaceQueue(t, u, q[n..]);
  }

  /** Ids that stand in no queue join the end of one. */
  lemma AppendMembers(t: Table, u: nat, more: seq<nat>)
    requires Unique(t) && NoDup(more) && forall x :: x in more ==> !InFutex(t, x)
    ensures Unique(t[u := QueueOf(t, u) + more])
    ensures forall x :: InFutex(t[u := QueueOf(t, u) + more], x) <==> InFutex(t, x) || x in more
  {
    var q := QueueOf(t, u);
    forall x
      ensures InFutex(t[u := q + more], x) <==> InFutex(t, x) || x in more
      ensures x in q ==> InFutex(t, x) && !Elsewhere(t, u, x)
      ensures x in more ==> !Elsewhere(t, u, x)
    {
      InFutexSplit(t, u, x);
      ReplacedMember(t, u, q + more, x);
      if x in q {
        QueuedNotElsewhere(t, u, x);
      }
    }
    ConcatNoDup(q, more);
    ReplaceQueue(t, u, q + more);
  }

  lemma LeaveMembers(t: Table, tid: nat, u: nat)
    requires Unique(t) && u in t && tid in t[u]
    ensures var t' := t[u := Without(t[u], tid)];
      Unique(t') && forall x :: InFutex(t', x) <==> InFutex(t, x) && x != tid
  {
    var q := t[u];
    forall x
      ensures InFutex(t[u := Without(q, tid)], x) <==> InFutex(t, x) && x != tid
      ensures x in Without(q, tid) ==> !Elsewhere(t, u, x)
    {
      WithoutIn(q, tid, x);
      InFutexSplit(t, u, x);
      ReplacedMember(t, u, Without(q, tid), x);
      if x in q {
        QueuedNotElsewhere(t, u, x);
      }
    }
    WithoutNoDup(q, tid);
    ReplaceQueue(t, u, Without(q, tid));
  }

  /** Joining a queue keeps every id in one place if and only if the thread stands in none. */
  lemma EnqueueUniqueIff(t: Table, u: nat, tid: nat)
    requires Unique(t)
    ensures Unique(Enqueue(t, u, tid)) <==> !InFutex(t, tid)
  {
    if InFutex(t, tid) {
      EnqueueTwice(t, u, tid);
    } else {
      AppendMembers(t, u, [tid]);
    }
  }

  lemma EnqueueTwice(t: Table, u: nat, tid: nat)
    requires InFutex(t, tid)
    ensures !Unique(Enqueue(t, u, tid))
  {
    var v :| v in t && tid in t[v];
    var t' := Enqueue(t, u, tid);
    if v == u {
      assert multiset(t[u] + [tid]) == multiset(t[u]) + multiset{tid};
      assert multiset(t'[u])[tid] >= 2 && u in t';
    } else {
      assert v in t' && tid in t'[v] && u in t' && tid in t'[u];
    }
  }

  /** Waking and moving: the ids that stay queued are the old ones without the woken. */
  lemma RequeueMembers(t: Table, u: nat, wake: nat, u2: nat, move: nat)
    requires Unique(t) && u in t && wake + move <= |t[u]|
    ensures var t' := Requeue(t, u, wake, u2, move).value.0;
      Unique(t') && forall x :: InFutex(t', x) <==> InFutex(t[u := t[u][wake..]], x)
  {
    var q := t[u];
    var t1, moved := t[u := q[wake..]], q[wake..wake + move];
    DrainMembers(t, u, wake);
    assert q[wake..][..move] == moved && q[wake..][move..] == q[wake + move..];
    DrainMembers(t1, u, move);
    assert t1[u := q[wake + move..]] == t[u := q[wake + move..]];
    AppendMembers(t[u := q[wake + move..]], u2, moved);
  }

  /** The ids that stood in a queue before and stand in none after. */
  ghost function Gone(t: Table, t': Table): set<nat> {
    set u, x | u in t && x in t[u] && !InFutex(t', x) :: x
  }

  /**
    The answer of a requeue counts the ids that leave the table, which are the oldest of their
    queue; what one queue loses beyond them the other gains, also where an id stands twice.
  */
  lemma RequeueWakes(t: Table, u: nat, wake: nat, u2: nat, move: nat)
    requires Requeue(t, u, wake, u2, move).Some?
    ensures var (t', n) := Requeue(t, u, wake, u2, move).value;
      && n <= |QueueOf(t, u)|
      && (u != u2 ==> |QueueOf(t, u)| + |QueueOf(t, u2)| == |QueueOf(t', u)| + |QueueOf(t', u2)| + n)
      && (u == u2 ==> |QueueOf(t, u)| == |QueueOf(t', u)| + n)
      && (forall v :: v != u && v != u2 ==> QueueOf(t', v) == QueueOf(t, v))
      && (Unique(t) ==> Gone(t, t') == AsSet(QueueOf(t, u)[..n]) && n == |Gone(t, t')|)
  {
    if Unique(t) {
      if u in t {
        RequeueMembers(t, u, wake, u2, move);
        DrainMembers(t, u, wake);
        GoneIs(t, Requeue(t, u, wake, u2, move).value.0, u, wake);
        SizeOfNoDup(t[u][..wake]);
      } else {
        assert Gone(t, t) == {} == AsSet([]);
      }
    }
  }

  lemma GoneIs(t: Table, t': Table, u: nat, n: nat)
    requires u in t && n <= |t[u]|
    requires forall x :: InFutex(t', x) <==> InFutex(t, x) && x !in t[u][..n]
    ensures Gone(t, t') == AsSet(t[u][..n])
  {
    forall x: nat ensures x in Gone(t, t') <==> x in t[u][..n] {
      if x in t[u][..n] {
        assert x in t[u] && !InFutex(t', x);
      }
    }
  }

  /* ---------- Order ---------- */

  lemma {:induction false} DrainOrdered(gone: seq<nat>, q: seq<nat>, came: seq<nat>, n: nat)
    requires Ordered(gone, q, came) && n <= |q|
    ensures Ordered(gone + q[..n], q[n..], came)
  {
    assert (gone + q[..n]) + q[n..] == gone + q;
  }

  lemma {:induction false} JoinOrdered(gone: seq<nat>, q: seq<nat>, came: seq<nat>, more: seq<nat>)
    requires Ordered(gone, q, came)
    ensures Ordered(gone, q + more, came + more)
  {
    SubseqAppend(gone + q, came, more);
    assert (gone + q) + more == gone + (q + more);
  }

  lemma {:induction false} LeaveOrdered(gone: seq<nat>, q: seq<nat>, came: seq<nat>, tid: nat)
    requires Ordered(gone, q, came)
    ensures Ordered(gone, Without(q, tid), came)
  {
    WithoutSubseq(q, tid);
    SubseqPrefix(gone, Without(q, tid), q);
    SubseqTrans(gone + Without(q, tid), gone + q, came);
  }

  lemma {:induction false} JoinFifo(s: State, u: nat, more: seq<nat>, v: nat)
    requires Fifo(s, v)
    ensures Fifo(s.(table := s.table[u := QueueOf(s.table, u) + more], arrived := Log(s.arrived, u, more)), v)
  {
    if v == u {
      JoinOrdered(QueueOf(s.left, u), QueueOf(s.table, u), QueueOf(s.arrived, u), more);
    }
  }

  lemma {:induction false} DrainFifo(s: State, u: nat, n: nat, v: nat)
    requires Fifo(s, v) && u in s.table && n <= |s.table[u]|
    ensures Fifo(s.(table := s.table[u := s.table[u][n..]], left := Log(s.left, u, s.table[u][..n])), v)
  {
    if v == u {
      DrainOrdered(QueueOf(s.left, u), s.table[u], QueueOf(s.arrived, u), n);
    }
  }

  /** What a requeue does to the books of one address. */
  lemma MoveQueues(s: State, u: nat, wake: nat, u2: nat, move: nat, v: nat)
    requires u in s.table && wake + move <= |s.table[u]|
    ensures var s' := Moved(s, u, wake, u2, move);
      var q := s.table[u]; var more := if v == u2 then q[wake..wake + move] else [];
      && QueueOf(s'.left, v) == QueueOf(s.left, v) + (if v == u then q[..wake + move] else [])
      && QueueOf(s'.table, v) == (if v == u then q[wake + move..] else QueueOf(s.table, v)) + more
      && QueueOf(s'.arrived, v) == QueueOf(s.arrived, v) + more
  {
    LogAt(s.left, u, s.table[u][..wake + move], v);
    LogAt(s.arrived, u2, s.table[u][wake..wake + move], v);
    LogAt(s.table[u := s.table[u][wake + move..]], u2, s.table[u][wake..wake + move], v);
  }

  lemma LogAt(h: Table, u: nat, more: seq<nat>, v: nat)
    ensures QueueOf(Log(h, u, more), v) == QueueOf(h, v) + if v == u then more else []
  {
  }

  /** A requeue takes the front off one queue and appends its second part to the other. */
  lemma {:induction false} MoveFifo(s: State, u: nat, wake: nat, u2: nat, move: nat, v: nat)
    requires Fifo(s, v) && u in s.table && wake + move <= |s.table[u]|
    ensures Fifo(Moved(s, u, wake, u2, move), v)
  {
    hide Moved, Subseq;
    MoveQueues(s, u, wake, u2, move, v);
    var q := s.table[u];
    var gone, here, came := QueueOf(s.left, v), QueueOf(s.table, v), QueueOf(s.arrived, v);
    var more := if v == u2 then q[wake..wake + move] else [];
    if v == u {
      DrainOrdered(gone, q, came, wake + move);
      JoinOrdered(gone + q[..wake + move], q[wake + move..], came, more);
    } else {
      assert gone + [] == gone;
      JoinOrdered(gone, here, came, more);
    }
  }

  /* ---------- Steps ---------- */

  /** A wait keeps the invariant if and only if it does not find its thread still queued. */
  lemma WaitKeepsIff(s: State, tid: nat, u: nat)
    requires Inv(s) && Legal(s, Wait(tid, u))
    ensures Inv(Step(s, Wait(tid, u))) <==> !InFutex(s.table, tid)
  {
    EnqueueUniqueIff(s.table, u, tid);
    if !InFutex(s.table, tid) {
      AppendMembers(s.table, u, [tid]);
      var s' := Step(s, Wait(tid, u));
      forall v: nat ensures Fifo(s', v) {
        assert Fifo(s, v);
        JoinFifo(s, u, [tid], v);
      }
    }
  }

  /** Of the ids taken off, those still waiting become woken and the others are lost. */
  lemma WokenGrows(woken: set<nat>, waiting: set<nat>, out: seq<nat>)
    requires NoDup(out) && forall x :: x in out ==> x !in woken
    ensures |woken + AsSet(out) * waiting| + |AsSet(out) - waiting| == |woken| + |out|
  {
    SizeOfNoDup(out);
    var all := AsSet(out);
    assert all == all * waiting + (all - waiting) && all * waiting !! all - waiting;
    assert woken !! all * waiting;
  }

  /** Membership and counts after the first `n` ids of `u` are taken off. */
  lemma WokeCounts(s: State, t: Table, u: nat, n: nat)
    requires Inv(s) && u in s.table && n <= |s.table[u]|
    requires forall x :: InFutex(t, x) <==> InFutex(s.table[u := s.table[u][n..]], x)
    ensures var s' := Woke(s, t, u, n); Members(s') && s'.wakes == s'.oks + s'.lost + |s'.woken|
  {
    var out := s.table[u][..n];
    DrainMembers(s.table, u, n);
    WokenGrows(s.woken, s.waiting, out);
  }

  lemma {:induction false} WakeDrains(s: State, u: nat, n: nat)
    requires Inv(s) && u in s.table && n <= |s.table[u]|
    ensures Inv(Woke(s, s.table[u := s.table[u][n..]], u, n))
  {
    hide Subseq;
    var t := s.table[u := s.table[u][n..]];
    var s' := Woke(s, t, u, n);
    DrainMembers(s.table, u, n);
    WokeCounts(s, t, u, n);
    forall v: nat ensures Fifo(s', v) {
      assert Fifo(s, v);
      DrainFifo(s, u, n, v);
    }
  }

  lemma {:induction false} WakeNobody(s: State, u: nat)
    requires Inv(s) && |QueueOf(s.table, u)| == 0
    ensures Inv(Woke(s, s.table, u, 0))
  {
    var s' := Woke(s, s.table, u, 0);
    assert QueueOf(s.table, u)[..0] == [] && AsSet([]) == {};
    assert s'.woken == s.woken && s'.lost == s.lost;
    forall v: nat ensures Fifo(s', v) {
      assert Fifo(s, v) && QueueOf(s'.left, v) == QueueOf(s.left, v);
    }
  }

  lemma WakeKeeps(s: State, u: nat, count: nat)
    requires Inv(s)
    ensures Inv(Step(s, WakeUp(u, count)))
  {
    if |QueueOf(s.table, u)| == 0 {
      WakeNobody(s, u);
    } else {
      WakeDrains(s, u, Min(count, |s.table[u]|));
    }
  }

  /** No waiter is lost on the way from one queue to the other. */
  lemma {:induction false} MoveKeeps(s: State, u: nat, wake: nat, u2: nat, move: nat)
    requires Inv(s) && Legal(s, Move(u, wake, u2, move))
    ensures Inv(Step(s, Move(u, wake, u2, move)))
    ensures Step(s, Move(u, wake, u2, move)).waiting == s.waiting
  {
    if u in s.table {
      var s' := Step(s, Move(u, wake, u2, move));
      RequeueMembers(s.table, u, wake, u2, move);
      WokeCounts(s, s'.table, u, wake);
      forall v: nat ensures Fifo(s', v) {
        assert Fifo(s, v);
        MoveFifo(s, u, wake, u2, move, v);
      }
    }
  }

  lemma PollKeeps(s: State, tid: nat, signalled: bool)
    requires Inv(s) && Legal(s, Poll(tid, signalled))
    ensures Inv(Step(s, Poll(tid, signalled)))
  {
    if InFutex(s.table, tid) {
      if signalled {
        var u :| u in s.table && tid in s.table[u] && Leave(s.table, tid) == s.table[u := Without(s.table[u], tid)];
        LeaveKeeps(s, tid, u);
      }
    } else {
      var s' := Step(s, Poll(tid, signalled));
      forall v: nat ensures Fifo(s', v) {
        assert Fifo(s, v);
      }
    }
  }

  lemma LeaveKeeps(s: State, tid: nat, u: nat)
    requires Inv(s) && u in s.table && tid in s.table[u]
    ensures Inv(s.(table := s.table[u := Without(s.table[u], tid)], waiting := s.waiting - {tid}))
  {
    var s' := s.(table := s.table[u := Without(s.table[u], tid)], waiting := s.waiting - {tid});
    LeaveMembers(s.table, tid, u);
    assert InFutex(s.table, tid);
    forall v: nat ensures Fifo(s', v) {
      assert Fifo(s, v);
      if v == u {
        LeaveOrdered(QueueOf(s.left, u), s.table[u], QueueOf(s.arrived, u), tid);
      }
    }
  }

  /**
    The three answers of a poll.  A thread off the queues is released with Ok; one that is queued
    and has a signal leaves the table and its wait; any other goes on waiting.
  */
  lemma PollOutcome(s: State, tid: nat, signalled: bool)
    requires Inv(s) && Legal(s, Poll(tid, signalled))
    ensures var s' := Step(s, Poll(tid, signalled));
      if tid in s.woken then
        s'.table == s.table && s'.oks == s.oks + 1 && s'.waiting == s.waiting - {tid} && s'.woken == s.woken - {tid}
      else if signalled then
        && (forall x :: InFutex(s'.table, x) <==> InFutex(s.table, x) && x != tid)
        && s'.oks == s.oks && s'.waiting == s.waiting - {tid} && s'.woken == s.woken
      else s' == s
  {
    if tid !in s.woken && signalled {
      var u :| u in s.table && tid in s.table[u] && Leave(s.table, tid) == s.table[u := Without(s.table[u], tid)];
      LeaveMembers(s.table, tid, u);
    }
  }

  /** A waiting thread among the first `count` of its queue, woken and then polled, gets its Ok. */
  lemma WakeReleases(s: State, u: nat, count: nat, k: nat, signalled: bool)
    requires Inv(s) && k < count && k < |QueueOf(s.table, u)| && QueueOf(s.table, u)[k] in s.waiting
    ensures var tid, s1 := s.table[u][k], Step(s, WakeUp(u, count));
      && s1.wakes == s.wakes + Min(count, |s.table[u]|)
      && Legal(s1, Poll(tid, signalled))
      && var s2 := Step(s1, Poll(tid, signalled));
         s2.oks == s.oks + 1 && tid !in s2.waiting && !InFutex(s2.table, tid)
  {
    var n, tid := Min(count, |s.table[u]|), s.table[u][k];
    DrainMembers(s.table, u, n);
    assert s.table[u][..n][k] == tid;
  }

  /** A wait that times out leaves its id behind in the queue. */
  lemma TimeoutLeavesId(s: State, tid: nat)
    requires Inv(s) && Legal(s, Timeout(tid))
    ensures var s' := Step(s, Timeout(tid)); Inv(s') && InFutex(s'.table, tid) && Legal(s', Wait(tid, 0))
    ensures var s' := Step(s, Timeout(tid)); forall u: nat :: !Unique(Enqueue(s'.table, u, tid))
  {
    var s' := Step(s, Timeout(tid));
    forall v: nat ensures Fifo(s', v) {
      assert Fifo(s, v);
    }
    forall u: nat ensures !Unique(Enqueue(s'.table, u, tid)) {
      EnqueueTwice(s'.table, u, tid);
    }
  }

  /* ---------- Whole runs ---------- */

  ghost predicate LegalRun(s: State, es: seq<Event>)
    decreases |es|
  {
    es != [] ==> Legal(s, es[0]) && LegalRun(Step(s, es[0]), es[1..])
  }

  ghost function Run(s: State, es: seq<Event>): State
    requires LegalRun(s, es)
    decreases |es|
  {
    if es == [] then s else Run(Step(s, es[0]), es[1..])
  }

  /** A wait that finds its thread still queued, left there by an earlier timeout. */
  ghost predicate StaleWait(s: State, e: Event) {
    e.Wait? && InFutex(s.table, e.tid)
  }

  ghost predicate NeverStale(s: State, es: seq<Event>)
    requires LegalRun(s, es)
    decreases |es|
  {
    es != [] ==> !StaleWait(s, es[0]) && NeverStale(Step(s, es[0]), es[1..])
  }

  ghost predicate AlwaysUnique(s: State, es: seq<Event>)
    requires LegalRun(s, es)
    decreases |es|
  {
    Unique(s.table) && (es != [] ==> AlwaysUnique(Step(s, es[0]), es[1..]))
  }

  lemma StepUnique(s: State, e: Event)
    requires Unique(s.table) && Legal(s, e) && !StaleWait(s, e)
    ensures Unique(Step(s, e).table)
  {
    match e {
      case Wait(tid, u) => EnqueueUniqueIff(s.table, u, tid);
      case WakeUp(u, count) =>
        if |QueueOf(s.table, u)| > 0 {
          DrainMembers(s.table, u, Min(count, |s.table[u]|));
        }
      case Move(u, wake, u2, move) =>
        if u in s.table {
          RequeueMembers(s.table, u, wake, u2, move);
        }
      case Poll(tid, signalled) =>
        if InFutex(s.table, tid) && signalled {
          var u :| u in s.table && tid in s.table[u] && Leave(s.table, tid) == s.table[u := Without(s.table[u], tid)];
          LeaveMembers(s.table, tid, u);
        }
      case Timeout(tid) =>
    }
  }

  /**
    Over every run, timeouts included, each thread is queued at most once at every point if and
    only if no wait finds its thread still queued.
  */
  lemma {:induction false} QueuedOnceIff(s: State, es: seq<Event>)
    requires Unique(s.table) && LegalRun(s, es)
    ensures AlwaysUnique(s, es) <==> NeverStale(s, es)
    decreases |es|
  {
    if es != [] {
      if StaleWait(s, es[0]) {
        EnqueueUniqueIff(s.table, es[0].uaddr, es[0].tid);
      } else {
        StepUnique(s, es[0]);
        QueuedOnceIff(Step(s, es[0]), es[1..]);
      }
    }
  }

  lemma StepKeeps(s: State, e: Event)
    requires Inv(s) && Legal(s, e) && !StaleWait(s, e)
    ensures Inv(Step(s, e))
  {
    match e {
      case Wait(tid, u) => WaitKeepsIff(s, tid, u);
      case WakeUp(u, count) => WakeKeeps(s, u, count);
      case Move(u, wake, u2, move) => MoveKeeps(s, u, wake, u2, move);
      case Poll(tid, signalled) => PollKeeps(s, tid, signalled);
      case Timeout(tid) => TimeoutLeavesId(s, tid);
    }
  }

  /**
    Over every such run: wake counts add up to the waits released with Ok, the woken threads not
    yet polled and the wakes lost on ids of timed-out waits, and each address serves its arrivals
    in order.
  */
  lemma {:induction false} RunKeepsInv(s: State, es: seq<Event>)
    requires Inv(s) && LegalRun(s, es) && NeverStale(s, es)
    ensures var t := Run(s, es); Inv(t) && Unique(t.table) && t.wakes == t.oks + |t.woken| + t.lost
    ensures forall u: nat :: Fifo(Run(s, es), u)
    decreases |es|
  {
    if es != [] {
      StepKeeps(s, es[0]);
      RunKeepsInv(Step(s, es[0]), es[1..]);
    }
  }

  /** Every queued id belongs to a thread that is waiting. */
  ghost predicate NoneLeftBehind(s: State) {
    forall x :: InFutex(s.table, x) ==> x in s.waiting
  }

  lemma {:induction false} WakeLeavesNone(s: State, u: nat, count: nat)
    requires Inv(s) && NoneLeftBehind(s)
    ensures var s' := Step(s, WakeUp(u, count)); NoneLeftBehind(s') && s'.lost == s.lost
  {
    if |QueueOf(s.table, u)| > 0 {
      NoneLost(s, u, Min(count, |s.table[u]|));
    } else {
      assert QueueOf(s.table, u)[..0] == [] && AsSet([]) - s.waiting == {};
    }
  }

  lemma {:induction false} MoveLeavesNone(s: State, u: nat, wake: nat, u2: nat, move: nat)
    requires Inv(s) && NoneLeftBehind(s) && Legal(s, Move(u, wake, u2, move))
    ensures var s' := Step(s, Move(u, wake, u2, move)); NoneLeftBehind(s') && s'.lost == s.lost
  {
    if u in s.table {
      NoneLost(s, u, wake);
      RequeueMembers(s.table, u, wake, u2, move);
    }
  }

  lemma {:induction false} StepLeavesNone(s: State, e: Event)
    requires Inv(s) && Legal(s, e) && NoneLeftBehind(s) && !e.Timeout?
    ensures !StaleWait(s, e) && NoneLeftBehind(Step(s, e)) && Step(s, e).lost == s.lost
  {
    match e {
      case Wait(tid, u) => AppendMembers(s.table, u, [tid]);
      case WakeUp(u, count) => WakeLeavesNone(s, u, count);
      case Move(u, wake, u2, move) => MoveLeavesNone(s, u, wake, u2, move);
      case Poll(tid, signalled) =>
        if InFutex(s.table, tid) && signalled {
          var u :| u in s.table && tid in s.table[u] && Leave(s.table, tid) == s.table[u := Without(s.table[u], tid)];
          LeaveMembers(s.table, tid, u);
        }
    }
  }

  lemma NoneLost(s: State, u: nat, n: nat)
    requires Unique(s.table) && NoneLeftBehind(s) && u in s.table && n <= |s.table[u]|
    ensures AsSet(s.table[u][..n]) - s.waiting == {}
    ensures forall x :: InFutex(s.table[u := s.table[u][n..]], x) ==> x in s.waiting
  {
    DrainMembers(s.table, u, n);
  }

  /** Without timeouts no id is left behind: the waits released with Ok account for every wake. */
  lemma {:induction false} NoTimeoutNoLoss(s: State, es: seq<Event>)
    requires Inv(s) && NoneLeftBehind(s) && s.lost == 0 && LegalRun(s, es)
    requires forall e :: e in es ==> !e.Timeout?
    ensures NeverStale(s, es)
    ensures var t := Run(s, es); Inv(t) && NoneLeftBehind(t) && t.wakes == t.oks + |t.woken|
    decreases |es|
  {
    if es != [] {
      assert es[0] in es && forall e :: e in es[1..] ==> e in es;
      StepLeavesNone(s, es[0]);
      StepKeeps(s, es[0]);
      NoTimeoutNoLoss(Step(s, es[0]), es[1..]);
    }
  }

  function Empty(): State {
    State(map[], {}, {}, 0, 0, 0, map[], map[])
  }

  /** What the theorems about runs say of every run from the empty table. */
  lemma {:induction false} FromEmpty(es: seq<Event>)
    requires LegalRun(Empty(), es)
    ensures AlwaysUnique(Empty(), es) <==> NeverStale(Empty(), es)
    ensures NeverStale(Empty(), es) ==> Inv(Run(Empty(), es))
    ensures (forall e :: e in es ==> !e.Timeout?) ==> var t := Run(Empty(), es); t.wakes == t.oks + |t.woken|
  {
    EmptyTable();
    QueuedOnceIff(Empty(), es);
    if NeverStale(Empty(), es) {
      RunKeepsInv(Empty(), es);
    }
    if forall e :: e in es ==> !e.Timeout? {
      NoTimeoutNoLoss(Empty(), es);
    }
  }

  lemma EmptyTable()
    ensures Inv(Empty()) && NoneLeftBehind(Empty())
  {
  }

  lemma RunCons(s: State, e: Event, es: seq<Event>)
    requires Legal(s, e) && LegalRun(Step(s, e), es)
    ensures LegalRun(s, [e] + es) && Run(s, [e] + es) == Run(Step(s, e), es)
  {
    assert ([e] + es)[1..] == es;
  }

  /** From the empty table: a wait that times out and a second one leave the id queued twice. */
  lemma TimeoutQueuesTwice(u: nat, tid: nat)
    ensures var es := [Wait(tid, u), Timeout(tid), Wait(tid, u)];
      LegalRun(Empty(), es) && QueueOf(Run(Empty(), es).table, u) == [tid, tid] && !Unique(Run(Empty(), es).table)
  {
    var s1 := Step(Empty(), Wait(tid, u));
    assert QueueOf(Empty().table, u) + [tid] == [tid];
    assert s1.table[u] == [tid] && InFutex(s1.table, tid);
    var s2 := Step(s1, Timeout(tid));
    var s3 := Step(s2, Wait(tid, u));
    assert s3.table[u] == [tid] + [tid];
    EnqueueTwice(s2.table, u, tid);
    var tail := [Wait(tid, u)];
    RunCons(s2, Wait(tid, u), []);
    assert tail + [] == tail;
    RunCons(s1, Timeout(tid), tail);
    RunCons(Empty(), Wait(tid, u), [Timeout(tid)] + tail);
    assert [Wait(tid, u)] + ([Timeout(tid)] + tail) == [Wait(tid, u), Timeout(tid), Wait(tid, u)];
  }

  /**
    One waiter, to be woken, and any number to move: `drain` panics past the end of the queue,
    where futex(2) would wake and move whom it finds.
  */
  lemma RequeuePanicExample(u: nat, tid: nat, u2: nat, move: nat)
    requires move > 0
    ensures var s := Empty();
      && LegalRun(s, [Wait(tid, u)])
      && Requeue(Run(s, [Wait(tid, u)]).table, u, 1, u2, move).None?
  {
    var s1 := Step(Empty(), Wait(tid, u));
    assert QueueOf(Empty().table, u) + [tid] == [tid];
    RunCons(Empty(), Wait(tid, u), []);
    assert [Wait(tid, u)] + [] == [Wait(tid, u)];
    assert s1.table[u] == [tid];
  }

  /* ---------- The table, updated in place ---------- */

  class FutexTable {
    var table: Table

    /** `in_futex`: is the thread in any queue? */
    method IsQueued(tid: nat) returns (found: bool)
      ensures found == InFutex(table, tid)
    {
      var keys := table.Keys;
      found := false;
      while keys != {}
        invariant keys <= table.Keys && !found
        invariant forall u :: u in table && u !in keys ==> tid !in table[u]
        decreases |keys|
      {
        var u :| u in keys;
        if tid in table[u] {
          return true;
        }
        keys := keys - {u};
      }
    }

    method Join(uaddr: nat, tid: nat)
      modifies this
      ensures table == Enqueue(old(table), uaddr, tid)
    {
      if uaddr in table {
        table := table[uaddr := table[uaddr] + [tid]];
      } else {
        assert [] + [tid] == [tid];
        table := table[uaddr := [tid]];
      }
    }

    /**
      `WaitFutex::poll`: ready with Ok off the queues, ready with EINTR and off its queue when a
      signal has come, pending otherwise.
    */
    method PollWait(tid: nat, signalled: bool) returns (done: bool, interrupted: bool)
      modifies this
      ensures done <==> !InFutex(old(table), tid) || signalled
      ensures interrupted <==> InFutex(old(table), tid) && signalled
      ensures !interrupted ==> table == old(table)
      ensures interrupted && Unique(old(table)) ==>
        Unique(table) && forall x :: InFutex(table, x) <==> InFutex(old(table), x) && x != tid
    {
      done, interrupted := true, false;
      var keys := table.Keys;
      while keys != {}
        invariant keys <= table.Keys && table == old(table) && done && !interrupted
        invariant forall u :: u in table && u !in keys ==> tid !in table[u]
        decreases |keys|
      {
        var u :| u in keys;
        if tid in table[u] {
          if !signalled {
            return false, false;
          }
          if Unique(table) {
            LeaveMembers(table, tid, u);
          }
          table := table[u := Without(table[u], tid)];
          return true, true;
        }
        keys := keys - {u};
      }
    }

    /** The oldest waiters go, in order, and no other queue is touched. */
    method FutexWake(uaddr: nat, count: nat) returns (woke: nat)
      modifies this
      ensures (table, woke) == Wake(old(table), uaddr, count)
      ensures woke == Min(count, |QueueOf(old(table), uaddr)|)
      ensures QueueOf(table, uaddr) == QueueOf(old(table), uaddr)[woke..]
      ensures forall v :: v != uaddr ==> QueueOf(table, v) == QueueOf(old(table), v)
    {
      var size := if uaddr in table then |table[uaddr]| else 0;
      if size == 0 {
        return 0;
      }
      woke := Min(count, size);
      table := table[uaddr := table[uaddr][woke..]];
    }

    /** Two drains and an append; `None` where a drain would run past the queue. */
    method FutexRequeue(uaddr: nat, wake: nat, uaddr2: nat, move: nat) returns (woke: Option<nat>)
      modifies this
      ensures woke.None? <==> uaddr in old(table) && wake + move > |old(table)[uaddr]|
      ensures woke.Some? ==> Requeue(old(table), uaddr, wake, uaddr2, move) == Some((table, woke.value))
      ensures woke.Some? && Unique(old(table)) ==> woke.value == |Gone(old(table), table)|
    {
      hide Unique, Gone;
      if Requeue(table, uaddr, wake, uaddr2, move).Some? {
        RequeueWakes(table, uaddr, wake, uaddr2, move);
      }
      if uaddr !in table {
        return Some(0);
      }
      var q := table[uaddr];
      if wake > |q| {
        return None;
      }
      table := table[uaddr := q[wake..]];
      if move > |table[uaddr]| {
        return None;
      }
      var moved := table[uaddr][..move];
      table := table[uaddr := table[uaddr][move..]];
      if uaddr2 !in table {
        table := table[uaddr2 := []];
      }
      table := table[uaddr2 := table[uaddr2] + moved];
      assert moved == q[wake..wake + move] && q[wake..][move..] == q[wake + move..];
      ghost var drained := old(table)[uaddr := q[wake + move..]];
      assert table == drained[uaddr2 := QueueOf(drained, uaddr2) + moved];
      return Some(wake);
    }
  }
}
