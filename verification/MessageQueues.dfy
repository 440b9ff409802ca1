/** The System V message queue (kernel/src/syscall/shm.rs). */
module MessageQueues {
  import opened Wrappers
  import opened Bytes

  const I64_MIN: int := -0x8000_0000_0000_0000

  type Int64 = x: int | I64_MIN <= x < -I64_MIN

  datatype Message = Message(mtype: Int64, mtext: seq<Byte>)

  const MAX_BYTES: nat := 16384
  const MAX_MESSAGES: nat := 40

  datatype Queue = Queue(messages: seq<Message>, currentBytes: nat)

  /* ---------- Sending and choosing ---------- */

  predicate CanSend(q: Queue, size: nat) {
    |q.messages| < MAX_MESSAGES && q.currentBytes + size <= MAX_BYTES
  }

  function Send(q: Queue, m: Message): Queue {
    if CanSend(q, |m.mtext|) then Queue(q.messages + [m], q.currentBytes + |m.mtext|) else q
  }

  /** The bound a negative selector stands for. */
  function Negated(sel: Int64): int {
    0 - (sel as int)
  }

  /** The same in wrapping 64-bit arithmetic, as the search computes it. */
  function Bound(sel: Int64): Int64 {
    if sel == I64_MIN then I64_MIN else -sel
  }

  /** The messages a selector admits, when a negative one stands for types up to `bound`. */
  predicate Admits(m: Message, sel: Int64, except: bool, bound: int) {
    if sel == 0 then true
    else if sel < 0 then m.mtype <= bound
    else if except then m.mtype != sel
    else m.mtype == sel
  }

  predicate Eligible(m: Message, sel: Int64, except: bool) {
    Admits(m, sel, except, Negated(sel))
  }

  function First(ms: seq<Message>, sel: Int64, except: bool, i: nat): Option<nat>
    decreases |ms| - i
  {
    if i >= |ms| then None
    else if Admits(ms[i], sel, except, Bound(sel)) then Some(i)
    else First(ms, sel, except, i + 1)
  }

  /** Of the first `n` messages, the earliest of those with the least eligible type. */
  function Least(ms: seq<Message>, sel: Int64, n: nat): (r: Option<nat>)
    requires n <= |ms|
    ensures r.Some? ==> r.value < n
  {
    if n == 0 then None
    else
      var best := Least(ms, sel, n - 1);
      if ms[n - 1].mtype > Bound(sel) then best
      else if best.Some? && ms[best.value].mtype <= ms[n - 1].mtype then best
      else Some(n - 1)
  }

  function Pick(ms: seq<Message>, sel: Int64, except: bool): Option<nat> {
    if sel < 0 then Least(ms, sel, |ms|) else First(ms, sel, except, 0)
  }

  function Removed(ms: seq<Message>, p: nat): seq<Message>
    requires p < |ms|
  {
    ms[..p] + ms[p + 1..]
  }

  /** The last branch is never taken on a queue whose byte count is right. */
  function Receive(q: Queue, sel: Int64, except: bool): (Queue, Option<Message>) {
    match Pick(q.messages, sel, except)
    case None => (q, None)
    case Some(p) =>
      if p < |q.messages| && |q.messages[p].mtext| <= q.currentBytes then
        (Queue(Removed(q.messages, p), q.currentBytes - |q.messages[p].mtext|), Some(q.messages[p]))
      else (q, None)
  }

  /* ---------- What is chosen ---------- */

  /** The message to take among those admitted: first in line, or lowest type and then first. */
  ghost predicate Chosen(ms: seq<Message>, sel: Int64, except: bool, bound: int, p: nat) {
    && p < |ms| && Admits(ms[p], sel, except, bound)
    && (forall i :: 0 <= i < |ms| && Admits(ms[i], sel, except, bound) ==>
          if sel >= 0 then p <= i
          else ms[p].mtype < ms[i].mtype || (ms[p].mtype == ms[i].mtype && p <= i))
  }

  /** `pick` is the message to take, or `None` because none is admitted. */
  ghost predicate Picks(ms: seq<Message>, sel: Int64, except: bool, bound: int, pick: Option<nat>) {
    match pick
    case None => forall i :: 0 <= i < |ms| ==> !Admits(ms[i], sel, except, bound)
    case Some(p) => Chosen(ms, sel, except, bound, p)
  }

  /** The rule of msgrcv in POSIX.1-2017: a negative selector admits types up to its absolute value. */
  ghost predicate FollowsRule(ms: seq<Message>, sel: Int64, except: bool, pick: Option<nat>) {
    Picks(ms, sel, except, Negated(sel), pick)
  }

  lemma {:induction false} FirstIsChosen(ms: seq<Message>, sel: Int64, except: bool, i: nat)
    requires i <= |ms| && sel >= 0
    requires forall j :: 0 <= j < i ==> !Admits(ms[j], sel, except, Bound(sel))
    ensures Picks(ms, sel, except, Bound(sel), First(ms, sel, except, i))
    decreases |ms| - i
  {
    if i < |ms| && !Admits(ms[i], sel, except, Bound(sel)) {
      FirstIsChosen(ms, sel, except, i + 1);
    }
  }

  lemma {:induction false} LeastIsChosen(ms: seq<Message>, sel: Int64, except: bool, n: nat)
    requires n <= |ms| && sel < 0
    ensures Picks(ms[..n], sel, except, Bound(sel), Least(ms, sel, n))
  {
    if n > 0 {
      LeastIsChosen(ms, sel, except, n - 1);
      assert forall j :: 0 <= j < n - 1 ==> ms[..n][j] == ms[..n - 1][j];
    }
  }

  /** The search finds a message exactly when one is admitted, and takes the right one of those. */
  lemma PickIsChosen(ms: seq<Message>, sel: Int64, except: bool)
    ensures Picks(ms, sel, except, Bound(sel), Pick(ms, sel, except))
  {
    if sel < 0 {
      LeastIsChosen(ms, sel, except, |ms|);
      assert ms[..|ms|] == ms;
    } else {
      FirstIsChosen(ms, sel, except, 0);
    }
  }

  lemma ChosenUnique(ms: seq<Message>, sel: Int64, except: bool, bound: int, p: nat, r: nat)
    requires Chosen(ms, sel, except, bound, p) && Chosen(ms, sel, except, bound, r)
    ensures p == r
  {
    assert Admits(ms[p], sel, except, bound) && Admits(ms[r], sel, except, bound);
  }

  /** The one selector whose negation wraps: nothing above the least type is admitted any more. */
  predicate Misread(ms: seq<Message>, sel: Int64) {
    sel == I64_MIN && ms != [] && forall i :: 0 <= i < |ms| ==> ms[i].mtype > I64_MIN
  }

  /**
    A receive follows the rule if and only if the selector is not the least 64-bit number, or the
    queue is empty, or the least type itself is stored and is the one to take anyway.
  */
  lemma FollowsRuleIff(ms: seq<Message>, sel: Int64, except: bool)
    ensures FollowsRule(ms, sel, except, Pick(ms, sel, except)) <==> !Misread(ms, sel)
  {
    PickIsChosen(ms, sel, except);
    if Misread(ms, sel) {
      assert Admits(ms[0], sel, except, Negated(sel));
    }
  }

  /** A message with this type stands at `p`, and none before it satisfies the same test. */
  ghost predicate FirstOf(ms: seq<Message>, p: nat, test: int -> bool) {
    p < |ms| && test(ms[p].mtype) && forall i :: 0 <= i < p ==> !test(ms[i].mtype)
  }

  /**
    Which message a receive takes, selector by selector: the oldest of all; the oldest of one type;
    the oldest not of that type; or the oldest of the least type up to the selector's absolute value.
  */
  lemma ReceiveRule(ms: seq<Message>, sel: Int64, except: bool)
    ensures match Pick(ms, sel, except)
      case Some(p) =>
        && (sel == 0 ==> p == 0 && ms != [])
        && (sel > 0 && !except ==> FirstOf(ms, p, ty => ty == sel))
        && (sel > 0 && except ==> FirstOf(ms, p, ty => ty != sel))
        && (sel < 0 ==>
              p < |ms| && ms[p].mtype <= Bound(sel) && FirstOf(ms, p, ty => ty == ms[p].mtype)
              && forall i :: 0 <= i < |ms| ==> ms[p].mtype <= ms[i].mtype)
      case None =>
        && (sel == 0 ==> ms == [])
        && (sel > 0 && !except ==> forall i :: 0 <= i < |ms| ==> ms[i].mtype != sel)
        && (sel > 0 && except ==> forall i :: 0 <= i < |ms| ==> ms[i].mtype == sel)
        && (I64_MIN < sel < 0 ==> forall i :: 0 <= i < |ms| ==> ms[i].mtype > -sel)
  {
    PickIsChosen(ms, sel, except);
  }

  /** A stored message that the rule would hand out, and the search does not find. */
  lemma MisreadExample(m: Message)
    requires m.mtype > I64_MIN
    ensures Pick([m], I64_MIN, false) == None && Eligible(m, I64_MIN, false)
    ensures !FollowsRule([m], I64_MIN, false, Pick([m], I64_MIN, false))
  {
    FollowsRuleIff([m], I64_MIN, false);
    PickIsChosen([m], I64_MIN, false);
  }

  /** Whatever the selector, no earlier message has the type of the one chosen. */
  lemma ChosenLeadsItsType(ms: seq<Message>, sel: Int64, except: bool, bound: int, p: nat)
    requires Chosen(ms, sel, except, bound, p)
    ensures forall i :: 0 <= i < p ==> ms[i].mtype != ms[p].mtype
  {
    forall i | 0 <= i < p ensures ms[i].mtype != ms[p].mtype {
      if ms[i].mtype == ms[p].mtype {
        assert Admits(ms[i], sel, except, bound);
      }
    }
  }

  /* ---------- Order and accounting ---------- */

  function OfType(ms: seq<Message>, ty: int): seq<Message> {
    if ms == [] then []
    else One(ms[0], ty) + OfType(ms[1..], ty)
  }

  function TextBytes(ms: seq<Message>): nat {
    if ms == [] then 0 else |ms[0].mtext| + TextBytes(ms[1..])
  }

  function One(m: Message, ty: int): seq<Message> {
    if m.mtype == ty then [m] else []
  }

  lemma {:induction false} OfTypeConcat(xs: seq<Message>, ys: seq<Message>, ty: int)
    ensures OfType(xs + ys, ty) == OfType(xs, ty) + OfType(ys, ty)
  {
    if xs == [] {
      assert xs + ys == ys;
    } else {
      var all, x, rest := xs + ys, xs[0], xs[1..];
      assert all[0] == x && all[1..] == rest + ys;
      OfTypeConcat(rest, ys, ty);
      calc {
        OfType(all, ty);
        One(x, ty) + OfType(rest + ys, ty);
        One(x, ty) + (OfType(rest, ty) + OfType(ys, ty));
        { Regroup(One(x, ty), OfType(rest, ty), OfType(ys, ty)); }
        (One(x, ty) + OfType(rest, ty)) + OfType(ys, ty);
        OfType(xs, ty) + OfType(ys, ty);
      }
    }
  }

  lemma {:induction false} TextBytesConcat(xs: seq<Message>, ys: seq<Message>)
    ensures TextBytes(xs + ys) == TextBytes(xs) + TextBytes(ys)
  {
    if xs == [] {
      assert xs + ys == ys;
    } else {
      assert (xs + ys)[0] == xs[0] && (xs + ys)[1..] == xs[1..] + ys;
      TextBytesConcat(xs[1..], ys);
    }
  }

  lemma {:induction false} OfTypeNone(ms: seq<Message>, ty: int)
    requires forall i :: 0 <= i < |ms| ==> ms[i].mtype != ty
    ensures OfType(ms, ty) == []
  {
    if ms != [] {
      OfTypeNone(ms[1..], ty);
    }
  }

  lemma OfTypeOne(m: Message, ty: int)
    ensures OfType([m], ty) == One(m, ty)
  {
    assert [m][1..] == [];
  }

  lemma TextBytesOne(m: Message)
    ensures TextBytes([m]) == |m.mtext|
  {
    assert [m][1..] == [];
  }

  lemma Swapped(a: seq<Message>, m: seq<Message>, b: seq<Message>)
    requires a == [] || m == []
    ensures a + (m + b) == m + (a + b)
  {
  }

  /** Taking out the first of its type: its type loses its head, the other types nothing. */
  lemma {:induction false} RemoveLeader(ms: seq<Message>, p: nat, ty: int)
    requires p < |ms| && forall i :: 0 <= i < p ==> ms[i].mtype != ms[p].mtype
    ensures OfType(ms, ty) == One(ms[p], ty) + OfType(Removed(ms, p), ty)
  {
    var a, b, m := ms[..p], ms[p + 1..], [ms[p]];
    assert ms == a + (m + b);
    OfTypeConcat(a, m + b, ty);
    OfTypeConcat(m, b, ty);
    OfTypeConcat(a, b, ty);
    OfTypeOne(ms[p], ty);
    if ty == ms[p].mtype {
      OfTypeNone(a, ty);
    }
    Swapped(OfType(a, ty), One(ms[p], ty), OfType(b, ty));
  }

  /** Taking out one message: its bytes and the message itself go, nothing else. */
  lemma {:induction false} RemoveOne(ms: seq<Message>, p: nat)
    requires p < |ms|
    ensures TextBytes(ms) == |ms[p].mtext| + TextBytes(Removed(ms, p))
    ensures multiset(ms) == multiset{ms[p]} + multiset(Removed(ms, p))
  {
    var a, b, m := ms[..p], ms[p + 1..], [ms[p]];
    assert ms == a + (m + b);
    TextBytesConcat(a, m + b);
    TextBytesConcat(m, b);
    TextBytesConcat(a, b);
    TextBytesOne(ms[p]);
  }

  /* ---------- Runs ---------- */

  /** The queue with everything it has accepted and everything it has handed out. */
  datatype State = State(q: Queue, sent: seq<Message>, received: seq<Message>)

  datatype Call = CallSend(m: Message) | CallReceive(sel: Int64, except: bool)

  function Step(s: State, c: Call): State {
    match c
    case CallSend(m) =>
      State(Send(s.q, m), if CanSend(s.q, |m.mtext|) then s.sent + [m] else s.sent, s.received)
    case CallReceive(sel, except) =>
      var (q, got) := Receive(s.q, sel, except);
      State(q, s.sent, if got.Some? then s.received + [got.value] else s.received)
  }

  function Run(s: State, calls: seq<Call>): State
    decreases |calls|
  {
    if calls == [] then s else Run(Step(s, calls[0]), calls[1..])
  }

  ghost predicate Sound(q: Queue) {
    q.currentBytes == TextBytes(q.messages) <= MAX_BYTES && |q.messages| <= MAX_MESSAGES
  }

  /** Messages of one type come out in the order in which they went in. */
  ghost predicate InOrder(s: State, ty: int) {
    OfType(s.received, ty) + OfType(s.q.messages, ty) == OfType(s.sent, ty)
  }

  ghost predicate Inv(s: State) {
    && Sound(s.q)
    && multiset(s.received) + multiset(s.q.messages) == multiset(s.sent)
    && (forall ty: int :: InOrder(s, ty))
  }

  lemma {:induction false} SendOrder(s: State, m: Message, ty: int)
    requires InOrder(s, ty)
    ensures InOrder(Step(s, CallSend(m)), ty)
  {
    if CanSend(s.q, |m.mtext|) {
      OfTypeConcat(s.q.messages, [m], ty);
      OfTypeConcat(s.sent, [m], ty);
      Regroup(OfType(s.received, ty), OfType(s.q.messages, ty), OfType([m], ty));
    }
  }

  lemma Regroup(a: seq<Message>, b: seq<Message>, c: seq<Message>)
    ensures a + (b + c) == (a + b) + c
  {
  }

  lemma SendKeeps(s: State, m: Message)
    requires Inv(s)
    ensures Inv(Step(s, CallSend(m)))
  {
    var t := Step(s, CallSend(m));
    if CanSend(s.q, |m.mtext|) {
      TextBytesConcat(s.q.messages, [m]);
      TextBytesOne(m);
    }
    forall ty: int ensures InOrder(t, ty) {
      assert InOrder(s, ty);
      SendOrder(s, m, ty);
    }
  }

  /** A receive on a sound queue removes exactly the chosen message, or there is none to choose. */
  lemma ReceiveTakes(q: Queue, sel: Int64, except: bool)
    requires Sound(q)
    ensures var (q', got) := Receive(q, sel, except);
      && Sound(q')
      && match Pick(q.messages, sel, except)
         case None =>
           && q' == q && got == None
           && forall j :: 0 <= j < |q.messages| ==> !Admits(q.messages[j], sel, except, Bound(sel))
         case Some(p) =>
           && Chosen(q.messages, sel, except, Bound(sel), p)
           && got == Some(q.messages[p]) && q'.messages == Removed(q.messages, p)
  {
    PickIsChosen(q.messages, sel, except);
    var pick := Pick(q.messages, sel, except);
    if pick.Some? {
      RemoveOne(q.messages, pick.value);
    }
  }

  lemma {:induction false} ReceiveOrder(s: State, sel: Int64, except: bool, p: nat, ty: int)
    requires InOrder(s, ty) && Chosen(s.q.messages, sel, except, Bound(sel), p)
    ensures OfType(s.received + [s.q.messages[p]], ty) + OfType(Removed(s.q.messages, p), ty) == OfType(s.sent, ty)
  {
    var ms := s.q.messages;
    ChosenLeadsItsType(ms, sel, except, Bound(sel), p);
    RemoveLeader(ms, p, ty);
    OfTypeConcat(s.received, [ms[p]], ty);
    OfTypeOne(ms[p], ty);
    Regroup(OfType(s.received, ty), One(ms[p], ty), OfType(Removed(ms, p), ty));
  }

  lemma ReceiveCounts(s: State, sel: Int64, except: bool, p: nat)
    requires Inv(s) && Chosen(s.q.messages, sel, except, Bound(sel), p)
    ensures multiset(s.received + [s.q.messages[p]]) + multiset(Removed(s.q.messages, p)) == multiset(s.sent)
  {
    RemoveOne(s.q.messages, p);
  }

  lemma ReceiveKeeps(s: State, sel: Int64, except: bool)
    requires Inv(s)
    ensures Inv(Step(s, CallReceive(sel, except)))
  {
    var t := Step(s, CallReceive(sel, except));
    ReceiveTakes(s.q, sel, except);
    var pick := Pick(s.q.messages, sel, except);
    if pick.Some? {
      ReceiveCounts(s, sel, except, pick.value);
    }
    forall ty: int ensures InOrder(t, ty) {
      assert InOrder(s, ty);
      if pick.Some? {
        ReceiveOrder(s, sel, except, pick.value, ty);
      }
    }
  }

  /**
    Over every mix of sends and receives: what was accepted is what was handed out plus what is
    stored, each type keeps its order, and the byte count is exact and within both limits.
  */
  lemma {:induction false} RunKeepsInv(s: State, calls: seq<Call>)
    requires Inv(s)
    ensures Inv(Run(s, calls))
    decreases |calls|
  {
    if calls != [] {
      match calls[0] {
        case CallSend(m) => SendKeeps(s, m);
        case CallReceive(sel, except) => ReceiveKeeps(s, sel, except);
      }
      RunKeepsInv(Step(s, calls[0]), calls[1..]);
    }
  }

  /** A new queue, and hence every queue ever reached. */
  lemma FromNew(calls: seq<Call>)
    ensures Inv(Run(State(Queue([], 0), [], []), calls))
  {
    var s := State(Queue([], 0), [], []);
    assert forall ty: int :: InOrder(s, ty);
    RunKeepsInv(s, calls);
  }

  /** A message is accepted exactly when 39 or fewer are stored and their text and its own fit 16 KiB. */
  lemma AcceptedIff(q: Queue, m: Message)
    requires Sound(q)
    ensures if |q.messages| <= 39 && TextBytes(q.messages) + |m.mtext| <= 16384
      then Send(q, m).messages == q.messages + [m] && Sound(Send(q, m)) else Send(q, m) == q
  {
    TextBytesConcat(q.messages, [m]);
    TextBytesOne(m);
  }

  /* ---------- The queue, updated in place ---------- */

  class MessageQueue {
    var messages: seq<Message>
    var currentBytes: nat

    function View(): Queue
      reads this
    {
      Queue(messages, currentBytes)
    }

    constructor ()
      ensures View() == Queue([], 0) && Sound(View())
    {
      messages, currentBytes := [], 0;
    }

    method SendMessage(mtype: Int64, data: seq<Byte>) returns (ok: bool)
      requires Sound(View())
      modifies this
      ensures View() == Send(old(View()), Message(mtype, data)) && ok == CanSend(old(View()), |data|)
      ensures Sound(View())
      ensures ok <==> |old(messages)| <= 39 && TextBytes(old(messages)) + |data| <= 16384
      ensures messages == if ok then old(messages) + [Message(mtype, data)] else old(messages)
    {
      ok := CanSend(View(), |data|);
      if ok {
        TextBytesConcat(messages, [Message(mtype, data)]);
        TextBytesOne(Message(mtype, data));
        currentBytes := currentBytes + |data|;
        messages := messages + [Message(mtype, data)];
      }
    }

    method Position(sel: Int64, except: bool) returns (pos: Option<nat>)
      requires sel >= 0
      ensures pos == Pick(messages, sel, except)
    {
      var i := 0;
      while i < |messages|
        invariant i <= |messages|
        invariant First(messages, sel, except, 0) == First(messages, sel, except, i)
      {
        if Admits(messages[i], sel, except, Bound(sel)) {
          return Some(i);
        }
        i := i + 1;
      }
      return None;
    }

    method LeastPosition(sel: Int64, except: bool) returns (pos: Option<nat>)
      requires sel < 0
      ensures pos == Pick(messages, sel, except)
    {
      pos := None;
      for i := 0 to |messages|
        invariant pos == Least(messages, sel, i)
      {
        if messages[i].mtype <= Bound(sel) {
          if pos.None? || messages[i].mtype < messages[pos.value].mtype {
            pos := Some(i);
          }
        }
      }
    }

    method ReceiveMessage(sel: Int64, except: bool) returns (got: Option<Message>)
      requires Sound(View())
      modifies this
      ensures (View(), got) == Receive(old(View()), sel, except)
      ensures Sound(View())
    {
      ReceiveTakes(View(), sel, except);
      PickIsChosen(messages, sel, except);
      var pos;
      if sel < 0 {
        pos := LeastPosition(sel, except);
      } else {
        pos := Position(sel, except);
      }
      if pos.None? {
        return None;
      }
      var msg := messages[pos.value];
      messages := messages[..pos.value] + messages[pos.value + 1..];
      currentBytes := currentBytes - |msg.mtext|;
      return Some(msg);
    }
  }
}
