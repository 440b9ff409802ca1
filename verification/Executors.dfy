/**
  The cooperative executor on one hart (crates/executor/src/executor.rs,
  crates/executor/src/thread.rs).  What a poll does is given by its effect: the futures it spawns,
  in order, and whether it is ready.
*/
module Executors {
  import opened Wrappers

  /** A boxed future, named by the order of creation, with the id of its task. */
  datatype Item = Item(future: nat, task: nat)

  /** `spawn` brings its own task; `spawn_blank` allocates a new task id. */
  datatype Spawn = SpawnTask(task: nat) | SpawnBlank

  datatype Effect = Effect(spawns: seq<Spawn>, ready: bool)

  /** `made` futures have been boxed so far, `done` are the finished ones, `polled` logs every poll. */
  datatype State = State(
    queue: seq<Item>,
    taskMap: set<nat>,
    lastId: nat,
    current: Option<nat>,
    made: nat,
    done: seq<nat>,
    polled: seq<Item>
  )

  /* ---------- Operations ---------- */

  function SpawnOne(s: State, sp: Spawn): State {
    var id := if sp.SpawnBlank? then s.lastId + 1 else sp.task;
    s.(queue := s.queue + [Item(s.made, id)], made := s.made + 1, taskMap := s.taskMap + {id},
       lastId := if sp.SpawnBlank? then id else s.lastId)
  }

  function SpawnAll(s: State, sps: seq<Spawn>): State
    decreases |sps|
  {
    if sps == [] then s else SpawnAll(SpawnOne(s, sps[0]), sps[1..])
  }

  /** `run_ready_task`: take the head, poll it, and put it at the end unless it is ready. */
  function Poll(s: State, e: Effect): State {
    if s.queue == [] then s
    else
      var it := s.queue[0];
      var polling := s.(queue := s.queue[1..], current := Some(it.task), polled := s.polled + [it]);
      var after := SpawnAll(polling, e.spawns);
      if e.ready then after.(done := after.done + [it.future])
      else after.(queue := after.queue + [it])
  }

  /** What happens on the hart: a turn of the loop, or a spawn from outside it. */
  datatype Event = Turn(e: Effect) | Outside(sp: Spawn)

  function Step(s: State, ev: Event): State {
    match ev
    case Turn(e) => Poll(s, e)
    case Outside(sp) => SpawnOne(s, sp)
  }

  function Run(s: State, evs: seq<Event>): State
    decreases |evs|
  {
    if evs == [] then s else Run(Step(s, evs[0]), evs[1..])
  }

  /* ---------- Nothing lost, nothing twice ---------- */

  function Futures(q: seq<Item>): multiset<nat> {
    if q == [] then multiset{} else multiset{q[0].future} + Futures(q[1..])
  }

  /** One copy of each name below `n`. */
  function Names(n: nat): multiset<nat> {
    if n == 0 then multiset{} else Names(n - 1) + multiset{n - 1}
  }

  ghost predicate Inv(s: State) {
    Futures(s.queue) + multiset(s.done) == Names(s.made)
  }

  lemma {:induction false} NamesOnce(n: nat, f: nat)
    ensures Names(n)[f] == if f < n then 1 else 0
  {
    if n > 0 {
      NamesOnce(n - 1, f);
    }
  }

  lemma {:induction false} FuturesPush(q: seq<Item>, it: Item)
    ensures Futures(q + [it]) == Futures(q) + multiset{it.future}
  {
    if q == [] {
      assert q + [it] == [it] && [it][1..] == [];
    } else {
      assert (q + [it])[1..] == q[1..] + [it];
      FuturesPush(q[1..], it);
    }
  }

  lemma SpawnKeeps(s: State, sp: Spawn, extra: multiset<nat>)
    requires Futures(s.queue) + extra == Names(s.made)
    ensures Futures(SpawnOne(s, sp).queue) + extra == Names(SpawnOne(s, sp).made)
  {
    FuturesPush(s.queue, SpawnOne(s, sp).queue[|s.queue|]);
  }

  lemma {:induction false} SpawnAllKeeps(s: State, sps: seq<Spawn>, extra: multiset<nat>)
    requires Futures(s.queue) + extra == Names(s.made)
    ensures var t := SpawnAll(s, sps);
      && Futures(t.queue) + extra == Names(t.made)
      && t.done == s.done
    decreases |sps|
  {
    if sps != [] {
      SpawnKeeps(s, sps[0], extra);
      SpawnAllKeeps(SpawnOne(s, sps[0]), sps[1..], extra);
    }
  }

  lemma PollKeeps(s: State, e: Effect)
    requires Inv(s)
    ensures Inv(Poll(s, e))
  {
    if s.queue != [] {
      var it := s.queue[0];
      var polling := s.(queue := s.queue[1..], current := Some(it.task), polled := s.polled + [it]);
      var extra := multiset(s.done) + multiset{it.future};
      Rotate(Futures(s.queue[1..]), multiset(s.done), it.future);
      SpawnAllKeeps(polling, e.spawns, extra);
      var after := SpawnAll(polling, e.spawns);
      if e.ready {
        assert multiset(after.done + [it.future]) == extra;
      } else {
        FuturesPush(after.queue, it);
        Rotate(Futures(after.queue), multiset(s.done), it.future);
      }
    }
  }

  lemma Rotate(a: multiset<nat>, b: multiset<nat>, f: nat)
    ensures multiset{f} + a + b == a + (b + multiset{f}) == a + multiset{f} + b
  {
  }

  lemma {:induction false} RunKeepsInv(s: State, evs: seq<Event>)
    requires Inv(s)
    ensures Inv(Run(s, evs))
    decreases |evs|
  {
    if evs != [] {
      match evs[0] {
        case Turn(e) => PollKeeps(s, e);
        case Outside(sp) => SpawnKeeps(s, sp, multiset(s.done));
      }
      RunKeepsInv(Step(s, evs[0]), evs[1..]);
    }
  }

  /** Over every run, each future ever spawned is pending once or finished once, never both. */
  lemma NothingLost(s: State, evs: seq<Event>, f: nat)
    requires Inv(s)
    ensures var t := Run(s, evs); Futures(t.queue)[f] + multiset(t.done)[f] == if f < t.made then 1 else 0
  {
    RunKeepsInv(s, evs);
    NamesOnce(Run(s, evs).made, f);
  }

  /** The executor before anything is spawned. */
  function Boot(): State {
    State([], {}, 0, None, 0, [], [])
  }

  lemma BootInv()
    ensures Inv(Boot())
  {
  }

  lemma FromBoot(evs: seq<Event>, f: nat)
    ensures var t := Run(Boot(), evs); Futures(t.queue)[f] + multiset(t.done)[f] == if f < t.made then 1 else 0
  {
    BootInv();
    NothingLost(Boot(), evs, f);
  }

  /* ---------- Task ids ---------- */

  /** The task id at the end of the queue, where a spawn has just put its item. */
  function Newest(s: State): nat {
    if s.queue == [] then 0 else s.queue[|s.queue| - 1].task
  }

  /** The ids handed to the blank spawns among `sps`, in order. */
  function BlankIds(s: State, sps: seq<Spawn>): seq<nat>
    decreases |sps|
  {
    if sps == [] then []
    else
      var t := SpawnOne(s, sps[0]);
      (if sps[0].SpawnBlank? then [Newest(t)] else []) + BlankIds(t, sps[1..])
  }

  function StepBlankIds(s: State, ev: Event): seq<nat> {
    match ev
    case Turn(e) => if s.queue == [] then [] else BlankIds(s.(queue := s.queue[1..]), e.spawns)
    case Outside(sp) => BlankIds(s, [sp])
  }

  /** The same over a whole run, the spawns made during a poll included. */
  function RunBlankIds(s: State, evs: seq<Event>): seq<nat>
    decreases |evs|
  {
    if evs == [] then [] else StepBlankIds(s, evs[0]) + RunBlankIds(Step(s, evs[0]), evs[1..])
  }

  /** One after the other, the first right behind `last`. */
  ghost predicate Consecutive(ids: seq<nat>, last: nat) {
    forall i :: 0 <= i < |ids| ==> ids[i] == last + 1 + i
  }

  lemma {:induction false} BlankIdsCount(s: State, sps: seq<Spawn>)
    ensures Consecutive(BlankIds(s, sps), s.lastId)
    ensures SpawnAll(s, sps).lastId == s.lastId + |BlankIds(s, sps)|
    decreases |sps|
  {
    if sps != [] {
      BlankIdsCount(SpawnOne(s, sps[0]), sps[1..]);
    }
  }

  /** The ids depend on the counter alone, not on the queue or the logs. */
  lemma {:induction false} BlankIdsOnly(s: State, t: State, sps: seq<Spawn>)
    requires s.lastId == t.lastId
    ensures |BlankIds(s, sps)| == |BlankIds(t, sps)|
    decreases |sps|
  {
    if sps != [] {
      BlankIdsOnly(SpawnOne(s, sps[0]), SpawnOne(t, sps[0]), sps[1..]);
    }
  }

  lemma StepCounts(s: State, ev: Event)
    ensures var ids := StepBlankIds(s, ev);
      Consecutive(ids, s.lastId) && Step(s, ev).lastId == s.lastId + |ids|
  {
    match ev {
      case Turn(e) =>
        if s.queue != [] {
          var it := s.queue[0];
          var popped := s.(queue := s.queue[1..]);
          var polling := s.(queue := s.queue[1..], current := Some(it.task), polled := s.polled + [it]);
          BlankIdsCount(popped, e.spawns);
          BlankIdsCount(polling, e.spawns);
          BlankIdsOnly(popped, polling, e.spawns);
        }
      case Outside(sp) =>
        BlankIdsCount(s, [sp]);
        assert [sp][1..] == [];
    }
  }

  /** Over every run the blank spawns get consecutive ids: no id twice, each larger than the last. */
  lemma {:induction false} BlankIdsAreNew(s: State, evs: seq<Event>)
    ensures Consecutive(RunBlankIds(s, evs), s.lastId)
    ensures Run(s, evs).lastId == s.lastId + |RunBlankIds(s, evs)|
    decreases |evs|
  {
    if evs != [] {
      StepCounts(s, evs[0]);
      BlankIdsAreNew(Step(s, evs[0]), evs[1..]);
    }
  }

  /** While and after a poll the hart's current task is the one at the head of the queue. */
  lemma PollSetsCurrent(s: State, e: Effect)
    ensures Poll(s, e).current == if s.queue == [] then s.current else Some(s.queue[0].task)
  {
    if s.queue != [] {
      var it := s.queue[0];
      SpawnAllCurrent(s.(queue := s.queue[1..], current := Some(it.task), polled := s.polled + [it]), e.spawns);
    }
  }

  lemma {:induction false} SpawnAllCurrent(s: State, sps: seq<Spawn>)
    ensures SpawnAll(s, sps).current == s.current
    ensures s.taskMap <= SpawnAll(s, sps).taskMap
    decreases |sps|
  {
    if sps != [] {
      SpawnAllCurrent(SpawnOne(s, sps[0]), sps[1..]);
    }
  }

  /** Every task with a pending future is known to the task map. */
  ghost predicate Known(s: State) {
    forall it :: it in s.queue ==> it.task in s.taskMap
  }

  lemma {:induction false} SpawnAllKnown(s: State, sps: seq<Spawn>)
    requires Known(s)
    ensures Known(SpawnAll(s, sps))
    decreases |sps|
  {
    if sps != [] {
      SpawnAllKnown(SpawnOne(s, sps[0]), sps[1..]);
    }
  }

  lemma {:induction false} RunKnown(s: State, evs: seq<Event>)
    requires Known(s)
    ensures Known(Run(s, evs))
    decreases |evs|
  {
    if evs != [] {
      if evs[0].Turn? && s.queue != [] {
        var it := s.queue[0];
        var polling := s.(queue := s.queue[1..], current := Some(it.task), polled := s.polled + [it]);
        SpawnAllKnown(polling, evs[0].e.spawns);
        SpawnAllCurrent(polling, evs[0].e.spawns);
      }
      RunKnown(Step(s, evs[0]), evs[1..]);
    }
  }

  /* ---------- Turns ---------- */

  ghost predicate Served(s: State, t: State, n: nat) {
    && |t.polled| == |s.polled| + n
    && (n <= |s.queue| ==> t.polled == s.polled + s.queue[..n] && s.queue[n..] <= t.queue)
    && (n > |s.queue| ==> s.polled + s.queue <= t.polled)
  }

  /** Spawning appends to the queue and touches nothing that was there. */
  lemma {:induction false} SpawnAllAppends(s: State, sps: seq<Spawn>)
    ensures var t := SpawnAll(s, sps); s.queue <= t.queue && t.polled == s.polled
    decreases |sps|
  {
    if sps != [] {
      SpawnAllAppends(SpawnOne(s, sps[0]), sps[1..]);
    }
  }

  /** One turn serves the head and keeps the others in front of whatever is added. */
  lemma PollServes(s: State, e: Effect)
    requires s.queue != []
    ensures var t := Poll(s, e); t.polled == s.polled + [s.queue[0]] && s.queue[1..] <= t.queue
    ensures !e.ready ==> Poll(s, e).queue != [] && Poll(s, e).queue[|Poll(s, e).queue| - 1] == s.queue[0]
  {
    var it := s.queue[0];
    SpawnAllAppends(s.(queue := s.queue[1..], current := Some(it.task), polled := s.polled + [it]), e.spawns);
  }

  /** The number of turns of a run that find somebody to poll. */
  function Polls(s: State, evs: seq<Event>): nat
    decreases |evs|
  {
    if evs == [] then 0
    else (if evs[0].Turn? && s.queue != [] then 1 else 0) + Polls(Step(s, evs[0]), evs[1..])
  }

  lemma ServedOne(s: State, t: State, u: State, n: nat)
    requires s.queue != [] && t.polled == s.polled + [s.queue[0]] && s.queue[1..] <= t.queue && Served(t, u, n)
    ensures Served(s, u, n + 1)
  {
    var q := s.queue;
    if n < |q| {
      assert t.queue[..n] == q[1..n + 1] && [q[0]] + q[1..n + 1] == q[..n + 1];
      assert s.polled + [q[0]] + t.queue[..n] == s.polled + ([q[0]] + q[1..n + 1]);
      assert q[1..][n..] == q[n + 1..] <= t.queue[n..];
    } else {
      assert [q[0]] + q[1..] == q;
      assert s.polled + q == t.polled + q[1..] <= t.polled + t.queue;
      if n <= |t.queue| {
        assert q[1..] <= t.queue[..n];
      }
    }
  }

  lemma ServedMore(s: State, t: State, u: State, n: nat)
    requires t.polled == s.polled && s.queue <= t.queue && Served(t, u, n)
    ensures Served(s, u, n)
  {
    if n <= |s.queue| {
      assert t.queue[..n] == s.queue[..n] && s.queue[n..] <= t.queue[n..];
    } else if n <= |t.queue| {
      assert s.queue <= t.queue[..n];
    }
  }

  /** A run serves the queue it starts with in order, whatever the polls spawn or return. */
  lemma {:induction false} RunServes(s: State, evs: seq<Event>)
    ensures Served(s, Run(s, evs), Polls(s, evs))
    decreases |evs|
  {
    if evs == [] {
      assert s.queue[..0] == [] && s.queue[0..] == s.queue;
    } else {
      var t := Step(s, evs[0]);
      RunServes(t, evs[1..]);
      if evs[0].Turn? && s.queue != [] {
        PollServes(s, evs[0].e);
        ServedOne(s, t, Run(s, evs), Polls(t, evs[1..]));
      } else {
        ServedMore(s, t, Run(s, evs), Polls(t, evs[1..]));
      }
    }
  }

  /** The item at position `k` is polled after exactly `k` other polls. */
  lemma TurnComes(s: State, evs: seq<Event>, k: nat)
    requires k < |s.queue| && k < Polls(s, evs)
    ensures var t := Run(s, evs); |s.polled| + k < |t.polled| && t.polled[|s.polled| + k] == s.queue[k]
  {
    RunServes(s, evs);
    var t := Run(s, evs);
    if Polls(s, evs) > |s.queue| {
      assert (s.polled + s.queue)[|s.polled| + k] == s.queue[k];
    }
  }

  /** A pending future is polled again right after everybody then ahead of it, its own spawns included. */
  lemma PendingComesBack(s: State, e: Effect, evs: seq<Event>)
    requires s.queue != [] && !e.ready
    requires |Poll(s, e).queue| <= Polls(Poll(s, e), evs)
    ensures var t := Run(Poll(s, e), evs); var n := |s.polled| + |Poll(s, e).queue|;
      n < |t.polled| && t.polled[n] == s.queue[0]
  {
    PollServes(s, e);
    var p := Poll(s, e);
    TurnComes(p, evs, |p.queue| - 1);
  }

  /* ---------- The global queue, updated in place ---------- */

  class Executor {
    var queue: seq<Item>
    var taskMap: set<nat>
    var lastId: nat
    var current: Option<nat>
    var made: nat
    ghost var done: seq<nat>
    ghost var polled: seq<Item>

    ghost function View(): State
      reads this
    {
      State(queue, taskMap, lastId, current, made, done, polled)
    }

    method AllocId() returns (id: nat)
      modifies this`lastId
      ensures id == lastId == old(lastId) + 1
    {
      lastId := lastId + 1;
      id := lastId;
    }

    method AddFuture(sp: Spawn)
      modifies this
      ensures View() == SpawnOne(old(View()), sp)
      ensures Inv(old(View())) ==> Inv(View()) && Futures(old(queue))[old(made)] == 0
      ensures |queue| == |old(queue)| + 1 && queue[..|old(queue)|] == old(queue)
    {
      if Inv(View()) {
        SpawnKeeps(View(), sp, multiset(done));
        NamesOnce(made, made);
      }
      var id;
      if sp.SpawnBlank? {
        id := AllocId();
      } else {
        id := sp.task;
      }
      taskMap := taskMap + {id};
      queue := queue + [Item(made, id)];
      made := made + 1;
    }

    method RunReadyTask(e: Effect)
      modifies this
      ensures View() == Poll(old(View()), e)
    {
      if queue == [] {
        return;
      }
      var it := queue[0];
      queue := queue[1..];
      current := Some(it.task);
      polled := polled + [it];
      ghost var polling := View();
      for i := 0 to |e.spawns|
        invariant SpawnAll(polling, e.spawns) == SpawnAll(View(), e.spawns[i..])
      {
        assert e.spawns[i..][1..] == e.spawns[i + 1..];
        AddFuture(e.spawns[i]);
      }
      if e.ready {
        done := done + [it.future];
      } else {
        queue := queue + [it];
      }
    }
  }
}
