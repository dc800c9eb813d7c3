/** The stackful round-robin scheduler and its reclaim of finished tasks' stacks. */
module SchedulerSpec {
  import opened Caps
  import opened Options

  datatype State = Runnable | Finished | Reaped

  /** `stack` is the block a task owns; the bootstrap task has none. */
  datatype Task = Tcb(stack: Option<nat>, budget: Budget, state: State, proc: Option<nat>, space: nat)

  datatype Sched = RunQueue(tasks: seq<Task>, current: nat) {
    predicate Valid() { current < |tasks| }
  }

  predicate Eligible(t: Task) {
    t.state.Runnable? && !t.budget.IsDepleted()
  }

  /** The first eligible task at cyclic distance `step` or more from the current one. */
  function PickFrom(s: Sched, step: nat): (r: Option<nat>)
    requires s.Valid()
    ensures r.Some? ==> r.value < |s.tasks| && Eligible(s.tasks[r.value])
    decreases |s.tasks| + 1 - step
  {
    if step > |s.tasks| then None
    else
      var i := (s.current + step) % |s.tasks|;
      if Eligible(s.tasks[i]) then Some(i) else PickFrom(s, step + 1)
  }

  function PickNext(s: Sched): (r: Option<nat>)
    requires s.Valid()
  {
    PickFrom(s, 1)
  }

  /** Hands the CPU to the next eligible task, if there is one. */
  function Switch(s: Sched): (r: Sched)
    requires s.Valid()
    ensures r.Valid() && r.tasks == s.tasks
  {
    var next := PickNext(s);
    if next.Some? then s.(current := next.value) else s
  }

  function SetState(s: Sched, i: nat, st: State): (r: Sched)
    requires i < |s.tasks|
  {
    s.(tasks := s.tasks[i := s.tasks[i].(state := st)])
  }

  function Exit(s: Sched): (r: Sched)
    requires s.Valid()
  {
    Switch(SetState(s, s.current, Finished))
  }

  function Tick(s: Sched): (r: Sched)
    requires s.Valid()
  {
    s.(tasks := s.tasks[s.current := s.tasks[s.current].(budget := s.tasks[s.current].budget.Charge(1))])
  }

  function Spawn(s: Sched, t: Task): (r: Sched) {
    s.(tasks := s.tasks + [t])
  }

  predicate Dead(t: Task, proc: nat) {
    t.proc == Some(proc) && t.state.Finished?
  }

  /** The most recently spawned finished task of the process among the first `n`. */
  function LastDead(tasks: seq<Task>, proc: nat, n: nat): (r: Option<nat>)
    requires n <= |tasks|
    ensures r.Some? ==> r.value < n && Dead(tasks[r.value], proc) && forall k :: r.value < k < n ==>
      !Dead(tasks[k], proc)
    ensures r.None? ==> forall k :: 0 <= k < n ==> !Dead(tasks[k], proc)
  {
    if n == 0 then None else if Dead(tasks[n - 1], proc) then Some(n - 1) else LastDead(tasks, proc, n - 1)
  }

  /** Which task was reaped, its block and its space given up. */
  function Reap(s: Sched, proc: nat): (r: (Option<nat>, Sched)) {
    var i := LastDead(s.tasks, proc, |s.tasks|);
    if i.None? then (None, s)
    else (i, s.(tasks := s.tasks[i.value := s.tasks[i.value].(stack := None, state := Reaped)]))
  }

  // ---- what each operation does ----

  /** Tasks alike but for the one at `i`. */
  ghost predicate OnlyTask(before: seq<Task>, after: seq<Task>, i: nat) {
    |after| == |before| && forall k: nat :: k < |before| && k != i ==> after[k] == before[k]
  }

  /** Exiting finishes the running task, which keeps its stack, budget, process and space, and hands the CPU to
      another task; that one is runnable, if there is one at all. */
  lemma ExitFinishes(s: Sched)
    requires s.Valid()
    ensures var r := Exit(s);
      && r.Valid() && OnlyTask(s.tasks, r.tasks, s.current)
      && r.tasks[s.current] == Tcb(s.tasks[s.current].stack, s.tasks[s.current].budget, Finished,
                                   s.tasks[s.current].proc, s.tasks[s.current].space)
      && (r.current == s.current <==> forall k: nat :: k < |s.tasks| && k != s.current ==> !Eligible(s.tasks[k]))
      && (r.current != s.current ==> r.tasks[r.current].state == Runnable)
  {
    var m := SetState(s, s.current, Finished);
    PicksNearest(m);
    hide PickNext;
  }

  /** A tick spends one unit of the running task's budget, and nothing else changes. */
  lemma TickSpendsOne(s: Sched)
    requires s.Valid() && s.tasks[s.current].budget.capacity <= U32_MAX
    ensures var r, b := Tick(s), s.tasks[s.current].budget;
      && r.current == s.current && OnlyTask(s.tasks, r.tasks, s.current)
      && r.tasks[s.current] == s.tasks[s.current].(budget := r.tasks[s.current].budget)
      && r.tasks[s.current].budget.capacity == b.capacity && r.tasks[s.current].budget.period == b.period
      && (b.consumed < 0xFFFF_FFFF ==> r.tasks[s.current].budget.consumed == b.consumed + 1)
      && r.tasks[s.current].budget.Remaining() == if b.Remaining() == 0 then 0 else b.Remaining() - 1
  {
  }

  /** Reaping takes the stack from one finished task of the process, if there is one, and nothing else changes. */
  lemma ReapTakesStack(s: Sched, proc: nat)
    ensures var (i, r) := Reap(s, proc);
      && (i.None? <==>
            forall k: nat :: k < |s.tasks| ==> !(s.tasks[k].proc == Some(proc) && s.tasks[k].state == Finished))
      && (i.None? ==> r == s)
      && (i.Some? ==>
            && i.value < |s.tasks| && s.tasks[i.value].proc == Some(proc) && s.tasks[i.value].state == Finished
            && r.current == s.current && OnlyTask(s.tasks, r.tasks, i.value)
            && r.tasks[i.value] == s.tasks[i.value].(stack := None, state := Reaped))
  {
  }

  // ---- round robin ----

  /** How far ahead of `cur` task `t` stands in cyclic order; a task is a whole turn ahead of itself. */
  function Gap(n: nat, cur: nat, t: nat): (d: nat)
    requires cur < n && t < n
    ensures 1 <= d <= n
  {
    if cur < t then t - cur else t + n - cur
  }

  lemma Around(n: nat, cur: nat, d: nat)
    requires cur < n && 1 <= d <= n
    ensures (cur + d) % n < n && Gap(n, cur, (cur + d) % n) == d
  {
    if cur + d >= n {
      assert (cur + d) % n == cur + d - n by { Wraps(cur + d, n); }
    } else {
      assert (cur + d) % n == cur + d;
    }
  }

  lemma Wraps(x: nat, n: nat)
    requires n > 0 && n <= x < 2 * n
    ensures x % n == x - n
  {
    assert x == 1 * n + (x - n);
  }

  lemma GapInverse(n: nat, cur: nat, t: nat)
    requires cur < n && t < n
    ensures (cur + Gap(n, cur, t)) % n == t
  {
    if t <= cur { Wraps(t + n, n); }
  }

  lemma {:induction false} PickFromNearest(s: Sched, step: nat)
    requires s.Valid() && 1 <= step <= |s.tasks| + 1
    ensures var r := PickFrom(s, step); var n := |s.tasks|;
      && (r.Some? ==> forall t :: 0 <= t < n && Eligible(s.tasks[t]) && step <= Gap(n, s.current, t) ==>
            Gap(n, s.current, r.value) <= Gap(n, s.current, t))
      && (r.Some? ==> step <= Gap(n, s.current, r.value))
      && (r.None? ==> forall t :: 0 <= t < n && Eligible(s.tasks[t]) ==> Gap(n, s.current, t) < step)
    decreases |s.tasks| + 1 - step
  {
    var n := |s.tasks|;
    if step <= n {
      var i := (s.current + step) % n;
      Around(n, s.current, step);
      if !Eligible(s.tasks[i]) {
        PickFromNearest(s, step + 1);
        forall t | 0 <= t < n && Eligible(s.tasks[t]) && step <= Gap(n, s.current, t)
          ensures step + 1 <= Gap(n, s.current, t)
        {
          GapInverse(n, s.current, t);
        }
      }
    }
  }

  /** What is picked is eligible, that is runnable with budget left, and no eligible task stands nearer ahead;
      none is picked exactly when no task is eligible, the current one included. */
  lemma PicksNearest(s: Sched)
    requires s.Valid()
    ensures var r := PickNext(s); var n := |s.tasks|;
      && (r.None? <==> forall t :: 0 <= t < n && s.tasks[t].state == Runnable ==>
            s.tasks[t].budget.consumed >= s.tasks[t].budget.capacity)
      && (r.Some? ==>
            && r.value < n && s.tasks[r.value].state == Runnable
            && s.tasks[r.value].budget.consumed < s.tasks[r.value].budget.capacity
            && forall t :: 0 <= t < n && Eligible(s.tasks[t]) ==> Gap(n, s.current, r.value) <= Gap(n, s.current, t))
  {
    PickFromNearest(s, 1);
    hide Gap;
  }

  /** A switch brings every eligible task that it does not reach nearer. */
  lemma SwitchBringsNearer(s: Sched, t: nat)
    requires s.Valid() && t < |s.tasks| && t != s.current && Eligible(s.tasks[t])
    ensures Switch(s).current == t || Gap(|s.tasks|, Switch(s).current, t) < Gap(|s.tasks|, s.current, t)
  {
    PicksNearest(s);
    hide PickNext;
  }
}
