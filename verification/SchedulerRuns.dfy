/** Runs of the scheduler: bounded waiting, and one reclaim per stack. */
module SchedulerRuns {
  import opened Caps
  import opened SchedulerSpec
  import opened Options

  /** The scheduler, the block each task was spawned with, and the blocks freed so far with their task. */
  datatype System = System(s: Sched, spawned: seq<Option<nat>>, freed: seq<(nat, nat)>)

  datatype Step =
    | SpawnStep(block: nat, budget: Budget, proc: Option<nat>, space: nat)
    | YieldStep
    | ExitStep
    | TickStep
    | ReapStep(dead: nat)

  /** Spawning, exiting and reaping are done by a running task, and the frame allocator hands out only
      blocks that no task holds. A yield or a tick can come at any time. */
  ghost predicate Enabled(y: System, step: Step)
    requires y.s.Valid()
  {
    match step
    case SpawnStep(block, _, _, _) =>
      y.s.tasks[y.s.current].state.Runnable? && forall i :: 0 <= i < |y.s.tasks| ==> y.s.tasks[i].stack != Some(block)
    case ExitStep => y.s.tasks[y.s.current].state.Runnable?
    case ReapStep(_) => y.s.tasks[y.s.current].state.Runnable?
    case _ => true
  }

  function Next(y: System, step: Step): (r: System)
    requires y.s.Valid() && |y.spawned| == |y.s.tasks|
    ensures r.s.Valid() && |r.spawned| == |r.s.tasks|
  {
    match step
    case SpawnStep(block, budget, proc, space) =>
      y.(s := Spawn(y.s, Tcb(Some(block), budget, Runnable, proc, space)), spawned := y.spawned + [Some(block)])
    case YieldStep => y.(s := Switch(y.s))
    case ExitStep => y.(s := Exit(y.s))
    case TickStep => y.(s := Tick(y.s))
    case ReapStep(proc) =>
      var (i, s) := Reap(y.s, proc);
      if i.Some? && y.s.tasks[i.value].stack.Some?
        then y.(s := s, freed := y.freed + [(i.value, y.s.tasks[i.value].stack.value)])
      else y.(s := s)
  }

  /** A spawned task joins last, in the process and space given, holding its block and ready to run as long as its
      budget is not spent; the others, the running one and what was freed are as before. */
  lemma SpawnJoins(y: System, block: nat, budget: Budget, proc: Option<nat>, space: nat)
    requires y.s.Valid() && |y.spawned| == |y.s.tasks|
    ensures var r, n := Next(y, SpawnStep(block, budget, proc, space)), |y.s.tasks|;
      && |r.s.tasks| == n + 1 && r.s.tasks[..n] == y.s.tasks && r.s.current == y.s.current && r.freed == y.freed
      && r.spawned[..n] == y.spawned && r.spawned[n] == r.s.tasks[n].stack == Some(block)
      && r.s.tasks[n].proc == proc && r.s.tasks[n].space == space && r.s.tasks[n].budget == budget
      && (Eligible(r.s.tasks[n]) <==> budget.consumed < budget.capacity)
  {
  }

  // ---- the invariant ----

  /** A task holds the block it was spawned with until it is reaped, and then none. */
  predicate StackOk(t: Task, block: Option<nat>) {
    t.stack == if t.state.Reaped? then None else block
  }

  ghost predicate FreedOk(y: System, k: nat)
    requires k < |y.freed| && |y.spawned| == |y.s.tasks|
  {
    var (i, block) := y.freed[k];
    i < |y.s.tasks| && y.s.tasks[i].state.Reaped? && y.spawned[i] == Some(block)
  }

  ghost predicate Good(y: System) {
    && y.s.Valid() && |y.spawned| == |y.s.tasks|
    && !y.s.tasks[y.s.current].state.Reaped?
    && (forall i :: 0 <= i < |y.s.tasks| ==> StackOk(y.s.tasks[i], y.spawned[i]))
    && (forall k :: 0 <= k < |y.freed| ==> FreedOk(y, k))
    && (forall j, k :: 0 <= j < k < |y.freed| ==> y.freed[j].0 != y.freed[k].0)
    && (forall i, j :: 0 <= i < j < |y.s.tasks| && y.s.tasks[i].stack.Some? ==>
          y.s.tasks[i].stack != y.s.tasks[j].stack)
    && (forall i: nat :: i < |y.s.tasks| && y.s.tasks[i].state.Reaped? && y.spawned[i].Some? ==>
          (i, y.spawned[i].value) in y.freed)
  }

  function Bootstrap(space: nat): (y: System) {
    System(RunQueue([Tcb(None, Budget(U32_MAX, 0, U32_MAX), Runnable, None, space)], 0), [None], [])
  }

  lemma SwitchGood(y: System)
    requires Good(y)
    ensures Good(y.(s := Switch(y.s)))
  {
    var r := y.(s := Switch(y.s));
    hide PickFrom;
    assert forall k :: 0 <= k < |y.freed| ==> FreedOk(y, k) ==> FreedOk(r, k);
  }

  lemma UpdateGood(y: System, i: nat, t: Task)
    requires Good(y) && i < |y.s.tasks| && !y.s.tasks[i].state.Reaped? && !t.state.Reaped?
    requires t.stack == y.s.tasks[i].stack
    ensures Good(y.(s := y.s.(tasks := y.s.tasks[i := t])))
  {
    var r := y.(s := y.s.(tasks := y.s.tasks[i := t]));
    forall k | 0 <= k < |y.freed|
      ensures FreedOk(r, k)
    {
      assert FreedOk(y, k);
      assert y.freed[k].0 != i;
    }
  }

  lemma SpawnGood(y: System, block: nat, t: Task)
    requires Good(y) && t.state.Runnable? && t.stack == Some(block)
    requires forall i :: 0 <= i < |y.s.tasks| ==> y.s.tasks[i].stack != Some(block)
    ensures Good(y.(s := Spawn(y.s, t), spawned := y.spawned + [Some(block)]))
  {
    var r := y.(s := Spawn(y.s, t), spawned := y.spawned + [Some(block)]);
    forall k | 0 <= k < |y.freed|
      ensures FreedOk(r, k)
    {
      assert FreedOk(y, k);
    }
  }

  lemma ReapGood(y: System, proc: nat)
    requires Good(y) && y.s.tasks[y.s.current].state.Runnable?
    ensures Good(Next(y, ReapStep(proc)))
  {
    var i := LastDead(y.s.tasks, proc, |y.s.tasks|);
    hide LastDead;
    if i.Some? {
      var r := Next(y, ReapStep(proc));
      assert StackOk(y.s.tasks[i.value], y.spawned[i.value]);
      forall k | 0 <= k < |y.freed|
        ensures FreedOk(y, k) && r.freed[k] == y.freed[k] && y.freed[k].0 != i.value
      {
        assert FreedOk(y, k);
      }
      forall k | 0 <= k < |r.freed|
        ensures FreedOk(r, k)
      {
        if k < |y.freed| { assert FreedOk(y, k); }
      }
    }
  }

  lemma StepGood(y: System, step: Step)
    requires Good(y) && Enabled(y, step)
    ensures Good(Next(y, step))
  {
    match step {
      case SpawnStep(block, budget, proc, space) =>
        SpawnGood(y, block, Tcb(Some(block), budget, Runnable, proc, space));
      case YieldStep => SwitchGood(y);
      case ExitStep =>
        var t := y.s.tasks[y.s.current].(state := Finished);
        UpdateGood(y, y.s.current, t);
        SwitchGood(y.(s := y.s.(tasks := y.s.tasks[y.s.current := t])));
      case TickStep =>
        UpdateGood(y, y.s.current, y.s.tasks[y.s.current].(budget := y.s.tasks[y.s.current].budget.Charge(1)));
      case ReapStep(proc) => ReapGood(y, proc);
    }
  }

  ghost predicate Runs(y: System, steps: seq<Step>)
    requires y.s.Valid() && |y.spawned| == |y.s.tasks|
    decreases |steps|
  {
    steps == [] || (Enabled(y, steps[0]) && Runs(Next(y, steps[0]), steps[1..]))
  }

  function Run(y: System, steps: seq<Step>): (r: System)
    requires y.s.Valid() && |y.spawned| == |y.s.tasks|
    ensures r.s.Valid() && |r.spawned| == |r.s.tasks|
    decreases |steps|
  {
    if steps == [] then y else Run(Next(y, steps[0]), steps[1..])
  }

  lemma {:induction false} RunGood(y: System, steps: seq<Step>)
    requires Good(y) && Runs(y, steps)
    ensures Good(Run(y, steps))
    decreases |steps|
  {
    if steps != [] {
      StepGood(y, steps[0]);
      hide Good;
      RunGood(Next(y, steps[0]), steps[1..]);
    }
  }

  /** From boot, in every run: no task's stack is freed twice, only reaped tasks' stacks are freed, no
      freed block is the one the running task stands on, and no two tasks hold the same block. */
  lemma EveryRunReclaimsOnce(space: nat, steps: seq<Step>)
    requires Runs(Bootstrap(space), steps)
    ensures Good(Run(Bootstrap(space), steps))
  {
    RunGood(Bootstrap(space), steps);
  }

  /** Every stack ever spawned is held by its task or has been freed, never both. */
  lemma StackHeldOrFreed(y: System, i: nat)
    requires Good(y) && i < |y.s.tasks| && y.spawned[i].Some?
    ensures y.s.tasks[i].stack == y.spawned[i] <==> (i, y.spawned[i].value) !in y.freed
  {
    assert StackOk(y.s.tasks[i], y.spawned[i]);
    if (i, y.spawned[i].value) in y.freed {
      var k :| 0 <= k < |y.freed| && y.freed[k] == (i, y.spawned[i].value);
      assert FreedOk(y, k);
    }
  }

  // ---- finished for good ----

  lemma StepLeavesDead(y: System, step: Step, i: nat)
    requires y.s.Valid() && |y.spawned| == |y.s.tasks| && Enabled(y, step)
    requires i < |y.s.tasks| && !y.s.tasks[i].state.Runnable? && y.s.current != i
    ensures var r := Next(y, step); i < |r.s.tasks| && !r.s.tasks[i].state.Runnable? && r.s.current != i
  {
    hide LastDead;
  }

  /** A task that has finished and been switched away from never runs again. */
  lemma {:induction false} FinishedNeverRuns(y: System, steps: seq<Step>, i: nat)
    requires y.s.Valid() && |y.spawned| == |y.s.tasks| && Runs(y, steps)
    requires i < |y.s.tasks| && !y.s.tasks[i].state.Runnable? && y.s.current != i
    ensures var r := Run(y, steps); i < |r.s.tasks| && !r.s.tasks[i].state.Runnable? && r.s.current != i
    decreases |steps|
  {
    if steps != [] {
      StepLeavesDead(y, steps[0], i);
      FinishedNeverRuns(Next(y, steps[0]), steps[1..], i);
    }
  }

  // ---- bounded waiting ----

  /** Steps at which the CPU changes hands. */
  function Switches(steps: seq<Step>): (n: nat) {
    if steps == [] then 0 else (if steps[0].YieldStep? || steps[0].ExitStep? then 1 else 0) + Switches(steps[1..])
  }

  ghost predicate NoSpawn(steps: seq<Step>) {
    forall k :: 0 <= k < |steps| ==> !steps[k].SpawnStep?
  }

  /** Task `t` is runnable and within budget all along. */
  ghost predicate StaysEligible(y: System, steps: seq<Step>, t: nat)
    requires y.s.Valid() && |y.spawned| == |y.s.tasks|
    decreases |steps|
  {
    && t < |y.s.tasks| && Eligible(y.s.tasks[t])
    && (steps != [] ==> StaysEligible(Next(y, steps[0]), steps[1..], t))
  }

  lemma StepBringsNearer(y: System, step: Step, t: nat)
    requires y.s.Valid() && |y.spawned| == |y.s.tasks| && t < |y.s.tasks| && t != y.s.current
    requires Eligible(y.s.tasks[t]) && !step.SpawnStep?
    ensures var r := Next(y, step);
      && |r.s.tasks| == |y.s.tasks|
      && (r.s.current == t
          || Gap(|y.s.tasks|, r.s.current, t)
            + (if step.YieldStep? || step.ExitStep? then 1 else 0) <= Gap(|y.s.tasks|, y.s.current, t))
  {
    hide LastDead;
    hide Switch;
    match step {
      case YieldStep => SwitchBringsNearer(y.s, t);
      case ExitStep => SwitchBringsNearer(SetState(y.s, y.s.current, Finished), t);
      case _ =>
    }
  }

  /** A task that stays eligible gets the CPU after at most as many switches as it stands tasks ahead,
      which is at most the number of tasks. */
  lemma {:induction false} WaitIsBounded(y: System, steps: seq<Step>, t: nat) returns (j: nat)
    requires y.s.Valid() && |y.spawned| == |y.s.tasks| && NoSpawn(steps) && StaysEligible(y, steps, t)
    requires Switches(steps) >= Gap(|y.s.tasks|, y.s.current, t)
    ensures j <= |steps| && Run(y, steps[..j]).s.current == t
    ensures Switches(steps[..j]) <= Gap(|y.s.tasks|, y.s.current, t) <= |y.s.tasks|
    decreases |steps|
  {
    if y.s.current == t {
      j := 0;
    } else {
      var r := Next(y, steps[0]);
      StepBringsNearer(y, steps[0], t);
      if r.s.current == t {
        j := 1;
        assert steps[..1][1..] == [];
      } else {
        j := WaitIsBounded(r, steps[1..], t);
        j := j + 1;
        assert steps[..j][1..] == steps[1..][..j - 1];
      }
    }
  }
}
