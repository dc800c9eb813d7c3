/** The scheduler as the kernel runs it. */
module SchedulerObject {
  import opened Caps
  import opened SchedulerSpec
  import opened Options

  class Scheduler {
    var tasks: seq<Task>
    var current: nat

    constructor (space: nat)
      ensures View() == RunQueue([Tcb(None, Budget(U32_MAX, 0, U32_MAX), Runnable, None, space)], 0) && View().Valid()
    {
      tasks := [Tcb(None, Budget(U32_MAX, 0, U32_MAX), Runnable, None, space)];
      current := 0;
    }

    function View(): (s: Sched)
      reads this
    {
      RunQueue(tasks, current)
    }

    method Pick() returns (r: Option<nat>)
      requires View().Valid()
      ensures r == PickNext(View())
      ensures r.None? <==> forall t :: 0 <= t < |tasks| ==> !Eligible(tasks[t])
      ensures r.Some? ==> r.value < |tasks| && Eligible(tasks[r.value])
      ensures r.Some? ==> forall t :: 0 <= t < |tasks| && Eligible(tasks[t]) ==>
        Gap(|tasks|, current, r.value) <= Gap(|tasks|, current, t)
    {
      PicksNearest(View());
      var n, step := |tasks|, 1;
      while step <= n
        invariant 1 <= step <= n + 1 && PickNext(View()) == PickFrom(View(), step)
      {
        var i := (current + step) % n;
        if tasks[i].state.Runnable? && !tasks[i].budget.IsDepleted() {
          return Some(i);
        }
        step := step + 1;
      }
      return None;
    }

    method Schedule()
      requires View().Valid()
      modifies this`current
      ensures View() == Switch(old(View()))
    {
      var next := Pick();
      if next.Some? && next.value != current {
        current := next.value;
      }
    }

    method ExitCurrent()
      requires View().Valid()
      modifies this
      ensures View() == Exit(old(View()))
    {
      tasks := tasks[current := tasks[current].(state := Finished)];
      var next := Pick();
      if next.Some? {
        current := next.value;
      }
    }

    method SpawnTask(block: nat, budget: Budget, proc: Option<nat>, space: nat)
      modifies this`tasks
      ensures View() == Spawn(old(View()), Tcb(Some(block), budget, Runnable, proc, space))
    {
      tasks := tasks + [Tcb(Some(block), budget, Runnable, proc, space)];
    }

    method OnTick() returns (preempt: bool)
      requires View().Valid()
      modifies this`tasks
      ensures View() == Tick(old(View()))
      ensures preempt <==> exists i :: 0 <= i < |tasks| && i != current && Eligible(tasks[i])
    {
      tasks := tasks[current := tasks[current].(budget := tasks[current].budget.Charge(1))];
      var i := 0;
      preempt := false;
      while i < |tasks|
        invariant 0 <= i <= |tasks|
        invariant preempt <==> exists k :: 0 <= k < i && k != current && Eligible(tasks[k])
      {
        if i != current && Eligible(tasks[i]) {
          preempt := true;
        }
        i := i + 1;
      }
    }

    /** The block to free and the space to reclaim, of the last finished task of the process. */
    method ReapFinished(proc: nat) returns (r: Option<(Option<nat>, nat)>)
      modifies this`tasks
      ensures View() == Reap(old(View()), proc).1
      ensures var i := Reap(old(View()), proc).0;
        r == if i.None? then None else Some((old(tasks)[i.value].stack, old(tasks)[i.value].space))
    {
      var i := |tasks|;
      while i > 0
        invariant 0 <= i <= |tasks| && LastDead(tasks, proc, |tasks|) == LastDead(tasks, proc, i)
      {
        i := i - 1;
        var t := tasks[i];
        if t.proc == Some(proc) && t.state.Finished? {
          tasks := tasks[i := t.(stack := None, state := Reaped)];
          return Some((t.stack, t.space));
        }
      }
      return None;
    }
  }
}
