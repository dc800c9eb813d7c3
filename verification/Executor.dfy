/** The cooperative executor: polls ready tasks while their CPU-time budget lasts. A future is
    arbitrary: each poll completes or not, and wakes any task ids any finite number of times. */
module CooperativeExecutor {
  import opened Caps

  /** What one poll of a future did. */
  datatype Outcome = Outcome(done: bool, wakes: seq<nat>)

  datatype State = State(tasks: map<nat, Budget>, ready: seq<nat>, parked: seq<nat>, polls: seq<nat>)

  /** The outcome of the `n`th poll of the run, of task `id`: the adversary. */
  type Futures = (nat, nat) -> Outcome

  // ---- one turn of the run loop ----

  function Park(parked: seq<nat>, id: nat): (p: seq<nat>) {
    if id in parked then parked else parked + [id]
  }

  function Turn(s: State, f: Futures): (t: State)
    requires s.ready != []
  {
    var id, rest := s.ready[0], s.ready[1..];
    if id !in s.tasks then s.(ready := rest)
    else if s.tasks[id].IsDepleted() then s.(ready := rest, parked := Park(s.parked, id))
    else
      var o := f(|s.polls|, id);
      State(if o.done then s.tasks - {id}
        else s.tasks[id := s.tasks[id].Charge(1)], rest + o.wakes, s.parked, s.polls + [id])
  }

  // ---- termination ----

  /** Polls the tasks can still receive before replenishment, one more for each task. */
  ghost function Fuel(tasks: map<nat, Budget>): (n: nat)
    decreases |tasks|
  {
    if tasks == map[] then 0
    else
      var id :| id in tasks;
      tasks[id].Remaining() + 1 + Fuel(tasks - {id})
  }

  lemma {:induction false} FuelAt(tasks: map<nat, Budget>, id: nat)
    requires id in tasks
    ensures Fuel(tasks) == tasks[id].Remaining() + 1 + Fuel(tasks - {id})
    decreases |tasks|
  {
    var k :| k in tasks && Fuel(tasks) == tasks[k].Remaining() + 1 + Fuel(tasks - {k});
    if k != id {
      assert id in tasks - {k} && k in tasks - {id};
      FuelAt(tasks - {k}, id);
      FuelAt(tasks - {id}, k);
      assert tasks - {k} - {id} == tasks - {id} - {k};
    }
  }

  lemma FuelCharge(tasks: map<nat, Budget>, id: nat)
    requires id in tasks && !tasks[id].IsDepleted() && tasks[id].consumed < U32_MAX
    ensures Fuel(tasks[id := tasks[id].Charge(1)]) == Fuel(tasks) - 1
  {
    var t := tasks[id := tasks[id].Charge(1)];
    FuelAt(tasks, id);
    FuelAt(t, id);
    assert t - {id} == tasks - {id};
  }

  /** Capacities are 32-bit, as in the source. */
  ghost predicate Bounded(tasks: map<nat, Budget>) {
    forall id :: id in tasks ==> tasks[id].capacity <= U32_MAX
  }

  /** A turn polls, and then uses up budget, or takes an id off the queue without polling. */
  lemma TurnDecreases(s: State, f: Futures)
    requires s.ready != [] && Bounded(s.tasks)
    ensures Bounded(Turn(s, f).tasks)
    ensures Fuel(Turn(s, f).tasks) < Fuel(s.tasks) || (Turn(s, f).tasks == s.tasks && |Turn(s, f).ready| < |s.ready|)
  {
    var id := s.ready[0];
    if id in s.tasks && !s.tasks[id].IsDepleted() {
      FuelAt(s.tasks, id);
      FuelCharge(s.tasks, id);
    }
  }

  /** The whole run: it ends whatever the futures do. */
  ghost function RunUntilIdle(s: State, f: Futures): (t: State)
    requires Bounded(s.tasks)
    ensures t.ready == [] && Bounded(t.tasks)
    decreases Fuel(s.tasks), |s.ready|
  {
    if s.ready == [] then s
    else
      TurnDecreases(s, f);
      RunUntilIdle(Turn(s, f), f)
  }

  // ---- budgets gate polling ----

  function Count(polls: seq<nat>, id: nat): (n: nat) {
    if polls == [] then 0 else Count(polls[..|polls| - 1], id) + (if polls[|polls| - 1] == id then 1 else 0)
  }

  lemma CountPush(polls: seq<nat>, k: nat, id: nat)
    ensures Count(polls + [k], id) == Count(polls, id) + (if k == id then 1 else 0)
  {
    assert (polls + [k])[..|polls|] == polls;
  }

  function RemainingOf(tasks: map<nat, Budget>, id: nat): (n: nat) {
    if id in tasks then tasks[id].Remaining() else 0
  }

  lemma TurnPolls(s: State, f: Futures, id: nat)
    requires s.ready != [] && Bounded(s.tasks)
    ensures Count(Turn(s, f).polls, id) + RemainingOf(Turn(s, f).tasks, id) <= Count(s.polls, id)
      + RemainingOf(s.tasks, id)
    ensures Count(Turn(s, f).polls, id) >= Count(s.polls, id)
    ensures id in Turn(s, f).tasks ==>
      id in s.tasks
        && Count(Turn(s, f).polls, id) + RemainingOf(Turn(s, f).tasks, id) ==
        Count(s.polls, id) + RemainingOf(s.tasks, id)
  {
    CountPush(s.polls, s.ready[0], id);
  }

  /** Between replenishments a task is polled at most as often as its remaining budget allows; one
      that survives has paid exactly for its polls. */
  lemma {:induction false} PollsWithinBudget(s: State, f: Futures, id: nat)
    requires Bounded(s.tasks)
    ensures var t := RunUntilIdle(s, f);
      && Count(t.polls, id) <= Count(s.polls, id) + RemainingOf(s.tasks, id)
      && (id in t.tasks ==>
            id in s.tasks
              && Count(t.polls, id) + RemainingOf(t.tasks, id) == Count(s.polls, id) + RemainingOf(s.tasks, id))
    decreases Fuel(s.tasks), |s.ready|
  {
    if s.ready != [] {
      TurnDecreases(s, f);
      TurnPolls(s, f, id);
      PollsWithinBudget(Turn(s, f), f, id);
    }
  }

  // ---- no wake is lost ----

  ghost predicate NoDuplicates(p: seq<nat>) {
    forall i, j :: 0 <= i < j < |p| ==> p[i] != p[j]
  }

  /** Parked tasks are parked once, and those still alive are out of budget. */
  ghost predicate ParkedOk(s: State) {
    NoDuplicates(s.parked) && forall id :: id in s.parked ==> id in s.tasks && s.tasks[id].IsDepleted()
  }

  lemma TurnParked(s: State, f: Futures)
    requires s.ready != [] && ParkedOk(s)
    ensures ParkedOk(Turn(s, f))
  {
    var t := Turn(s, f);
    forall id | id in t.parked ensures id in t.tasks && t.tasks[id].IsDepleted() {
      assert id in s.parked || id == s.ready[0];
    }
  }

  /** The id is queued or parked: its wake will be served. */
  predicate Pending(s: State, id: nat) {
    id in s.ready || id in s.parked
  }

  /** Taking a turn serves the front id, if it polls it, and forgets no other live one. */
  lemma TurnKeepsWakes(s: State, f: Futures, id: nat)
    requires s.ready != [] && Pending(s, id)
    ensures var t := Turn(s, f); id in t.tasks ==> Pending(t, id) || (id == s.ready[0] && t.polls == s.polls + [id])
  {
    var t := Turn(s, f);
    if id != s.ready[0] && id in s.ready {
      var k :| 0 <= k < |s.ready| && s.ready[k] == id;
      assert s.ready[1..][k - 1] == id;
    }
  }

  lemma TurnDeliversWakes(s: State, f: Futures, id: nat)
    requires s.ready != [] && s.ready[0] in s.tasks && !s.tasks[s.ready[0]].IsDepleted()
    requires id in f(|s.polls|, s.ready[0]).wakes
    ensures id in Turn(s, f).ready
  {
  }

  /** `id` was polled after the polls `from`. */
  ghost predicate PolledSince(from: seq<nat>, to: seq<nat>, id: nat) {
    from <= to && id in to[|from|..]
  }

  /** At idle, every pending wake of a live task has led to a poll or left it parked. */
  lemma {:induction false} IdleServesWakes(s: State, f: Futures, id: nat)
    requires Bounded(s.tasks) && Pending(s, id)
    ensures var t := RunUntilIdle(s, f);
      s.polls <= t.polls && (id in t.tasks ==> id in t.parked || PolledSince(s.polls, t.polls, id))
    decreases Fuel(s.tasks), |s.ready|
  {
    if s.ready != [] {
      var u := Turn(s, f);
      TurnDecreases(s, f);
      TurnKeepsWakes(s, f, id);
      var t := RunUntilIdle(u, f);
      PollsGrow(u, f);
      if Pending(u, id) {
        IdleServesWakes(u, f, id);
        if id in t.tasks && id !in t.parked {
          assert t.polls[|s.polls|..] == t.polls[|s.polls|..|u.polls|] + t.polls[|u.polls|..];
        }
      } else if id in t.tasks {
        TasksOnlyLeave(u, f, id);
        assert t.polls[|s.polls|] == id;
      }
    }
  }

  lemma {:induction false} PollsGrow(s: State, f: Futures)
    requires Bounded(s.tasks)
    ensures s.polls <= RunUntilIdle(s, f).polls
    decreases Fuel(s.tasks), |s.ready|
  {
    if s.ready != [] {
      TurnDecreases(s, f);
      PollsGrow(Turn(s, f), f);
    }
  }

  lemma {:induction false} TasksOnlyLeave(s: State, f: Futures, id: nat)
    requires Bounded(s.tasks) && id in RunUntilIdle(s, f).tasks
    ensures id in s.tasks
    decreases Fuel(s.tasks), |s.ready|
  {
    if s.ready != [] {
      TurnDecreases(s, f);
      TasksOnlyLeave(Turn(s, f), f, id);
    }
  }

  /** A wake issued during a run, by the poll number `n`, is not lost either: the woken task, if it
      is still alive at idle, was polled after it or is parked. */
  lemma {:induction false} WakesDuringRunServed(s: State, f: Futures, n: nat, id: nat)
    requires Bounded(s.tasks) && |s.polls| <= n < |RunUntilIdle(s, f).polls|
    requires id in f(n, RunUntilIdle(s, f).polls[n]).wakes
    ensures var t := RunUntilIdle(s, f); id in t.tasks ==> id in t.parked || id in t.polls[n + 1..]
    decreases Fuel(s.tasks), |s.ready|
  {
    assert s.ready != [];
    var u := Turn(s, f);
    TurnDecreases(s, f);
    PollsGrow(u, f);
    var t := RunUntilIdle(u, f);
    if n == |s.polls| && |u.polls| > |s.polls| {
      assert t.polls[n] == s.ready[0];
      TurnDeliversWakes(s, f, id);
      IdleServesWakes(u, f, id);
    } else {
      WakesDuringRunServed(u, f, n, id);
    }
  }

  lemma {:induction false} IdleParked(s: State, f: Futures)
    requires Bounded(s.tasks) && ParkedOk(s)
    ensures ParkedOk(RunUntilIdle(s, f))
    decreases Fuel(s.tasks), |s.ready|
  {
    if s.ready != [] {
      TurnDecreases(s, f);
      TurnParked(s, f);
      IdleParked(Turn(s, f), f);
    }
  }

  // ---- a task leaves by a completing poll ----

  /** Some poll of `id` numbered from `lo` on completed it. */
  ghost predicate Completed(polls: seq<nat>, f: Futures, lo: nat, id: nat) {
    exists n: nat :: lo <= n < |polls| && polls[n] == id && f(n, id).done
  }

  /** No poll of `id` numbered from `lo` on came after one that completed it. */
  ghost predicate NotPolledAgain(polls: seq<nat>, f: Futures, lo: nat, id: nat) {
    forall n: nat, m: nat :: lo <= n < m < |polls| && polls[n] == id && polls[m] == id ==> !f(n, id).done
  }

  lemma TurnCompletes(s: State, f: Futures, lo: nat, id: nat)
    requires s.ready != [] && lo <= |s.polls|
    ensures var t := Turn(s, f);
      && s.polls <= t.polls
      && (id in t.tasks <==> id in s.tasks && !Completed(t.polls, f, |s.polls|, id))
      && (Completed(t.polls, f, lo, id) <==> Completed(s.polls, f, lo, id) || Completed(t.polls, f, |s.polls|, id))
      && (t.polls != s.polls ==> t.polls == s.polls + [s.ready[0]] && s.ready[0] in s.tasks)
  {
    var t := Turn(s, f);
    if n: nat :| lo <= n < |s.polls| && s.polls[n] == id && f(n, id).done { assert t.polls[n] == id; }
    if n: nat :| lo <= n < |t.polls| && t.polls[n] == id && f(n, id).done {
      assert n < |s.polls| ==> s.polls[n] == id;
    }
    if t.polls != s.polls { assert t.polls[|s.polls|] == s.ready[0]; }
  }

  lemma {:induction false} RunCompletes(s: State, f: Futures, id: nat, lo: nat)
    requires Bounded(s.tasks) && lo <= |s.polls|
    requires NotPolledAgain(s.polls, f, lo, id) && (id in s.tasks ==> !Completed(s.polls, f, lo, id))
    ensures var t := RunUntilIdle(s, f);
      && s.polls <= t.polls && NotPolledAgain(t.polls, f, lo, id)
      && (id in t.tasks <==> id in s.tasks && !Completed(t.polls, f, lo, id))
    decreases Fuel(s.tasks), |s.ready|
  {
    if s.ready != [] {
      var u := Turn(s, f);
      TurnDecreases(s, f);
      TurnCompletes(s, f, lo, id);
      forall n: nat, m: nat | lo <= n < m < |u.polls| && u.polls[n] == id && u.polls[m] == id
        ensures !f(n, id).done
      {
        assert s.polls[n] == id;
        if m < |s.polls| { assert s.polls[m] == id; } else { assert id in s.tasks; }
      }
      RunCompletes(u, f, id, lo);
      if Completed(u.polls, f, lo, id) { CompletedStays(u.polls, RunUntilIdle(u, f).polls, f, lo, id); }
    }
  }

  lemma CompletedStays(p: seq<nat>, q: seq<nat>, f: Futures, lo: nat, id: nat)
    requires p <= q && Completed(p, f, lo, id)
    ensures Completed(q, f, lo, id)
  {
    var n: nat :| lo <= n < |p| && p[n] == id && f(n, id).done;
    assert q[n] == id;
  }

  /** Which tasks a run leaves: exactly those that were there and that no poll of the run completed; and no task is
      polled after the poll that completed it. */
  lemma CompletesExactly(s: State, f: Futures, id: nat)
    requires Bounded(s.tasks)
    ensures var t := RunUntilIdle(s, f);
      && (id in t.tasks <==>
            id in s.tasks && forall n: nat :: |s.polls| <= n < |t.polls| && t.polls[n] == id ==> !f(n, id).done)
      && NotPolledAgain(t.polls, f, |s.polls|, id)
  {
    RunCompletes(s, f, id, |s.polls|);
  }

  // ---- first come, first served ----

  ghost function Turns(s: State, f: Futures, k: nat): (t: State)
    requires Bounded(s.tasks) && k <= |s.ready|
    ensures Bounded(t.tasks) && s.ready[k..] <= t.ready
    decreases k
  {
    if k == 0 then assert s.ready[0..] == s.ready; s
    else
      var t := Turns(s, f, k - 1);
      assert t.ready[0] == s.ready[k - 1] by { assert s.ready[k - 1..][0] == s.ready[k - 1]; }
      assert t.ready[1..][..|s.ready| - k] == s.ready[k..] by {
        assert t.ready[..|s.ready| - k + 1] == s.ready[k - 1..];
      }
      TurnDecreases(t, f);
      Turn(t, f)
  }

  /** The queue is served in order: the id queued at place `k` is at the front after `k` turns, and what the
      polls in between wake is queued behind those already waiting. */
  lemma ServedInOrder(s: State, f: Futures, k: nat)
    requires Bounded(s.tasks) && k < |s.ready|
    ensures Turns(s, f, k).ready != [] && Turns(s, f, k).ready[0] == s.ready[k] && s.ready[k..] <= Turns(s, f, k).ready
  {
    assert s.ready[k..][0] == s.ready[k];
  }

  // ---- replenishment ----

  function Replenished(tasks: map<nat, Budget>): (t: map<nat, Budget>) {
    map id | id in tasks :: tasks[id].Replenish()
  }

  function Live(tasks: map<nat, Budget>, ids: seq<nat>): (l: seq<nat>) {
    if ids == [] then [] else (if ids[0] in tasks then [ids[0]] else []) + Live(tasks, ids[1..])
  }

  function Replenish(s: State): (t: State) {
    State(Replenished(s.tasks), s.ready + Live(s.tasks, s.parked), [], s.polls)
  }

  lemma {:induction false} LiveAll(tasks: map<nat, Budget>, ids: seq<nat>)
    requires forall id :: id in ids ==> id in tasks
    ensures Live(tasks, ids) == ids
  {
    if ids != [] {
      LiveAll(tasks, ids[1..]);
      assert ids == [ids[0]] + ids[1..];
    }
  }

  /** A new period gives every task its full capacity back and re-admits every parked task. */
  lemma ReplenishReadmits(s: State)
    requires ParkedOk(s)
    ensures var t := Replenish(s);
      && t.ready == s.ready + s.parked && t.parked == [] && ParkedOk(t) && t.tasks.Keys == s.tasks.Keys
      && forall id :: id in t.tasks ==> t.tasks[id] == Budget(s.tasks[id].capacity, 0, s.tasks[id].period)
  {
    LiveAll(s.tasks, s.parked);
  }

  // ---- whole histories ----

  /** The executor is run, an outside waker fires, a task is spawned, or a new period starts. */
  datatype Move = RunMove | WakeMove(woken: nat) | SpawnMove(id: nat, budget: Budget) | PeriodMove

  /** The executor and the ids ever given out. */
  datatype History = History(s: State, used: set<nat>)

  /** Ids are never reused, and capacities are 32-bit. */
  predicate Legal(h: History, m: Move) {
    m.SpawnMove? ==> m.id !in h.used && m.budget.capacity <= U32_MAX
  }

  ghost predicate Sound(h: History) {
    Bounded(h.s.tasks) && h.s.tasks.Keys <= h.used && forall k :: 0 <= k < |h.s.polls| ==> h.s.polls[k] in h.used
  }

  ghost function Apply(h: History, f: Futures, m: Move): (r: History)
    requires Sound(h)
  {
    match m
    case RunMove => h.(s := RunUntilIdle(h.s, f))
    case WakeMove(id) => h.(s := h.s.(ready := h.s.ready + [id]))
    case SpawnMove(id, budget) =>
      History(h.s.(tasks := h.s.tasks[id := budget], ready := h.s.ready + [id]), h.used + {id})
    case PeriodMove => h.(s := Replenish(h.s))
  }

  lemma {:induction false} RunSound(s: State, f: Futures, used: set<nat>)
    requires Sound(History(s, used))
    ensures Sound(History(RunUntilIdle(s, f), used))
    decreases Fuel(s.tasks), |s.ready|
  {
    if s.ready != [] {
      TurnDecreases(s, f);
      RunSound(Turn(s, f), f, used);
    }
  }

  lemma ApplySound(h: History, f: Futures, m: Move)
    requires Sound(h) && Legal(h, m)
    ensures Sound(Apply(h, f, m))
  {
    if m.RunMove? { RunSound(h.s, f, h.used); }
    hide RunUntilIdle;
  }

  /** A task woken or spawned before a run is polled in it, unless it is gone by the end or waits, its budget
      spent, for the next period; it is spawned with the budget given. */
  lemma WokenIsServed(h: History, f: Futures, m: Move, id: nat)
    requires Sound(h) && Legal(h, m) && (m == WakeMove(id) || (m.SpawnMove? && m.id == id))
    ensures Sound(Apply(h, f, m))
    ensures var a := Apply(h, f, m); var t := Apply(a, f, RunMove).s;
      && (m.SpawnMove? ==> id in a.s.tasks && a.s.tasks[id] == m.budget)
      && h.s.polls <= t.polls && (id in t.tasks ==> id in t.parked || PolledSince(h.s.polls, t.polls, id))
  {
    ApplySound(h, f, m);
    IdleServesWakes(Apply(h, f, m).s, f, id);
    hide RunUntilIdle;
  }

  ghost predicate LegalRun(h: History, f: Futures, ms: seq<Move>)
    requires Sound(h)
    decreases |ms|
  {
    ms != [] ==> Legal(h, ms[0]) && (ApplySound(h, f, ms[0]); LegalRun(Apply(h, f, ms[0]), f, ms[1..]))
  }

  ghost function ApplyAll(h: History, f: Futures, ms: seq<Move>): (r: History)
    requires Sound(h) && LegalRun(h, f, ms)
    decreases |ms|
  {
    if ms == [] then h else ApplySound(h, f, ms[0]); ApplyAll(Apply(h, f, ms[0]), f, ms[1..])
  }

  predicate NoPeriod(ms: seq<Move>) {
    forall i :: 0 <= i < |ms| ==> !ms[i].PeriodMove?
  }

  /** Between replenishments, whatever runs, wakes and spawns there are: polls are paid for out of the
      remaining budget, exactly so by a task that survives. */
  lemma {:induction false} PeriodAccounts(h: History, f: Futures, ms: seq<Move>, id: nat)
    requires Sound(h) && LegalRun(h, f, ms) && NoPeriod(ms) && id in h.used
    ensures var t := ApplyAll(h, f, ms).s;
      && Count(t.polls, id) <= Count(h.s.polls, id) + RemainingOf(h.s.tasks, id)
      && (id in t.tasks ==>
            id in h.s.tasks
              && Count(t.polls, id) + RemainingOf(t.tasks, id) == Count(h.s.polls, id) + RemainingOf(h.s.tasks, id))
    decreases |ms|
  {
    hide RunUntilIdle;
    hide Count;
    if ms != [] {
      ApplySound(h, f, ms[0]);
      if ms[0].RunMove? { PollsWithinBudget(h.s, f, id); }
      PeriodAccounts(Apply(h, f, ms[0]), f, ms[1..], id);
    }
  }

  /** Over one period, however many runs it has and whatever is woken and spawned in between, a task is
      polled at most as often as its capacity. */
  lemma PollsPerPeriod(h: History, f: Futures, ms: seq<Move>, id: nat)
    requires Sound(h) && LegalRun(h, f, [PeriodMove] + ms) && NoPeriod(ms) && id in h.s.tasks
    ensures Count(ApplyAll(h, f, [PeriodMove] + ms).s.polls, id) <= Count(h.s.polls, id) + h.s.tasks[id].capacity
  {
    assert ([PeriodMove] + ms)[1..] == ms;
    ApplySound(h, f, PeriodMove);
    PeriodAccounts(Apply(h, f, PeriodMove), f, ms, id);
  }

  function Periods(ms: seq<Move>): (n: nat) {
    if ms == [] then 0 else (if ms[0].PeriodMove? then 1 else 0) + Periods(ms[1..])
  }

  function CapacityOf(tasks: map<nat, Budget>, id: nat): (n: nat) {
    if id in tasks then tasks[id].capacity else 0
  }

  lemma {:induction false} CapacityKept(s: State, f: Futures, id: nat)
    requires Bounded(s.tasks)
    ensures CapacityOf(RunUntilIdle(s, f).tasks, id) <= CapacityOf(s.tasks, id)
    decreases Fuel(s.tasks), |s.ready|
  {
    if s.ready != [] {
      TurnDecreases(s, f);
      CapacityKept(Turn(s, f), f, id);
    }
  }

  lemma MoveAccounts(h: History, f: Futures, m: Move, id: nat)
    requires Sound(h) && Legal(h, m) && id in h.used
    ensures var g := Apply(h, f, m);
      && id in g.used && CapacityOf(g.s.tasks, id) <= CapacityOf(h.s.tasks, id)
      && Count(g.s.polls, id) + RemainingOf(g.s.tasks, id)
         <= Count(h.s.polls, id) + RemainingOf(h.s.tasks, id) + if m.PeriodMove? then CapacityOf(h.s.tasks, id) else 0
  {
    hide RunUntilIdle;
    hide Count;
    if m.RunMove? {
      PollsWithinBudget(h.s, f, id);
      CapacityKept(h.s, f, id);
    }
  }

  lemma Scaled(n: nat, d: nat, c: nat)
    requires d <= c
    ensures n * d <= n * c && (1 + n) * c == c + n * c
  {
  }

  /** Over any history a task is polled at most its remaining budget now, plus its capacity once for each
      new period. */
  lemma {:induction false} PollsOverHistory(h: History, f: Futures, ms: seq<Move>, id: nat)
    requires Sound(h) && LegalRun(h, f, ms) && id in h.used
    ensures Count(ApplyAll(h, f, ms).s.polls, id) <= Count(h.s.polls, id) + RemainingOf(h.s.tasks, id)
      + Periods(ms) * CapacityOf(h.s.tasks, id)
    decreases |ms|
  {
    hide Apply;
    hide Count;
    hide RemainingOf;
    hide CapacityOf;
    hide Sound;
    if ms != [] {
      var g := Apply(h, f, ms[0]);
      ApplySound(h, f, ms[0]);
      MoveAccounts(h, f, ms[0], id);
      PollsOverHistory(g, f, ms[1..], id);
      Scaled(Periods(ms[1..]), CapacityOf(g.s.tasks, id), CapacityOf(h.s.tasks, id));
    }
  }

  /** Every task ever spawned is still there exactly when no poll has completed it, and none is polled after. */
  ghost predicate Lifecycle(h: History, f: Futures) {
    forall id :: id in h.used ==>
      && (id in h.s.tasks <==> !Completed(h.s.polls, f, 0, id))
      && NotPolledAgain(h.s.polls, f, 0, id)
  }

  lemma MoveLifecycle(h: History, f: Futures, m: Move)
    requires Sound(h) && Legal(h, m) && Lifecycle(h, f)
    ensures Lifecycle(Apply(h, f, m), f)
  {
    hide Completed; hide NotPolledAgain; hide RunUntilIdle;
    var g := Apply(h, f, m);
    forall id | id in g.used
      ensures id in g.s.tasks <==> !Completed(g.s.polls, f, 0, id)
      ensures NotPolledAgain(g.s.polls, f, 0, id)
    {
      if m.RunMove? { RunLifecycle(h, f, id); }
      if m.SpawnMove? && id == m.id { NeverPolled(h, f, id); }
    }
  }

  lemma RunLifecycle(h: History, f: Futures, id: nat)
    requires Sound(h) && Lifecycle(h, f) && id in h.used
    ensures var t := RunUntilIdle(h.s, f);
      (id in t.tasks <==> !Completed(t.polls, f, 0, id)) && NotPolledAgain(t.polls, f, 0, id)
  {
    hide RunUntilIdle;
    RunCompletes(h.s, f, id, 0);
    if Completed(h.s.polls, f, 0, id) { CompletedStays(h.s.polls, RunUntilIdle(h.s, f).polls, f, 0, id); }
  }

  lemma NeverPolled(h: History, f: Futures, id: nat)
    requires Sound(h) && id !in h.used
    ensures !Completed(h.s.polls, f, 0, id) && NotPolledAgain(h.s.polls, f, 0, id)
  {
  }

  /** Over any history a task leaves exactly by a poll that completes it, and is never polled after that. */
  lemma {:induction false} LeavesByCompleting(h: History, f: Futures, ms: seq<Move>)
    requires Sound(h) && LegalRun(h, f, ms) && Lifecycle(h, f)
    ensures Lifecycle(ApplyAll(h, f, ms), f)
    decreases |ms|
  {
    hide Apply; hide Sound; hide Lifecycle;
    if ms != [] {
      ApplySound(h, f, ms[0]);
      MoveLifecycle(h, f, ms[0]);
      LeavesByCompleting(Apply(h, f, ms[0]), f, ms[1..]);
    }
  }

  class Executor {
    var tasks: map<nat, Budget>
    var ready: seq<nat>
    var parked: seq<nat>
    /** The polls made so far, by task id. */
    var polls: seq<nat>
    const futures: Futures

    ghost function View(): (s: State)
      reads this
    {
      State(tasks, ready, parked, polls)
    }

    ghost predicate Valid()
      reads this
    {
      Bounded(tasks) && ParkedOk(View())
    }

    constructor (f: Futures)
      ensures Valid() && View() == State(map[], [], [], []) && futures == f
    {
      tasks, ready, parked, polls, futures := map[], [], [], [], f;
    }

    /** Task ids are never reused, so a spawned id is new. */
    method Spawn(id: nat, budget: Budget)
      requires Valid() && id !in tasks && budget.capacity <= U32_MAX
      modifies this`tasks, this`ready
      ensures Valid() && View() == old(View()).(tasks := old(tasks)[id := budget], ready := old(ready) + [id])
    {
      tasks := tasks[id := budget];
      ready := ready + [id];
    }

    /** Firing a waker, from inside a poll or from an endpoint. */
    method Wake(id: nat)
      requires Valid()
      modifies this`ready
      ensures Valid() && View() == old(View()).(ready := old(ready) + [id])
    {
      ready := ready + [id];
    }

    method RunToIdle()
      requires Valid()
      modifies this`tasks, this`ready, this`parked, this`polls
      ensures Valid() && View() == RunUntilIdle(old(View()), futures)
    {
      ghost var start := View();
      while ready != []
        invariant Valid() && RunUntilIdle(View(), futures) == RunUntilIdle(start, futures)
        decreases Fuel(tasks), |ready|
      {
        TurnDecreases(View(), futures);
        TurnParked(View(), futures);
        var id := ready[0];
        ready := ready[1..];
        if id !in tasks {
          continue;
        }
        if tasks[id].IsDepleted() {
          if id !in parked {
            parked := parked + [id];
          }
          continue;
        }
        var o := futures(|polls|, id);
        polls := polls + [id];
        ready := ready + o.wakes;
        if o.done {
          tasks := tasks - {id};
        } else {
          tasks := tasks[id := tasks[id].Charge(1)];
        }
      }
    }

    method NewPeriod()
      requires Valid()
      modifies this`tasks, this`ready, this`parked
      ensures Valid() && View() == Replenish(old(View()))
    {
      ReplenishReadmits(View());
      tasks := map id | id in tasks :: tasks[id].Replenish();
      assert tasks == Replenished(old(tasks));
      var i := 0;
      while i < |parked|
        invariant tasks == Replenished(old(tasks)) && parked == old(parked)
        invariant i <= |parked| && ready + Live(tasks, parked[i..]) == old(ready) + Live(tasks, parked)
      {
        assert parked[i..][1..] == parked[i + 1..];
        if parked[i] in tasks {
          ready := ready + [parked[i]];
        }
        i := i + 1;
      }
      LiveSame(old(tasks), tasks, parked);
      parked := [];
    }
  }

  lemma {:induction false} LiveSame(a: map<nat, Budget>, b: map<nat, Budget>, ids: seq<nat>)
    requires a.Keys == b.Keys
    ensures Live(a, ids) == Live(b, ids)
  {
    if ids != [] {
      LiveSame(a, b, ids[1..]);
      assert ids[0] in a <==> ids[0] in b;
    }
  }
}
