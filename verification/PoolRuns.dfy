/**
  Every interleaving of queries, worker messages, worker exits, restarts and full rebuilds of the pool.
 */
module PoolRuns {
  import opened Prelude
  import opened WorkerPool

  datatype Outcome = Response(wire: Option<string>) | Failure(error: string) | TimedOut | NoWorker | QueueFull

  /** A query keeps the id it was given. */
  datatype Query = Waiting(id: nat, cell: nat) | Left(id: nat, outcome: Outcome)

  datatype Sys = Sys(pool: Pool, queries: seq<Query>, count: nat)

  datatype Step =
    | Submit(full: bool)
    | Respond(worker: nat, generation: nat, id: nat, wire: Option<string>, error: Option<string>)
    | Resume(q: nat)
    | Expire(q: nat)
    | Exit(i: nat, broken: bool)
    | Restart(i: nat)
    | Break(reason: string)
    | Rebuild(ok: bool, burned: nat)
    | Accept(worker: nat, generation: nat, resolveId: string)
    | HandleTask(k: nat)

  predicate IsWaiting(s: Sys, q: nat) {
    q < |s.queries| && s.queries[q].Waiting?
  }

  predicate Enabled(s: Sys, step: Step) {
    match step
    case Submit(_) => true
    case Respond(_, _, _, _, _) => true
    case Resume(q) => IsWaiting(s, q) && s.queries[q].cell < |s.pool.cells| && s.pool.cells[s.queries[q].cell].isSet
    case Expire(q) => IsWaiting(s, q)
    case Exit(i, _) => i < |s.pool.workers| && !s.pool.workers[i].done
    case Restart(i) => !s.pool.restarting && i < |s.pool.workers|
      && s.pool.workers[i].done && !s.pool.workers[i].broken && s.pool.workers[i].workerId < |s.pool.queues|
    case Break(_) => !s.pool.restarting && FirstBroken(s.pool.workers) < |s.pool.workers|
    case Rebuild(_, burned) => s.pool.restarting && burned <= s.count
    case Accept(_, _, _) => true
    case HandleTask(k) => k < |s.pool.tasks|
  }

  /** A query enters the table before a worker is chosen; only a query that got as far as a worker leaves it again. */
  function Submitted(s: Sys, full: bool): Sys {
    var p := s.pool;
    var id, c := p.nextRequest, |p.cells|;
    var entered := p.(
      pending := p.pending[id := c], cells := p.cells + [Cell(false, None, None)],
      nextRequest := id + 1, turn := if p.workers == [] then p.turn else p.turn + 1);
    if !HasLive(p) then s.(pool := entered, queries := s.queries + [Left(id, NoWorker)])
    else if full then s.(pool := entered.(pending := p.pending - {id}), queries := s.queries + [Left(id, QueueFull)])
    else s.(pool := entered, queries := s.queries + [Waiting(id, c)])
  }

  function Exited(h: Handle, broken: bool): Handle {
    h.(done := true, broken := broken)
  }

  function Leave(s: Sys, q: nat, outcome: Outcome): Sys
    requires IsWaiting(s, q)
  {
    var id := s.queries[q].id;
    s.(pool := s.pool.(pending := s.pool.pending - {id}), queries := s.queries[q := Left(id, outcome)])
  }

  /** What a query returns once its event is set. */
  function OutcomeOf(cell: Cell): Outcome {
    if cell.error.Some? then Failure(cell.error.value) else Response(cell.wire)
  }

  function Apply(s: Sys, step: Step): Sys
    requires Enabled(s, step)
  {
    match step
    case Submit(full) => Submitted(s, full)
    case Respond(worker, generation, id, wire, error) =>
      if IsCurrent(s.pool, worker, generation) then s.(pool := Answered(s.pool, id, wire, error)) else s
    case Resume(q) => Leave(s, q, OutcomeOf(s.pool.cells[s.queries[q].cell]))
    case Expire(q) => Leave(s, q, TimedOut)
    case Exit(i, broken) => s.(pool := s.pool.(workers := s.pool.workers[i := Exited(s.pool.workers[i], broken)]))
    case Restart(i) => s.(pool := Restarted(s.pool, i))
    case Break(error) => s.(pool := FailedAll(s.pool, error).(restarting := true))
    case Rebuild(ok, burned) =>
      var p := FreshQueues(s.pool, s.count).(workers := [], restarting := false);
      s.(pool := if ok then StartedAll(p) else p.(nextGeneration := p.nextGeneration + burned))
    case Accept(worker, generation, resolveId) =>
      if !IsCurrent(s.pool, worker, generation) then s
      else
        var task := Task(worker, generation, s.pool.nextGeneration, resolveId);
        s.(pool := s.pool.(tasks := s.pool.tasks + [task]))
    case HandleTask(k) => s.(pool := s.pool.(tasks := s.pool.tasks[..k] + s.pool.tasks[k + 1..]))
  }

  /** A pool of `count` workers that has just been started. */
  function Initial(count: nat): Sys {
    Sys(StartedAll(FreshQueues(Pool([], [], 0, 1, map[], [], 1, 0, false, []), count)), [], count)
  }

  predicate IsRun(count: nat, steps: seq<Step>)
    decreases |steps|, 0
  {
    steps == [] || (IsRun(count, Init(steps)) && Enabled(StateAfter(count, Init(steps)), Last(steps)))
  }

  function StateAfter(count: nat, steps: seq<Step>): Sys
    requires IsRun(count, steps)
    decreases |steps|, 1
  {
    if steps == [] then Initial(count) else Apply(StateAfter(count, Init(steps)), Last(steps))
  }

  // ---------- Slots and generations ----------

  /**
    Queues are distinct, and slot i holds worker i with queue i; generations are distinct and were all handed out
    by the counter.
   */
  ghost predicate SlotsOk(s: Sys) {
    var p := s.pool;
    && |p.queues| == s.count && (|p.workers| == 0 || |p.workers| == s.count)
    && (forall i :: 0 <= i < |p.queues| ==> p.queues[i] < p.nextQueue)
    && (forall i, j :: 0 <= i < j < |p.queues| ==> p.queues[i] != p.queues[j])
    && (forall i :: 0 <= i < |p.workers| ==>
          p.workers[i].workerId == i && p.workers[i].queue == p.queues[i] && p.workers[i].generation < p.nextGeneration)
    && (forall i, j :: 0 <= i < j < |p.workers| ==> p.workers[i].generation != p.workers[j].generation)
  }

  lemma CurrentIsSlot(s: Sys, worker: nat, generation: nat)
    requires SlotsOk(s)
    ensures IsCurrent(s.pool, worker, generation) <==>
      worker < |s.pool.workers| && s.pool.workers[worker].generation == generation
  {
  }

  /** Steps that concern queries and messages leave the workers alone. */
  lemma WorkersFrame(s: Sys, step: Step)
    requires Enabled(s, step) && !step.Exit? && !step.Restart? && !step.Rebuild?
    ensures var t := Apply(s, step);
      t.count == s.count && t.pool.workers == s.pool.workers && t.pool.queues == s.pool.queues
      && t.pool.nextQueue == s.pool.nextQueue
      && t.pool.nextGeneration == s.pool.nextGeneration
  {
  }

  /** A slot of t holds the worker it held in s, or one with a generation s had not handed out. */
  ghost predicate SlotAdvances(s: Sys, t: Sys, i: nat)
    requires i < |t.pool.workers|
  {
    var g := t.pool.workers[i].generation;
    g >= s.pool.nextGeneration || (i < |s.pool.workers| && g == s.pool.workers[i].generation)
  }

  lemma RestartKeepsSlots(s: Sys, i: nat)
    requires SlotsOk(s) && Enabled(s, Restart(i))
    ensures var t := Apply(s, Restart(i)); SlotsOk(t) && forall j :: 0 <= j < |t.pool.workers| ==> SlotAdvances(s, t, j)
  {
  }

  lemma RebuildKeepsSlots(s: Sys, ok: bool, burned: nat)
    requires SlotsOk(s) && Enabled(s, Rebuild(ok, burned))
    ensures var t := Apply(s, Rebuild(ok, burned)); SlotsOk(t) && forall j :: 0 <= j < |t.pool.workers| ==>
      SlotAdvances(s, t, j)
  {
  }

  lemma ExitKeepsSlots(s: Sys, i: nat, broken: bool)
    requires SlotsOk(s) && Enabled(s, Exit(i, broken))
    ensures var t := Apply(s, Exit(i, broken));
      SlotsOk(t) && s.pool.nextGeneration <= t.pool.nextGeneration
      && forall j :: 0 <= j < |t.pool.workers| ==> SlotAdvances(s, t, j)
  {
    var t := Apply(s, Exit(i, broken));
    assert t.pool.workers == s.pool.workers[i := Exited(s.pool.workers[i], broken)];
  }

  lemma OthersKeepSlots(s: Sys, step: Step)
    requires SlotsOk(s) && Enabled(s, step) && !step.Exit? && !step.Restart? && !step.Rebuild?
    ensures var t := Apply(s, step);
      SlotsOk(t) && s.pool.nextGeneration <= t.pool.nextGeneration
      && forall j :: 0 <= j < |t.pool.workers| ==> SlotAdvances(s, t, j)
  {
    WorkersFrame(s, step);
  }

  /**
    Generations strictly increase: a step keeps a slot's worker or installs one with a generation never used
    before.
   */
  lemma StepKeepsSlots(s: Sys, step: Step)
    requires SlotsOk(s) && Enabled(s, step)
    ensures var t := Apply(s, step);
      SlotsOk(t) && s.pool.nextGeneration <= t.pool.nextGeneration
      && forall i :: 0 <= i < |t.pool.workers| ==> SlotAdvances(s, t, i)
  {
    match step
    case Restart(i) => RestartKeepsSlots(s, i);
    case Rebuild(ok, burned) => RebuildKeepsSlots(s, ok, burned);
    case Exit(i, broken) => ExitKeepsSlots(s, i, broken);
    case _ => OthersKeepSlots(s, step);
  }

  /** The generation was handed out, and no slot holds it any more. */
  ghost predicate Retired(s: Sys, generation: nat) {
    generation < s.pool.nextGeneration
    && forall i :: 0 <= i < |s.pool.workers| ==> s.pool.workers[i].generation != generation
  }

  lemma RetiredStaysRetired(s: Sys, step: Step, generation: nat)
    requires SlotsOk(s) && Enabled(s, step) && Retired(s, generation)
    ensures Retired(Apply(s, step), generation)
  {
    StepKeepsSlots(s, step);
    var t := Apply(s, step);
    forall i | 0 <= i < |t.pool.workers| ensures t.pool.workers[i].generation != generation {
      assert SlotAdvances(s, t, i);
    }
  }

  // ---------- Waiting queries ----------

  ghost predicate TableOk(s: Sys) {
    && (forall id :: id in s.pool.pending ==> id < s.pool.nextRequest && s.pool.pending[id] < |s.pool.cells|)
    && (forall a, b :: a in s.pool.pending && b in s.pool.pending && s.pool.pending[a] == s.pool.pending[b] ==> a == b)
  }

  /** An unset event of a waiting query is in the table under the query's own id. */
  ghost predicate WaiterOk(p: Pool, w: Query)
    requires w.Waiting?
  {
    && w.id < p.nextRequest && w.cell < |p.cells|
    && (w.id in p.pending ==> p.pending[w.id] == w.cell)
    && (!p.cells[w.cell].isSet ==> w.id in p.pending)
    && (forall id :: id in p.pending && p.pending[id] == w.cell ==> id == w.id)
  }

  /** Ids and cells of waiting queries are private to them. */
  ghost predicate WaitersOk(s: Sys) {
    && (forall q :: 0 <= q < |s.queries| && s.queries[q].Waiting? ==> WaiterOk(s.pool, s.queries[q]))
    && (forall q, r :: 0 <= q < r < |s.queries| && s.queries[q].Waiting? && s.queries[r].Waiting? ==>
          s.queries[q].id != s.queries[r].id && s.queries[q].cell != s.queries[r].cell)
  }

  lemma StepKeepsTable(s: Sys, step: Step)
    requires TableOk(s) && Enabled(s, step)
    ensures TableOk(Apply(s, step))
  {
  }

  lemma TableFrame(s: Sys, step: Step)
    requires Enabled(s, step) && (step.Exit? || step.Restart? || step.Rebuild? || step.Accept? || step.HandleTask?)
    ensures var t := Apply(s, step);
      t.queries == s.queries && t.pool.pending == s.pool.pending && t.pool.cells == s.pool.cells
      && t.pool.nextRequest == s.pool.nextRequest
  {
  }

  /** A waiter that goes on waiting keeps its place. */
  lemma WaiterStaysOk(s: Sys, step: Step, q: nat)
    requires TableOk(s) && WaitersOk(s) && Enabled(s, step) && IsWaiting(s, q) && IsWaiting(Apply(s, step), q)
    ensures Apply(s, step).queries[q] == s.queries[q] && WaiterOk(Apply(s, step).pool, s.queries[q])
  {
    var w := s.queries[q];
    assert WaiterOk(s.pool, w);
    match step
    case Break(reason) =>
      if w.id in s.pool.pending { assert PendingHas(s.pool, w.cell); }
    case Resume(r) => assert s.queries[r].id != w.id || r == q;
    case Expire(r) => assert s.queries[r].id != w.id || r == q;
    case Submit(_) =>
    case Respond(_, _, _, _, _) =>
    case _ => TableFrame(s, step);
  }

  lemma StepKeepsWaiters(s: Sys, step: Step)
    requires TableOk(s) && WaitersOk(s) && Enabled(s, step)
    ensures WaitersOk(Apply(s, step))
  {
    var t := Apply(s, step);
    forall q | 0 <= q < |t.queries| && t.queries[q].Waiting? ensures WaiterOk(t.pool, t.queries[q]) {
      if q < |s.queries| {
        WaiterStaysOk(s, step, q);
      }
    }
    forall q, r | 0 <= q < r < |t.queries| && t.queries[q].Waiting? && t.queries[r].Waiting?
      ensures t.queries[q].id != t.queries[r].id && t.queries[q].cell != t.queries[r].cell
    {
      WaiterStaysOk(s, step, q);
      if r < |s.queries| {
        WaiterStaysOk(s, step, r);
      } else {
        assert WaiterOk(s.pool, s.queries[q]);
      }
    }
  }

  // ---------- Accepted resolve requests ----------

  /** The sender is still in its slot exactly when the slot's generation predates the acceptance. */
  ghost predicate TaskOk(s: Sys, t: Task) {
    && t.generation < t.acceptedAt <= s.pool.nextGeneration
    && (t.worker < |s.pool.workers| && s.pool.workers[t.worker].generation < t.acceptedAt ==>
          s.pool.workers[t.worker].generation == t.generation)
  }

  ghost predicate TasksOk(s: Sys) {
    forall k :: 0 <= k < |s.pool.tasks| ==> TaskOk(s, s.pool.tasks[k])
  }

  lemma TaskStaysOk(s: Sys, step: Step, t: Task)
    requires SlotsOk(s) && TaskOk(s, t) && Enabled(s, step)
    ensures TaskOk(Apply(s, step), t)
  {
    StepKeepsSlots(s, step);
    if t.worker < |Apply(s, step).pool.workers| {
      assert SlotAdvances(s, Apply(s, step), t.worker);
    }
  }

  /** Where the accepted requests of the next state come from. */
  lemma TasksFrame(s: Sys, step: Step, k: nat)
    requires Enabled(s, step) && k < |Apply(s, step).pool.tasks|
    ensures var t := Apply(s, step).pool.tasks[k];
      t in s.pool.tasks
      || (step.Accept? && IsCurrent(s.pool, step.worker, step.generation)
          && t == Task(step.worker, step.generation, s.pool.nextGeneration, step.resolveId))
  {
  }

  lemma StepKeepsTasks(s: Sys, step: Step)
    requires SlotsOk(s) && TasksOk(s) && Enabled(s, step)
    ensures TasksOk(Apply(s, step))
  {
    var t := Apply(s, step);
    forall k | 0 <= k < |t.pool.tasks| ensures TaskOk(t, t.pool.tasks[k]) {
      TasksFrame(s, step, k);
      if t.pool.tasks[k] in s.pool.tasks {
        TaskStaysOk(s, step, t.pool.tasks[k]);
      } else {
        CurrentIsSlot(s, step.worker, step.generation);
      }
    }
  }

  // ---------- Over whole runs ----------

  ghost predicate Inv(s: Sys) {
    SlotsOk(s) && TableOk(s) && WaitersOk(s) && TasksOk(s)
  }

  lemma {:induction false} RunsKeepInv(count: nat, steps: seq<Step>)
    requires IsRun(count, steps)
    ensures Inv(StateAfter(count, steps))
    decreases |steps|
  {
    if steps != [] {
      RunsKeepInv(count, Init(steps));
      var s := StateAfter(count, Init(steps));
      StepKeepsSlots(s, Last(steps));
      StepKeepsTable(s, Last(steps));
      StepKeepsWaiters(s, Last(steps));
      StepKeepsTasks(s, Last(steps));
    }
  }

  /** A generation that has been replaced never becomes current again. */
  lemma {:induction false} RetiredForGood(count: nat, steps: seq<Step>, more: seq<Step>, generation: nat)
    requires IsRun(count, steps + more) && IsRun(count, steps) && Retired(StateAfter(count, steps), generation)
    ensures Retired(StateAfter(count, steps + more), generation)
    decreases |more|
  {
    if more == [] {
      assert steps + more == steps;
    } else {
      assert Init(steps + more) == steps + Init(more) && Last(steps + more) == Last(more);
      RetiredForGood(count, steps, Init(more), generation);
      RunsKeepInv(count, steps + Init(more));
      RetiredStaysRetired(StateAfter(count, steps + Init(more)), Last(more), generation);
    }
  }

  /**
    Stale messages are never acted on: once a worker has been replaced, however the run goes on, neither a
    query response nor a resolve request carrying its generation changes anything.
   */
  lemma StaleMessagesAreIgnored(count: nat, steps: seq<Step>, more: seq<Step>, generation: nat, step: Step)
    requires IsRun(count, steps + more) && IsRun(count, steps) && Retired(StateAfter(count, steps), generation)
    requires (step.Respond? || step.Accept?) && step.generation == generation
    ensures Apply(StateAfter(count, steps + more), step) == StateAfter(count, steps + more)
  {
    RetiredForGood(count, steps, more, generation);
    RunsKeepInv(count, steps + more);
    CurrentIsSlot(StateAfter(count, steps + more), step.worker, step.generation);
  }

  /** In every reachable state slot i holds worker i with queue i, and generations are pairwise distinct. */
  lemma SlotsMatchQueues(count: nat, steps: seq<Step>)
    requires IsRun(count, steps)
    ensures SlotsOk(StateAfter(count, steps))
  {
    RunsKeepInv(count, steps);
  }

  /** Breaking the pool leaves no waiter unset: each one it finds unset gets the error. */
  lemma BreakingFailsEveryWaiter(count: nat, steps: seq<Step>, error: string, q: nat)
    requires IsRun(count, steps + [Break(error)]) && IsRun(count, steps) && IsWaiting(StateAfter(count, steps), q)
    ensures var s, t := StateAfter(count, steps), StateAfter(count, steps + [Break(error)]);
      && t.pool.pending == map[] && t.queries[q] == s.queries[q]
      && t.queries[q].cell < |t.pool.cells| && t.pool.cells[t.queries[q].cell].isSet
      && (!s.pool.cells[s.queries[q].cell].isSet ==> t.pool.cells[t.queries[q].cell].error == Some(error))
  {
    RunsKeepInv(count, steps);
    assert WaiterOk(StateAfter(count, steps).pool, StateAfter(count, steps).queries[q]);
    assert Init(steps + [Break(error)]) == steps;
    var s := StateAfter(count, steps);
    var w := s.queries[q];
    if w.id in s.pool.pending {
      assert PendingHas(s.pool, w.cell);
    }
  }

  /** A current worker's response to a pending query sets its event with the response's own outcome. */
  lemma ResponseReachesItsQuery(s: Sys, step: Step, q: nat)
    requires SlotsOk(s) && WaitersOk(s) && step.Respond? && IsWaiting(s, q)
    requires step.id == s.queries[q].id && step.id in s.pool.pending
    requires step.worker < |s.pool.workers| && s.pool.workers[step.worker].generation == step.generation
    requires s.queries[q].cell < |s.pool.cells| && s.pool.cells[s.queries[q].cell] == Cell(false, None, None)
    ensures var t := Apply(s, step);
      && t.queries == s.queries && Enabled(t, Resume(q))
      && Apply(t, Resume(q)).queries[q] == Left(step.id,
           if step.error.Some? && step.error.value != "" then Failure(step.error.value) else Response(step.wire))
  {
    assert WaiterOk(s.pool, s.queries[q]);
    CurrentIsSlot(s, step.worker, step.generation);
  }

  /** A response resolves at most the one query whose id it carries. */
  lemma ResponseResolvesOneQuery(count: nat, steps: seq<Step>, step: Step, q: nat)
    requires IsRun(count, steps) && step.Respond? && IsWaiting(StateAfter(count, steps), q)
    requires StateAfter(count, steps).queries[q].id != step.id
    ensures var s := StateAfter(count, steps);
      var c := s.queries[q].cell;
      c < |s.pool.cells| && Apply(s, step).pool.cells[c] == s.pool.cells[c]
  {
    RunsKeepInv(count, steps);
    assert WaiterOk(StateAfter(count, steps).pool, StateAfter(count, steps).queries[q]);
  }

  /** An accepted resolve request is still its sender's exactly when its slot has not been refilled since. */
  lemma AcceptedRequestIsFresh(count: nat, steps: seq<Step>, k: nat)
    requires IsRun(count, steps) && k < |StateAfter(count, steps).pool.tasks|
    ensures var p := StateAfter(count, steps).pool;
      var t := p.tasks[k];
      IsCurrent(p, t.worker, t.generation) <==> t.worker < |p.workers| && p.workers[t.worker].generation < t.acceptedAt
  {
    RunsKeepInv(count, steps);
    var s := StateAfter(count, steps);
    assert TaskOk(s, s.pool.tasks[k]);
    CurrentIsSlot(s, s.pool.tasks[k].worker, s.pool.tasks[k].generation);
  }

  /**
    Acceptance is no guarantee: from any reachable state with a live worker in slot i, that worker's request can
    be accepted and then come to be handled after the worker was replaced.
   */
  lemma AcceptedRequestCanGoStale(count: nat, steps: seq<Step>, i: nat, id: string)
    requires IsRun(count, steps) && !StateAfter(count, steps).pool.restarting
    requires i < |StateAfter(count, steps).pool.workers| && !StateAfter(count, steps).pool.workers[i].done
    ensures var s := StateAfter(count, steps);
      var g := s.pool.workers[i].generation;
      var a := Apply(s, Accept(i, g, id));
      Enabled(a, Exit(i, false)) && var b := Apply(a, Exit(i, false));
      Enabled(b, Restart(i)) && var c := Apply(b, Restart(i));
      Enabled(c, HandleTask(|s.pool.tasks|)) && c.pool.tasks[|s.pool.tasks|].generation == g && Retired(c, g)
  {
    RunsKeepInv(count, steps);
    var s := StateAfter(count, steps);
    var g := s.pool.workers[i].generation;
    CurrentIsSlot(s, i, g);
    var a := Apply(s, Accept(i, g, id));
    assert a.pool.tasks == s.pool.tasks + [Task(i, g, s.pool.nextGeneration, id)];
  }

  /** A sweep of the supervisor is a sequence of single restarts. */
  lemma SweepIsRestarts(s: Sys, n: nat)
    requires !s.pool.restarting && n < FirstBroken(s.pool.workers) && IdsInRange(s.pool)
    ensures var before, after := s.(pool := Swept(s.pool, n)), s.(pool := Swept(s.pool, n + 1));
      after == before || (Enabled(before, Restart(n)) && after == Apply(before, Restart(n)))
  {
    SweptKeepsFlag(s.pool, n);
  }

  lemma SweptKeepsFlag(p: Pool, n: nat)
    requires n <= |p.workers| && IdsInRange(p)
    ensures Swept(p, n).restarting == p.restarting
  {
  }
}
