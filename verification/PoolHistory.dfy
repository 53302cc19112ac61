/**
  What the pending table and the outcomes of queries owe to the run that led to them: every outcome was
  delivered under the query's own id, and every entry of the table is accounted for.
 */
module PoolHistory {
  import opened Prelude
  import opened WorkerPool
  import opened PoolRuns

  /** The state before step n of the run, or its final state. */
  ghost function StateAt(count: nat, steps: seq<Step>, n: nat): Sys
    requires IsRun(count, steps) && n <= |steps|
    decreases |steps|
  {
    if n == |steps| then StateAfter(count, steps) else StateAt(count, Init(steps), n)
  }

  lemma LastState(count: nat, steps: seq<Step>)
    requires IsRun(count, steps) && steps != []
    ensures StateAt(count, steps, |steps| - 1) == StateAfter(count, Init(steps))
  {
  }

  // ---------- Where outcomes come from ----------

  /** In this state the step responds to the query from a current worker while the query is pending. */
  ghost predicate RespondsTo(s: Sys, step: Step, id: nat) {
    step.Respond? && step.id == id && id in s.pool.pending && IsCurrent(s.pool, step.worker, step.generation)
  }

  /** The step hands this outcome to the query. */
  ghost predicate Delivers(s: Sys, step: Step, id: nat, outcome: Outcome) {
    match outcome
    case Response(wire) => RespondsTo(s, step, id) && !IsError(step.error) && step.wire == wire
    case Failure(error) =>
      || (RespondsTo(s, step, id) && IsError(step.error) && step.error.value == error)
      || (step == Break(error) && id in s.pool.pending)
    case _ => false
  }

  /** Some step of the run handed this outcome to the query. */
  ghost predicate Delivered(count: nat, steps: seq<Step>, id: nat, outcome: Outcome)
    requires IsRun(count, steps)
  {
    exists n :: 0 <= n < |steps| && Delivers(StateAt(count, steps, n), steps[n], id, outcome)
  }

  lemma DeliveredPersists(count: nat, steps: seq<Step>, id: nat, outcome: Outcome)
    requires IsRun(count, steps) && steps != [] && Delivered(count, Init(steps), id, outcome)
    ensures Delivered(count, steps, id, outcome)
  {
    var n :| 0 <= n < |Init(steps)| && Delivers(StateAt(count, Init(steps), n), Init(steps)[n], id, outcome);
    assert StateAt(count, steps, n) == StateAt(count, Init(steps), n) && steps[n] == Init(steps)[n];
  }

  lemma DeliveredNow(count: nat, steps: seq<Step>, id: nat, outcome: Outcome)
    requires IsRun(count, steps) && steps != []
    requires Delivers(StateAfter(count, Init(steps)), Last(steps), id, outcome)
    ensures Delivered(count, steps, id, outcome)
  {
    LastState(count, steps);
    assert Delivers(StateAt(count, steps, |steps| - 1), steps[|steps| - 1], id, outcome);
  }

  /** An unset event has an empty holder; a set one holds an outcome that was delivered to its query. */
  ghost predicate CellRecorded(count: nat, steps: seq<Step>, id: nat, cell: Cell)
    requires IsRun(count, steps)
  {
    if cell.isSet then Delivered(count, steps, id, OutcomeOf(cell)) else cell == Cell(false, None, None)
  }

  ghost predicate QueryRecorded(count: nat, steps: seq<Step>, q: Query)
    requires IsRun(count, steps)
  {
    match q
    case Waiting(id, c) =>
      var cells := StateAfter(count, steps).pool.cells;
      c < |cells| && CellRecorded(count, steps, id, cells[c])
    case Left(id, outcome) => outcome.Response? || outcome.Failure? ==> Delivered(count, steps, id, outcome)
  }

  /** A step leaves the cell of a waiting query alone, or hands over the outcome the cell then holds. */
  lemma CellSteps(s: Sys, step: Step, w: Query)
    requires TableOk(s) && w.Waiting? && WaiterOk(s.pool, w) && Enabled(s, step)
    requires !s.pool.cells[w.cell].isSet ==> s.pool.cells[w.cell] == Cell(false, None, None)
    ensures var c, t := w.cell, Apply(s, step);
      c < |t.pool.cells| && (t.pool.cells[c] == s.pool.cells[c]
        || (t.pool.cells[c].isSet && Delivers(s, step, w.id, OutcomeOf(t.pool.cells[c])))
        || (t.pool.cells[c].isSet && s.pool.cells[c].isSet && OutcomeOf(t.pool.cells[c]) == OutcomeOf(s.pool.cells[c])))
  {
    match step
    case Break(_) => if w.id in s.pool.pending { assert PendingHas(s.pool, w.cell); }
    case Submit(_) =>
    case Respond(_, _, _, _, _) =>
    case Resume(_) =>
    case Expire(_) =>
    case _ => TableFrame(s, step);
  }

  lemma CellStaysRecorded(count: nat, steps: seq<Step>, w: Query)
    requires IsRun(count, steps) && steps != [] && w.Waiting?
    requires var s := StateAfter(count, Init(steps)); TableOk(s) && WaiterOk(s.pool, w)
    requires QueryRecorded(count, Init(steps), w)
    ensures QueryRecorded(count, steps, w)
  {
    var s := StateAfter(count, Init(steps));
    var cell := s.pool.cells[w.cell];
    CellSteps(s, Last(steps), w);
    var after := StateAfter(count, steps).pool.cells[w.cell];
    if cell.isSet {
      DeliveredPersists(count, steps, w.id, OutcomeOf(cell));
    }
    if Delivers(s, Last(steps), w.id, OutcomeOf(after)) {
      DeliveredNow(count, steps, w.id, OutcomeOf(after));
    }
  }

  /** Where a query of the next state comes from. */
  lemma QuerySteps(s: Sys, step: Step, q: nat)
    requires Enabled(s, step) && q < |Apply(s, step).queries|
    ensures var v := Apply(s, step).queries[q];
      if q < |s.queries| then
        || v == s.queries[q]
        || (step == Resume(q) && v == Left(s.queries[q].id, OutcomeOf(s.pool.cells[s.queries[q].cell])))
        || (step == Expire(q) && v == Left(s.queries[q].id, TimedOut))
      else
        && step.Submit? && q == |s.queries|
        && (v.Waiting? ==> v.cell == |s.pool.cells|)
        && (v.Waiting? ==> Apply(s, step).pool.cells == s.pool.cells + [Cell(false, None, None)])
        && (v.Left? ==> v.outcome.NoWorker? || v.outcome.QueueFull?)
  {
  }

  lemma QueryStaysRecorded(count: nat, steps: seq<Step>, q: nat)
    requires IsRun(count, steps) && steps != [] && q < |StateAfter(count, steps).queries|
    requires var s := StateAfter(count, Init(steps));
      TableOk(s) && WaitersOk(s) && (q < |s.queries| ==> QueryRecorded(count, Init(steps), s.queries[q]))
    ensures QueryRecorded(count, steps, StateAfter(count, steps).queries[q])
  {
    var s := StateAfter(count, Init(steps));
    QuerySteps(s, Last(steps), q);
    if q < |s.queries| {
      var u, v := s.queries[q], StateAfter(count, steps).queries[q];
      if v.Waiting? {
        assert WaiterOk(s.pool, u);
        CellStaysRecorded(count, steps, u);
      } else if v.outcome.Response? || v.outcome.Failure? {
        DeliveredPersists(count, steps, v.id, v.outcome);
      }
    }
  }

  lemma {:induction false} EveryQueryIsRecorded(count: nat, steps: seq<Step>, q: nat)
    requires IsRun(count, steps) && q < |StateAfter(count, steps).queries|
    ensures QueryRecorded(count, steps, StateAfter(count, steps).queries[q])
    decreases |steps|
  {
    if steps != [] {
      RunsKeepInv(count, Init(steps));
      if q < |StateAfter(count, Init(steps)).queries| {
        EveryQueryIsRecorded(count, Init(steps), q);
      }
      QueryStaysRecorded(count, steps, q);
    }
  }

  /**
    No orphaned waiter: the event of a waiting query is unset and in the table under the query's own id, or set
    with an outcome that a worker current at that time, or the breaking of the pool, delivered to this query.
   */
  lemma NoOrphanedWaiter(count: nat, steps: seq<Step>, q: nat)
    requires IsRun(count, steps) && IsWaiting(StateAfter(count, steps), q)
    ensures var p, w := StateAfter(count, steps).pool, StateAfter(count, steps).queries[q];
      w.cell < |p.cells| &&
      if p.cells[w.cell].isSet then Delivered(count, steps, w.id, OutcomeOf(p.cells[w.cell]))
      else w.id in p.pending && p.pending[w.id] == w.cell
  {
    RunsKeepInv(count, steps);
    EveryQueryIsRecorded(count, steps, q);
    assert WaiterOk(StateAfter(count, steps).pool, StateAfter(count, steps).queries[q]);
  }

  /** Whatever a query returned, response or failure, was delivered to this query by its own id. */
  lemma ReturnedOutcomeWasDelivered(count: nat, steps: seq<Step>, q: nat)
    requires IsRun(count, steps) && q < |StateAfter(count, steps).queries|
    requires StateAfter(count, steps).queries[q].Left?
    ensures var v := StateAfter(count, steps).queries[q];
      v.outcome.Response? || v.outcome.Failure? ==> Delivered(count, steps, v.id, v.outcome)
  {
    EveryQueryIsRecorded(count, steps, q);
  }

  // ---------- What is in the table ----------

  /** The first id handed out since the pool last broke. */
  ghost function Since(count: nat, steps: seq<Step>): nat
    requires IsRun(count, steps)
    decreases |steps|
  {
    if steps == [] then 0
    else if Last(steps).Break? then StateAfter(count, steps).pool.nextRequest
    else Since(count, Init(steps))
  }

  /** A query is submitted while no worker is live. */
  ghost predicate FindsNone(s: Sys, step: Step) {
    step.Submit? && !HasLive(s.pool)
  }

  /** The ids of the queries that found no live worker since the pool last broke. */
  ghost function Leaked(count: nat, steps: seq<Step>): set<nat>
    requires IsRun(count, steps)
    decreases |steps|
  {
    if steps == [] then {}
    else if Last(steps).Break? then {}
    else
      var s := StateAfter(count, Init(steps));
      Leaked(count, Init(steps)) + if FindsNone(s, Last(steps)) then {s.pool.nextRequest} else {}
  }

  /** Step n left the entry of this id behind, and the pool has not broken since. */
  ghost predicate LeaksAt(count: nat, steps: seq<Step>, n: nat, id: nat)
    requires IsRun(count, steps) && n < |steps|
  {
    && FindsNone(StateAt(count, steps, n), steps[n]) && StateAt(count, steps, n).pool.nextRequest == id
    && forall m :: n < m < |steps| ==> !steps[m].Break?
  }

  ghost predicate Leaks(count: nat, steps: seq<Step>, id: nat)
    requires IsRun(count, steps)
  {
    exists n :: 0 <= n < |steps| && LeaksAt(count, steps, n, id)
  }

  lemma {:induction false} LeakedIff(count: nat, steps: seq<Step>, id: nat)
    requires IsRun(count, steps)
    ensures id in Leaked(count, steps) <==> Leaks(count, steps, id)
    decreases |steps|
  {
    if steps != [] {
      LeakedIff(count, Init(steps), id);
      LeaksSnoc(count, steps, id);
    }
  }

  lemma LeaksSnoc(count: nat, steps: seq<Step>, id: nat)
    requires IsRun(count, steps) && steps != []
    ensures var s := StateAfter(count, Init(steps));
      Leaks(count, steps, id) <==>
        || (Leaks(count, Init(steps), id) && !Last(steps).Break?)
        || (FindsNone(s, Last(steps)) && s.pool.nextRequest == id)
  {
    var before, last := Init(steps), |steps| - 1;
    LastState(count, steps);
    if Leaks(count, before, id) && !Last(steps).Break? {
      var n :| 0 <= n < |before| && LeaksAt(count, before, n, id);
      LeaksAtBefore(count, steps, n, id);
    }
    if Leaks(count, steps, id) {
      var n :| 0 <= n < |steps| && LeaksAt(count, steps, n, id);
      if n < last { LeaksAtBefore(count, steps, n, id); }
    }
    if FindsNone(StateAfter(count, before), Last(steps)) && StateAfter(count, before).pool.nextRequest == id {
      assert LeaksAt(count, steps, last, id);
    }
  }

  lemma LeaksAtBefore(count: nat, steps: seq<Step>, n: nat, id: nat)
    requires IsRun(count, steps) && n < |steps| - 1
    ensures LeaksAt(count, steps, n, id) <==> LeaksAt(count, Init(steps), n, id) && !Last(steps).Break?
  {
    assert forall m :: 0 <= m < |steps| - 1 ==> steps[m] == Init(steps)[m];
  }

  ghost predicate Holds(s: Sys, id: nat) {
    exists q: nat :: IsWaiting(s, q) && s.queries[q].id == id
  }

  /** The table is exactly the queries waiting since the pool last broke, and the ids left behind since then. */
  ghost predicate TableIs(s: Sys, since: nat, leaked: set<nat>) {
    && since <= s.pool.nextRequest
    && (forall id: nat :: id in leaked ==> id < s.pool.nextRequest && !Holds(s, id))
    && (forall id: nat :: id in s.pool.pending <==> id in leaked || (since <= id && Holds(s, id)))
  }

  /** The step ends the wait of the query with this id. */
  ghost predicate Ends(s: Sys, step: Step, id: nat)
    requires Enabled(s, step)
  {
    (step.Resume? || step.Expire?) && s.queries[step.q].id == id
  }

  /** Who waits after a step. */
  lemma HoldSteps(s: Sys, step: Step, id: nat)
    requires WaitersOk(s) && Enabled(s, step)
    ensures Holds(Apply(s, step), id) <==>
      || (Holds(s, id) && !Ends(s, step, id))
      || (step == Submit(false) && HasLive(s.pool) && id == s.pool.nextRequest)
  {
    var t := Apply(s, step);
    if Holds(s, id) {
      var q: nat :| IsWaiting(s, q) && s.queries[q].id == id;
      assert IsWaiting(t, q) <==> step != Resume(q) && step != Expire(q);
    }
    if step == Submit(false) && HasLive(s.pool) && id == s.pool.nextRequest {
      assert IsWaiting(t, |s.queries|);
    }
    if Holds(t, id) {
      var q: nat :| IsWaiting(t, q) && t.queries[q].id == id;
      QuerySteps(s, step, q);
      if q < |s.queries| { assert IsWaiting(s, q); }
    }
  }

  /** What is in the table after a step. */
  lemma TableSteps(s: Sys, step: Step, id: nat)
    requires TableOk(s) && Enabled(s, step)
    ensures id in Apply(s, step).pool.pending <==>
      || (id in s.pool.pending && !step.Break? && !Ends(s, step, id))
      || (step.Submit? && id == s.pool.nextRequest && (!HasLive(s.pool) || step == Submit(false)))
    ensures Apply(s, step).pool.nextRequest == s.pool.nextRequest + if step.Submit? then 1 else 0
  {
  }

  lemma HeldIdIsOld(s: Sys, id: nat)
    requires WaitersOk(s) && Holds(s, id)
    ensures id < s.pool.nextRequest
  {
    var q: nat :| IsWaiting(s, q) && s.queries[q].id == id;
    assert WaiterOk(s.pool, s.queries[q]);
  }

  lemma StepKeepsExactAt(s: Sys, step: Step, since: nat, leaked: set<nat>, id: nat)
    requires TableOk(s) && WaitersOk(s) && TableIs(s, since, leaked) && Enabled(s, step) && !step.Break?
    ensures var t := Apply(s, step);
      var all := leaked + if FindsNone(s, step) then {s.pool.nextRequest} else {};
      && (id in all ==> id < t.pool.nextRequest && !Holds(t, id))
      && (id in t.pool.pending <==> id in all || (since <= id && Holds(t, id)))
  {
    HoldSteps(s, step, id);
    TableSteps(s, step, id);
    if Holds(s, id) { HeldIdIsOld(s, id); }
    if Ends(s, step, id) {
      assert IsWaiting(s, step.q);
      assert Holds(s, id);
    }
  }

  lemma StepKeepsTableExact(s: Sys, step: Step, since: nat, leaked: set<nat>)
    requires TableOk(s) && WaitersOk(s) && TableIs(s, since, leaked) && Enabled(s, step) && !step.Break?
    ensures TableIs(Apply(s, step), since, leaked + if FindsNone(s, step) then {s.pool.nextRequest} else {})
  {
    var t := Apply(s, step);
    var all := leaked + if FindsNone(s, step) then {s.pool.nextRequest} else {};
    forall id: nat
      ensures id in all ==> id < t.pool.nextRequest && !Holds(t, id)
      ensures id in t.pool.pending <==> id in all || (since <= id && Holds(t, id))
    {
      StepKeepsExactAt(s, step, since, leaked, id);
    }
    TableSteps(s, step, 0);
  }

  lemma {:induction false} TableIsExact(count: nat, steps: seq<Step>)
    requires IsRun(count, steps)
    ensures TableIs(StateAfter(count, steps), Since(count, steps), Leaked(count, steps))
    decreases |steps|
  {
    if steps != [] {
      var s := StateAfter(count, Init(steps));
      RunsKeepInv(count, Init(steps));
      RunsKeepInv(count, steps);
      TableIsExact(count, Init(steps));
      if Last(steps).Break? {
        var t := StateAfter(count, steps);
        forall id: nat | Holds(t, id) ensures id < t.pool.nextRequest {
          var q: nat :| IsWaiting(t, q) && t.queries[q].id == id;
          assert WaiterOk(t.pool, t.queries[q]);
        }
      } else {
        StepKeepsTableExact(s, Last(steps), Since(count, Init(steps)), Leaked(count, Init(steps)));
      }
    }
  }

  /**
    For every run: an id is pending exactly when its query waits and was submitted since the pool last broke, or
    its query was submitted since then and found no live worker.
   */
  lemma PendingIsWaitingOrLeaked(count: nat, steps: seq<Step>, id: nat)
    requires IsRun(count, steps)
    ensures id in StateAfter(count, steps).pool.pending <==>
      (Since(count, steps) <= id && Holds(StateAfter(count, steps), id)) || Leaks(count, steps, id)
  {
    TableIsExact(count, steps);
    LeakedIff(count, steps, id);
  }

  ghost predicate AllHeld(s: Sys) {
    forall id: nat :: id in s.pool.pending ==> Holds(s, id)
  }

  ghost predicate NoLeak(count: nat, steps: seq<Step>)
    requires IsRun(count, steps)
  {
    forall id: nat :: !Leaks(count, steps, id)
  }

  /** Every pending id is that of a waiting query exactly when no query since the last break found no live worker. */
  lemma LeakIffNoLiveWorker(count: nat, steps: seq<Step>)
    requires IsRun(count, steps)
    ensures AllHeld(StateAfter(count, steps)) <==> NoLeak(count, steps)
  {
    TableIsExact(count, steps);
    var s := StateAfter(count, steps);
    if AllHeld(s) {
      forall id: nat ensures !Leaks(count, steps, id) { LeakedIff(count, steps, id); }
    }
    if NoLeak(count, steps) {
      forall id: nat | id in s.pool.pending ensures Holds(s, id) { LeakedIff(count, steps, id); }
    }
  }

  /** A pool of one worker: it exits, and the next query leaves its entry behind. */
  lemma LeakHappens()
    ensures var steps := [Exit(0, false), Submit(false)];
      IsRun(1, steps) && !AllHeld(StateAfter(1, steps)) && 1 in StateAfter(1, steps).pool.pending
  {
    var exited := [Exit(0, false)];
    var steps := [Exit(0, false), Submit(false)];
    assert Init(exited) == [] && Last(exited) == Exit(0, false);
    assert Init(steps) == exited && Last(steps) == Submit(false);
    assert !HasLive(StateAfter(1, exited).pool);
    assert !Holds(StateAfter(1, steps), 1);
  }
}
