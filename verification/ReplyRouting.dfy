/**
  Resolve requests from workers and the replies to them, on top of the runs of the pool. The master looks the
  worker up again by its slot when it starts to handle a request, and replies to that worker's queue when it is
  done. A restarted worker reads the same queue, so a reply can reach another worker than the one that asked.
 */
module ReplyRouting {
  import opened Prelude
  import opened WorkerPool
  import PoolRuns
  import NestedResolve

  datatype Mail = Mail(queue: nat, id: string, wire: Option<string>, errorType: string, text: string)

  /** A request being resolved, with the queue its reply will go to. */
  datatype Job = Job(queue: nat, id: string)

  type Table = map<string, NestedResolve.Cell>

  /**
    The pool, the generation that asked under each id, every generation's own table, all requests the master has
    started on, and all replies sent.
   */
  datatype Net = Net(
    sys: PoolRuns.Sys, asker: map<string, nat>, tables: map<nat, Table>, jobs: seq<Job>, mail: seq<Mail>)

  datatype Step =
    | InPool(step: PoolRuns.Step)                          // anything but handling a request
    | Ask(generation: nat, id: string)                     // a worker registers a request under a fresh id
    | Begin(k: nat)                                        // the master starts on a request
    | Send(j: nat, wire: Option<string>, errorType: string, text: string)
    | Read(m: nat, generation: nat)                        // a worker reads a reply; any worker may get any reply
    | GiveUp(generation: nat, id: string)                  // the asking task ends

  function TableOf(n: Net, generation: nat): Table {
    if generation in n.tables then n.tables[generation] else map[]
  }

  predicate Enabled(n: Net, step: Step) {
    match step
    case InPool(p) =>
      && PoolRuns.Enabled(n.sys, p) && !p.HandleTask?
      && (p.Accept? ==> p.resolveId in n.asker && n.asker[p.resolveId] == p.generation)
    case Ask(_, id) => id !in n.asker
    case Begin(k) => PoolRuns.Enabled(n.sys, PoolRuns.HandleTask(k))
    case Send(j, _, _, _) => j < |n.jobs|
    case Read(m, _) => m < |n.mail|
    case GiveUp(_, _) => true
  }

  /** The queue of the worker that holds the slot now. */
  function QueueOf(workers: seq<Handle>, worker: nat): (q: Option<nat>)
    ensures q.None? <==> forall h :: h in workers ==> h.workerId != worker
  {
    if workers == [] then None
    else if workers[0].workerId == worker then Some(workers[0].queue)
    else QueueOf(workers[1..], worker)
  }

  function Apply(n: Net, step: Step): Net
    requires Enabled(n, step)
  {
    match step
    case InPool(p) => n.(sys := PoolRuns.Apply(n.sys, p))
    case Ask(g, id) =>
      n.(asker := n.asker[id := g], tables := n.tables[g := TableOf(n, g)[id := NestedResolve.Cell(false, None, None)]])
    case Begin(k) =>
      var task := n.sys.pool.tasks[k];
      var queue := QueueOf(n.sys.pool.workers, task.worker);
      n.(sys := PoolRuns.Apply(n.sys, PoolRuns.HandleTask(k)),
         jobs := if queue.None? then n.jobs else n.jobs + [Job(queue.value, task.resolveId)])
    case Send(j, wire, errorType, text) =>
      n.(mail := n.mail + [Mail(n.jobs[j].queue, n.jobs[j].id, wire, errorType, text)])
    case Read(m, g) =>
      var mail := n.mail[m];
      var table := NestedResolve.Received(TableOf(n, g), mail.id, mail.wire, mail.errorType, mail.text);
      n.(tables := n.tables[g := table])
    case GiveUp(g, id) => n.(tables := n.tables[g := TableOf(n, g) - {id}])
  }

  function Initial(count: nat): Net {
    Net(PoolRuns.Initial(count), map[], map[], [], [])
  }

  predicate IsRun(count: nat, steps: seq<Step>)
    decreases |steps|, 0
  {
    steps == [] || (IsRun(count, Init(steps)) && Enabled(StateAfter(count, Init(steps)), Last(steps)))
  }

  function StateAfter(count: nat, steps: seq<Step>): Net
    requires IsRun(count, steps)
    decreases |steps|, 1
  {
    if steps == [] then Initial(count) else Apply(StateAfter(count, Init(steps)), Last(steps))
  }

  // ---------- The invariant ----------

  /** A worker only waits for ids it asked under itself. */
  ghost predicate TablesOk(n: Net) {
    forall g: nat, id :: id in TableOf(n, g) ==> id in n.asker && n.asker[id] == g
  }

  ghost predicate TasksOk(n: Net) {
    forall k :: 0 <= k < |n.sys.pool.tasks| ==> TaskOk(n, n.sys.pool.tasks[k])
  }

  /** An accepted request carries the generation that asked. */
  ghost predicate TaskOk(n: Net, t: Task) {
    t.resolveId in n.asker && n.asker[t.resolveId] == t.generation
  }

  lemma StepKeepsTables(n: Net, step: Step)
    requires TablesOk(n) && Enabled(n, step)
    ensures TablesOk(Apply(n, step))
  {
    var t := Apply(n, step);
    forall g: nat, id | id in TableOf(t, g) ensures id in t.asker && t.asker[id] == g {
      assert id in TableOf(n, g) || step == Ask(g, id);
    }
  }

  lemma StepKeepsTasks(n: Net, step: Step)
    requires TasksOk(n) && Enabled(n, step)
    ensures TasksOk(Apply(n, step))
  {
    var t := Apply(n, step);
    forall k | 0 <= k < |t.sys.pool.tasks| ensures TaskOk(t, t.sys.pool.tasks[k]) {
      match step
      case InPool(p) => PoolRuns.TasksFrame(n.sys, p, k);
      case Begin(j) => PoolRuns.TasksFrame(n.sys, PoolRuns.HandleTask(j), k);
      case _ =>
    }
  }

  /** The pool's part of a run is a run of the pool. */
  ghost function PoolSteps(steps: seq<Step>): seq<PoolRuns.Step> {
    if steps == [] then []
    else match Last(steps)
      case InPool(p) => PoolSteps(Init(steps)) + [p]
      case Begin(k) => PoolSteps(Init(steps)) + [PoolRuns.HandleTask(k)]
      case _ => PoolSteps(Init(steps))
  }

  lemma PoolSnoc(count: nat, steps: seq<PoolRuns.Step>, p: PoolRuns.Step)
    requires PoolRuns.IsRun(count, steps) && PoolRuns.Enabled(PoolRuns.StateAfter(count, steps), p)
    ensures PoolRuns.IsRun(count, steps + [p])
    ensures PoolRuns.StateAfter(count, steps + [p]) == PoolRuns.Apply(PoolRuns.StateAfter(count, steps), p)
  {
    assert Init(steps + [p]) == steps && Last(steps + [p]) == p;
  }

  lemma {:induction false} RunsKeepInv(count: nat, steps: seq<Step>)
    requires IsRun(count, steps)
    ensures TablesOk(StateAfter(count, steps)) && TasksOk(StateAfter(count, steps))
    ensures PoolRuns.IsRun(count, PoolSteps(steps))
    ensures StateAfter(count, steps).sys == PoolRuns.StateAfter(count, PoolSteps(steps))
    decreases |steps|
  {
    if steps != [] {
      RunsKeepInv(count, Init(steps));
      var n := StateAfter(count, Init(steps));
      StepKeepsTables(n, Last(steps));
      StepKeepsTasks(n, Last(steps));
      match Last(steps)
      case InPool(p) => PoolSnoc(count, PoolSteps(Init(steps)), p);
      case Begin(k) => PoolSnoc(count, PoolSteps(Init(steps)), PoolRuns.HandleTask(k));
      case _ =>
    }
  }

  /** The state before step n of the run, or its final state. */
  ghost function StateAt(count: nat, steps: seq<Step>, n: nat): Net
    requires IsRun(count, steps) && n <= |steps|
    decreases |steps|
  {
    if n == |steps| then StateAfter(count, steps) else StateAt(count, Init(steps), n)
  }

  lemma {:induction false} PrefixIsRun(count: nat, steps: seq<Step>, n: nat)
    requires IsRun(count, steps) && n <= |steps|
    ensures IsRun(count, steps[..n]) && StateAfter(count, steps[..n]) == StateAt(count, steps, n)
    decreases |steps|
  {
    if n == |steps| {
      assert steps[..n] == steps;
    } else {
      PrefixIsRun(count, Init(steps), n);
      assert Init(steps)[..n] == steps[..n];
    }
  }

  lemma {:induction false} NextState(count: nat, steps: seq<Step>, n: nat)
    requires IsRun(count, steps) && n < |steps|
    ensures Enabled(StateAt(count, steps, n), steps[n])
    ensures StateAt(count, steps, n + 1) == Apply(StateAt(count, steps, n), steps[n])
    decreases |steps|
  {
    if n + 1 < |steps| {
      NextState(count, Init(steps), n);
    }
  }

  /** Started requests and replies stay where they are, and ids keep their asker. */
  ghost predicate Grows(n: Net, later: Net) {
    && n.jobs <= later.jobs && n.mail <= later.mail
    && forall id :: id in n.asker ==> id in later.asker && later.asker[id] == n.asker[id]
  }

  lemma StepGrows(n: Net, step: Step)
    requires Enabled(n, step)
    ensures Grows(n, Apply(n, step))
  {
  }

  lemma {:induction false} HistoryGrows(count: nat, steps: seq<Step>, n: nat, m: nat)
    requires IsRun(count, steps) && n <= m <= |steps|
    ensures Grows(StateAt(count, steps, n), StateAt(count, steps, m))
    decreases m
  {
    if n < m {
      HistoryGrows(count, steps, n, m - 1);
      NextState(count, steps, m - 1);
      StepGrows(StateAt(count, steps, m - 1), steps[m - 1]);
    }
  }

  // ---------- What every run guarantees ----------

  /** A reply changes nothing at a worker other than the one that asked for it. */
  lemma ReplyIsForItsAsker(count: nat, steps: seq<Step>, m: nat, generation: nat)
    requires IsRun(count, steps) && m < |StateAfter(count, steps).mail|
    requires var n := StateAfter(count, steps);
      n.mail[m].id in n.asker && n.asker[n.mail[m].id] != generation
    ensures var n := StateAfter(count, steps);
      forall g: nat :: TableOf(Apply(n, Read(m, generation)), g) == TableOf(n, g)
  {
    RunsKeepInv(count, steps);
  }

  /** The sender of this accepted request no longer holds its slot. */
  ghost predicate IsStale(p: Pool, k: nat) {
    && k < |p.tasks| && p.tasks[k].worker < |p.workers|
    && p.workers[p.tasks[k].worker].generation != p.tasks[k].generation
  }

  /** Starting on a stale request picks the queue of the replacement. */
  lemma StaleJob(count: nat, steps: seq<Step>, n: nat, k: nat)
    requires IsRun(count, steps) && n < |steps| && steps[n] == Begin(k)
    requires IsStale(StateAt(count, steps, n).sys.pool, k)
    ensures var s, t := StateAt(count, steps, n), StateAt(count, steps, n).sys.pool.tasks[k];
      && TaskOk(s, t)
      && StateAt(count, steps, n + 1).jobs == s.jobs + [Job(s.sys.pool.workers[t.worker].queue, t.resolveId)]
  {
    var s := StateAt(count, steps, n);
    PrefixIsRun(count, steps, n);
    RunsKeepInv(count, steps[..n]);
    PoolRuns.SlotsMatchQueues(count, PoolSteps(steps[..n]));
    SlotQueue(s.sys, s.sys.pool.tasks[k].worker);
    NextState(count, steps, n);
  }

  /**
    The reply to a request that was stale when the master started on it (step n) and that is sent later (step j)
    goes to the queue of the replacement. However the run goes on, reading it changes no event of any worker but
    the one that asked.
   */
  lemma StaleReplyIsHarmless(count: nat, steps: seq<Step>, n: nat, k: nat, j: nat, reader: nat)
    requires IsRun(count, steps) && n < j < |steps| && steps[n] == Begin(k)
    requires IsStale(StateAt(count, steps, n).sys.pool, k)
    requires steps[j].Send? && steps[j].j == |StateAt(count, steps, n).jobs|
    requires reader != StateAt(count, steps, n).sys.pool.tasks[k].generation
    ensures var s, t := StateAt(count, steps, n), StateAt(count, steps, n).sys.pool.tasks[k];
      var m, later := |StateAt(count, steps, j).mail|, StateAfter(count, steps);
      && m < |later.mail| && later.mail[m].id == t.resolveId
      && later.mail[m].queue == s.sys.pool.workers[t.worker].queue
      && forall g: nat :: TableOf(Apply(later, Read(m, reader)), g) == TableOf(later, g)
  {
    StaleJob(count, steps, n, k);
    HistoryGrows(count, steps, n, |steps|);
    HistoryGrows(count, steps, n + 1, j);
    NextState(count, steps, j);
    HistoryGrows(count, steps, j + 1, |steps|);
    ReplyIsForItsAsker(count, steps, |StateAt(count, steps, j).mail|, reader);
  }

  lemma SlotQueue(s: PoolRuns.Sys, worker: nat)
    requires PoolRuns.SlotsOk(s) && worker < |s.pool.workers|
    ensures QueueOf(s.pool.workers, worker) == Some(s.pool.workers[worker].queue)
  {
    QueueAt(s.pool.workers, worker, worker);
  }

  lemma {:induction false} QueueAt(workers: seq<Handle>, worker: nat, i: nat)
    requires i < |workers| && workers[i].workerId == worker
    requires forall j :: 0 <= j < i ==> workers[j].workerId != worker
    ensures QueueOf(workers, worker) == Some(workers[i].queue)
    decreases i
  {
    if i > 0 {
      QueueAt(workers[1..], worker, i - 1);
    }
  }
}
