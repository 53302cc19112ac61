/**
  The multiprocess worker pool: slots of workers with generations, restarts and rebuilds, and the
  bookkeeping of the queries that wait for a worker's response.
 */
module WorkerPool {
  import opened Prelude
  import opened Bits

  /** A worker; once its task is done, `broken` says whether it ended with the breaking of the whole pool. */
  datatype Handle = Handle(workerId: nat, queue: nat, generation: nat, done: bool, broken: bool)

  /** The event of one query with its holder. */
  datatype Cell = Cell(isSet: bool, wire: Option<string>, error: Option<string>)

  /**
    A resolve request that was accepted and is yet to be handled; `acceptedAt` is the generation counter at that
    time.
   */
  datatype Task = Task(worker: nat, generation: nat, acceptedAt: nat, resolveId: string)

  datatype Pool = Pool(
    workers: seq<Handle>, queues: seq<nat>, nextQueue: nat, nextGeneration: nat,
    pending: map<nat, nat>, cells: seq<Cell>, nextRequest: nat, turn: nat, restarting: bool, tasks: seq<Task>)

  // ---------- Workers ----------

  /** A new worker with this id: the queue of its slot, the next generation. */
  function Started(p: Pool, workerId: nat): (h: Handle)
    requires workerId < |p.queues|
  {
    Handle(workerId, p.queues[workerId], p.nextGeneration, false, false)
  }

  function Restarted(p: Pool, index: nat): (r: Pool)
    requires index < |p.workers| && p.workers[index].workerId < |p.queues|
  {
    p.(workers := p.workers[index := Started(p, p.workers[index].workerId)], nextGeneration := p.nextGeneration + 1)
  }

  ghost predicate IdsInRange(p: Pool) {
    forall i :: 0 <= i < |p.workers| ==> p.workers[i].workerId < |p.queues|
  }

  /** The position of the first worker that ended with the whole pool, or the number of workers. */
  function FirstBroken(workers: seq<Handle>): (n: nat)
    ensures n <= |workers| && forall i :: 0 <= i < n ==> !(workers[i].done && workers[i].broken)
    ensures n < |workers| ==> workers[n].done && workers[n].broken
  {
    if workers == [] then 0
    else if workers[0].done && workers[0].broken then 0
    else 1 + FirstBroken(workers[1..])
  }

  /** The first n slots after one sweep of the supervisor: every exited worker is replaced. */
  function Swept(p: Pool, n: nat): (r: Pool)
    requires n <= |p.workers| && IdsInRange(p)
    ensures |r.workers| == |p.workers| && r.queues == p.queues && IdsInRange(r)
    ensures forall i :: n <= i < |p.workers| ==> r.workers[i] == p.workers[i]
  {
    if n == 0 then p
    else
      var q := Swept(p, n - 1);
      if q.workers[n - 1].done then Restarted(q, n - 1) else q
  }

  /** After a sweep the swept slots hold live workers: the old one if it was live, else a new generation. */
  lemma {:induction false} SweptIsLive(p: Pool, n: nat)
    requires n <= |p.workers| && IdsInRange(p)
    ensures Swept(p, n).nextGeneration >= p.nextGeneration
    ensures forall i :: 0 <= i < n ==>
      && !Swept(p, n).workers[i].done && Swept(p, n).workers[i].workerId == p.workers[i].workerId
      && (if p.workers[i].done then Swept(p, n).workers[i].generation >= p.nextGeneration
          else Swept(p, n).workers[i] == p.workers[i])
    decreases n
  {
    if n > 0 {
      SweptIsLive(p, n - 1);
    }
  }

  /** One worker per queue, in slot order, with consecutive generations. */
  function StartedAll(p: Pool): (r: Pool) {
    p.(workers := seq(|p.queues|, i requires 0 <= i < |p.queues| =>
         Handle(i, p.queues[i], p.nextGeneration + i, false, false)),
       nextGeneration := p.nextGeneration + |p.queues|)
  }

  function FreshQueues(p: Pool, count: nat): (r: Pool) {
    p.(queues := seq(count, i => p.nextQueue + i), nextQueue := p.nextQueue + count)
  }

  /** The worker that currently holds the slot has this id and generation. */
  predicate IsCurrent(p: Pool, worker: nat, generation: nat) {
    exists i :: 0 <= i < |p.workers| && p.workers[i].workerId == worker && p.workers[i].generation == generation
      && forall j :: 0 <= j < i ==> p.workers[j].workerId != worker
  }

  predicate HasLive(p: Pool) {
    exists i :: 0 <= i < |p.workers| && !p.workers[i].done
  }

  ghost predicate SkippedAreDone(workers: seq<Handle>, turn: nat, offset: nat)
    requires workers != []
  {
    forall k: nat :: k < offset ==> workers[TurnSlot(turn, k, |workers|)].done
  }

  // ---------- Pending queries ----------

  /** An empty error text counts as no error. */
  predicate IsError(error: Option<string>) {
    error.Some? && error.value != ""
  }

  /** A response is recorded in the holder of its query and sets the event; unknown ids are ignored. */
  function Answered(p: Pool, id: nat, wire: Option<string>, error: Option<string>): (r: Pool) {
    if id !in p.pending || p.pending[id] >= |p.cells| then p
    else
      var c := p.pending[id];
      var cell := if IsError(error) then p.cells[c].(error := error) else p.cells[c].(wire := wire);
      p.(cells := p.cells[c := cell.(isSet := true)])
  }

  predicate PendingHas(p: Pool, c: nat) {
    exists id :: id in p.pending && p.pending[id] == c
  }

  /** Every pending query fails with the same error and leaves the table. */
  function FailedAll(p: Pool, error: string): (r: Pool) {
    p.(pending := map[],
       cells := seq(|p.cells|, c requires 0 <= c < |p.cells| =>
         if PendingHas(p, c) then p.cells[c].(isSet := true, error := Some(error)) else p.cells[c]))
  }

  // ---------- The object ----------

  class PoolObject {
    var workers: seq<Handle>
    var queues: seq<nat>
    var nextQueue: nat
    var nextGeneration: nat
    var pending: map<nat, nat>
    var cells: seq<Cell>
    var nextRequest: nat
    var turn: nat
    var restarting: bool
    var tasks: seq<Task>

    function View(): Pool reads this {
      Pool(workers, queues, nextQueue, nextGeneration, pending, cells, nextRequest, turn, restarting, tasks)
    }

    method StartWorkers()
      modifies this`workers, this`nextGeneration
      ensures View() == StartedAll(old(View()))
      ensures |workers| == |queues| && nextGeneration == old(nextGeneration) + |queues|
      ensures forall i :: 0 <= i < |workers| ==>
        workers[i].workerId == i && workers[i].queue == queues[i] && !workers[i].done
        && workers[i].generation == old(nextGeneration) + i
    {
      var started: seq<Handle> := [];
      for i := 0 to |queues|
        invariant |started| == i && nextGeneration == old(nextGeneration) + i
        invariant forall k :: 0 <= k < i ==> started[k] == Handle(k, queues[k], old(nextGeneration) + k, false, false)
      {
        started := started + [Started(View(), i)];
        nextGeneration := nextGeneration + 1;
      }
      workers := started;
    }

    method RestartSlot(index: nat)
      requires index < |workers| && workers[index].workerId < |queues|
      modifies this`workers, this`nextGeneration
      ensures View() == Restarted(old(View()), index)
    {
      workers := workers[index := Started(View(), workers[index].workerId)];
      nextGeneration := nextGeneration + 1;
    }

    /** One sweep of the supervisor; it stops at a worker that ended with the whole pool and asks for a rebuild. */
    method RestartFinishedWorkers() returns (rebuild: bool)
      requires IdsInRange(View())
      modifies this`workers, this`nextGeneration
      ensures restarting ==> View() == old(View()) && !rebuild
      ensures !restarting ==> View() == Swept(old(View()), FirstBroken(old(workers)))
      ensures !restarting ==> (rebuild <==> FirstBroken(old(workers)) < |old(workers)|)
    {
      if restarting {
        return false;
      }
      for index := 0 to |workers|
        invariant View() == Swept(old(View()), index)
        invariant forall i :: 0 <= i < index ==> !(old(workers)[i].done && old(workers)[i].broken)
      {
        if workers[index].done {
          if workers[index].broken {
            return true;
          }
          RestartSlot(index);
        }
      }
      return false;
    }

    /** Round robin from the next turn, skipping workers that have exited. */
    method NextWorker() returns (found: Option<nat>)
      modifies this`turn
      ensures found.None? <==> !HasLive(View())
      ensures workers != [] ==> turn == old(turn) + 1
      ensures workers != [] && (forall i :: 0 <= i < |workers| ==> !workers[i].done) ==>
        found == Some(old(turn) % |workers|)
      ensures found.Some? ==> found.value < |workers| && !workers[found.value].done
      ensures found.Some? ==>
        exists offset: nat :: offset < |workers| && found.value == TurnSlot(old(turn), offset, |workers|)
          && SkippedAreDone(workers, old(turn), offset)
    {
      if workers == [] {
        return None;
      }
      var start := turn;
      turn := turn + 1;
      var n := |workers|;
      var offset := 0;
      while offset < n
        invariant 0 <= offset <= n
        invariant SkippedAreDone(workers, start, offset)
      {
        var slot := TurnSlot(start, offset, n);
        if !workers[slot].done {
          assert offset > 0 ==> workers[TurnSlot(start, 0, n)].done;
          return Some(slot);
        }
        offset := offset + 1;
      }
      forall i | 0 <= i < n ensures workers[i].done {
        var k := RoundRobinCovers(start, n, i);
        assert workers[TurnSlot(start, k, n)].done;
      }
      assert workers[0].done;
      return None;
    }

    method IsCurrentMessage(worker: nat, generation: nat) returns (b: bool)
      ensures b == IsCurrent(View(), worker, generation)
    {
      var i := 0;
      while i < |workers|
        invariant 0 <= i <= |workers|
        invariant forall j :: 0 <= j < i ==> workers[j].workerId != worker
      {
        if workers[i].workerId == worker {
          return workers[i].generation == generation;
        }
        i := i + 1;
      }
      return false;
    }

    method HandleQueryResponse(id: nat, wire: Option<string>, error: Option<string>)
      requires forall k :: k in pending ==> pending[k] < |cells|
      modifies this`cells
      ensures View() == Answered(old(View()), id, wire, error)
      ensures id in pending ==>
        var cell, was := cells[pending[id]], old(cells)[pending[id]];
        && cell.isSet
        && (if error.Some? && error.value != "" then cell.error == error && cell.wire == was.wire
            else cell.wire == wire && cell.error == was.error)
    {
      if id !in pending {
        return;
      }
      var c := pending[id];
      if IsError(error) {
        cells := cells[c := cells[c].(error := error)];
      } else {
        cells := cells[c := cells[c].(wire := wire)];
      }
      cells := cells[c := cells[c].(isSet := true)];
    }

    method FailPending(error: string)
      requires forall k :: k in pending ==> pending[k] < |cells|
      modifies this`pending, this`cells
      ensures View() == FailedAll(old(View()), error)
    {
      var todo := pending.Keys;
      while todo != {}
        invariant todo <= pending.Keys && pending == old(pending) && |cells| == |old(cells)|
        invariant forall c :: 0 <= c < |cells| ==>
          cells[c] == old(cells)[c] || cells[c] == old(cells)[c].(isSet := true, error := Some(error))
        invariant forall c :: 0 <= c < |cells| && cells[c] != old(cells)[c] ==> PendingHas(old(View()), c)
        invariant forall k :: k in pending && k !in todo ==>
          cells[pending[k]] == old(cells)[pending[k]].(isSet := true, error := Some(error))
      {
        var k :| k in todo;
        var c := pending[k];
        cells := cells[c := cells[c].(error := Some(error))];
        cells := cells[c := cells[c].(isSet := true)];
        todo := todo - {k};
      }
      assert cells == FailedAll(old(View()), error).cells;
      pending := map[];
    }
  }

  /** The slot tried at this offset from the turn. */
  function TurnSlot(turn: nat, offset: nat, n: nat): (slot: nat)
    requires n > 0
    ensures slot < n
  {
    (turn + offset) % n
  }

  /** The next turn is the next slot, and after the last the first. */
  lemma NextTurn(turn: nat, n: nat)
    requires n > 0
    ensures (turn + 1) % n == if turn % n + 1 == n then 0 else turn % n + 1
  {
    var q, b := turn / n, turn % n;
    assert turn == q * n + b;
    if b + 1 == n {
      assert (q + 1) * n == q * n + n;
      QuotientIsUnique(turn + 1, q + 1, 0, n);
    } else {
      QuotientIsUnique(turn + 1, q, b + 1, n);
    }
  }

  lemma RoundRobinCovers(turn: nat, n: nat, i: nat) returns (offset: nat)
    requires i < n
    ensures offset < n && TurnSlot(turn, offset, n) == i
  {
    var q, b := turn / n, turn % n;
    offset := if b <= i then i - b else i - b + n;
    assert turn == q * n + b;
    QuotientIsUnique(turn + offset, if b <= i then q else q + 1, i, n);
  }
}
