/**
  Every interleaving of any number of `process_query` calls over one front cache, one step per critical
  section or await. Requests with the same key share one worker call.
 */
module Coalescing {
  import opened Prelude
  import opened Messages
  import opened FrontCache

  datatype Phase =
    | Checking                                                   // about to look in the cache
    | Acquiring                                                  // missed; waiting for the pending lock
    | Waiting(cell: nat)                                         // follower of another request
    | Calling                                                    // owner: the worker call is in flight
    | Completing(response: Option<Message>, written: bool)       // owner: about to complete the pending entry
    | Returned(reply: Option<Message>)

  datatype Call = Call(request: Message, phase: Phase)

  /** What the worker pool decided for one call: its reply, or SERVFAIL after an exception. */
  datatype Decision = Decision(call: nat, message: Message)

  datatype Sys = Sys(front: Front, calls: seq<Call>, decisions: seq<Decision>)

  datatype Step =
    | Arrive(request: Message)
    | Hit(r: nat, now: real)
    | Miss(r: nat)
    | Acquired(r: nat)
    | Wake(r: nat)
    | Reply(r: nat, reply: Option<Message>, expiration: real)
    | Fail(r: nat)                                               // the worker call, or storing its reply, raises
    | Finish(r: nat)
    | Forget(key: Key)                                           // the LRU cache drops an entry

  predicate At(s: Sys, r: nat, p: Phase) {
    r < |s.calls| && s.calls[r].phase == p
  }

  predicate Enabled(s: Sys, step: Step) {
    match step
    case Arrive(_) => true
    case Hit(r, _) => At(s, r, Checking) && KeyOf(s.calls[r].request).Some?
      && KeyOf(s.calls[r].request).value in s.front.entries
    case Miss(r) => At(s, r, Checking)
    case Acquired(r) => At(s, r, Acquiring)
    case Wake(r) => r < |s.calls| && s.calls[r].phase.Waiting?
      && s.calls[r].phase.cell < |s.front.cells| && s.front.cells[s.calls[r].phase.cell].isSet
    case Reply(r, reply, _) => At(s, r, Calling) && (reply.Some? ==> reply.value.id == s.calls[r].request.id)
    case Fail(r) => At(s, r, Calling)
    case Finish(r) => r < |s.calls| && s.calls[r].phase.Completing?
    case Forget(_) => true
  }

  function Moved(s: Sys, r: nat, p: Phase): Sys
    requires r < |s.calls|
  {
    s.(calls := s.calls[r := s.calls[r].(phase := p)])
  }

  function Apply(s: Sys, step: Step): Sys
    requires Enabled(s, step)
  {
    match step
    case Arrive(request) => s.(calls := s.calls + [Call(request, Checking)])
    case Hit(r, now) =>
      var request := s.calls[r].request;
      Moved(s, r, Returned(Some(Served(s.front.entries[KeyOf(request).value], request, now))))
    case Miss(r) => Moved(s, r, Acquiring)
    case Acquired(r) =>
      var (front, cell) := Acquire(s.front, s.calls[r].request);
      Moved(s, r, if cell.Some? then Waiting(cell.value) else Calling).(front := front)
    case Wake(r) =>
      var cell := s.front.cells[s.calls[r].phase.cell];
      Moved(s, r, if cell.wire.None? then Checking else Returned(Some(CloneFor(cell.wire.value, s.calls[r].request))))
    case Reply(r, reply, expiration) =>
      var request := s.calls[r].request;
      Moved(s, r, Completing(reply, Storable(request, reply))).(
        front := Put(s.front, request, reply, expiration),
        decisions := if reply.None? then s.decisions else s.decisions + [Decision(r, reply.value)])
    case Fail(r) =>
      var servfail := ErrorResponse(s.calls[r].request, SERVFAIL);
      Moved(s, r, Completing(Some(servfail), false)).(decisions := s.decisions + [Decision(r, servfail)])
    case Finish(r) =>
      var p := s.calls[r].phase;
      Moved(s, r, Returned(p.response)).(front := Complete(s.front, KeyOf(s.calls[r].request), p.response, p.written))
    case Forget(key) => s.(front := s.front.(entries := s.front.entries - {key}))
  }

  const INITIAL := Sys(Front(map[], map[], []), [], [])

  /** The steps can be taken one after the other from the initial state. */
  predicate IsRun(steps: seq<Step>)
    decreases |steps|, 0
  {
    steps == [] || (IsRun(Init(steps)) && Enabled(StateAfter(Init(steps)), Last(steps)))
  }

  function StateAfter(steps: seq<Step>): Sys
    requires IsRun(steps)
    decreases |steps|, 1
  {
    if steps == [] then INITIAL else Apply(StateAfter(Init(steps)), Last(steps))
  }

  // ---------- Single ownership ----------

  /** The call holds the pending entry of its key. */
  ghost predicate Owns(s: Sys, r: nat, k: Key) {
    r < |s.calls| && (s.calls[r].phase.Calling? || s.calls[r].phase.Completing?) && KeyOf(s.calls[r].request) == Some(k)
  }

  ghost predicate PendingOk(f: Front) {
    && (forall k :: k in f.pending ==> f.pending[k] < |f.cells| && f.cells[f.pending[k]] == Cell(k, false, None))
    && (forall c :: 0 <= c < |f.cells| && !f.cells[c].isSet ==>
      f.cells[c].key in f.pending && f.pending[f.cells[c].key] == c)
  }

  /** A key is pending exactly while a call owns it, and only one call owns it. */
  ghost predicate SingleOwner(s: Sys) {
    && (forall k :: k in s.front.pending ==> exists r :: Owns(s, r, k))
    && (forall r, k :: Owns(s, r, k) ==> k in s.front.pending)
    && (forall r, q, k :: Owns(s, r, k) && Owns(s, q, k) ==> r == q)
  }

  /** A follower waits on a cell of its own key. */
  ghost predicate FollowersOk(s: Sys) {
    forall r :: 0 <= r < |s.calls| && s.calls[r].phase.Waiting? ==>
      var c := s.calls[r].phase.cell;
      c < |s.front.cells| && KeyOf(s.calls[r].request) == Some(s.front.cells[c].key)
  }

  // ---------- Where replies come from ----------

  /** Some call with this key was given this answer by the worker pool. */
  ghost predicate Decided(s: Sys, k: Key, m: Message) {
    exists i :: 0 <= i < |s.decisions| && s.decisions[i].call < |s.calls|
      && KeyOf(s.calls[s.decisions[i].call].request) == Some(k) && SameAnswer(m, s.decisions[i].message)
  }

  ghost predicate OwnReply(s: Sys, r: nat, m: Message) {
    exists i :: 0 <= i < |s.decisions| && s.decisions[i] == Decision(r, m)
  }

  ghost predicate Transparent(s: Sys, r: nat, m: Message)
    requires r < |s.calls|
  {
    && m.id == s.calls[r].request.id
    && (OwnReply(s, r, m) || (KeyOf(s.calls[r].request).Some? && Decided(s, KeyOf(s.calls[r].request).value, m)))
  }

  ghost predicate OriginsOk(s: Sys) {
    && (forall i :: 0 <= i < |s.decisions| ==> s.decisions[i].call < |s.calls|)
    && (forall k :: k in s.front.entries ==> Decided(s, k, s.front.entries[k].response))
    && (forall c :: 0 <= c < |s.front.cells| && s.front.cells[c].wire.Some? ==>
      Decided(s, s.front.cells[c].key, s.front.cells[c].wire.value))
    && (forall r :: 0 <= r < |s.calls| && s.calls[r].phase.Completing? && s.calls[r].phase.response.Some? ==>
          s.calls[r].phase.response.value.id == s.calls[r].request.id
            && OwnReply(s, r, s.calls[r].phase.response.value))
    && (forall r :: 0 <= r < |s.calls| && s.calls[r].phase.Returned? && s.calls[r].phase.reply.Some? ==>
          Transparent(s, r, s.calls[r].phase.reply.value))
  }

  ghost predicate Inv(s: Sys) {
    PendingOk(s.front) && SingleOwner(s) && FollowersOk(s) && OriginsOk(s)
  }

  // ---------- Every step keeps the invariant ----------

  lemma StepKeepsPending(s: Sys, step: Step)
    requires PendingOk(s.front) && Enabled(s, step)
    ensures PendingOk(Apply(s, step).front)
  {
  }

  /** Ownership starts by acquiring a key nobody holds, and ends by finishing. */
  lemma OwnershipSteps(s: Sys, step: Step, r: nat, k: Key)
    requires Enabled(s, step)
    ensures Owns(Apply(s, step), r, k) <==>
      (Owns(s, r, k) && step != Finish(r))
      || (step == Acquired(r) && KeyOf(s.calls[r].request) == Some(k) && k !in s.front.pending)
  {
  }

  /** The pending table gains a key when it is acquired and loses it when its owner finishes. */
  lemma PendingSteps(s: Sys, step: Step, k: Key)
    requires Enabled(s, step) && PendingOk(s.front)
    ensures k in Apply(s, step).front.pending <==>
      (k in s.front.pending && !(step.Finish? && KeyOf(s.calls[step.r].request) == Some(k)))
      || (step.Acquired? && KeyOf(s.calls[step.r].request) == Some(k))
  {
  }

  lemma StepKeepsOwners(s: Sys, step: Step)
    requires PendingOk(s.front) && SingleOwner(s) && Enabled(s, step)
    ensures SingleOwner(Apply(s, step))
  {
    var t := Apply(s, step);
    forall k | k in t.front.pending ensures exists r :: Owns(t, r, k) {
      PendingSteps(s, step, k);
      if k in s.front.pending {
        var r :| Owns(s, r, k);
        OwnershipSteps(s, step, r, k);
      } else {
        OwnershipSteps(s, step, step.r, k);
      }
    }
    if step.Finish? && KeyOf(s.calls[step.r].request).Some? {
      assert Owns(s, step.r, KeyOf(s.calls[step.r].request).value);
    }
    forall r, k | Owns(t, r, k) ensures k in t.front.pending {
      OwnershipSteps(s, step, r, k);
      PendingSteps(s, step, k);
    }
    forall r, q, k | Owns(t, r, k) && Owns(t, q, k) ensures r == q {
      OwnershipSteps(s, step, r, k);
      OwnershipSteps(s, step, q, k);
    }
  }

  lemma StepKeepsFollowers(s: Sys, step: Step)
    requires PendingOk(s.front) && FollowersOk(s) && Enabled(s, step)
    ensures FollowersOk(Apply(s, step))
  {
  }

  lemma DecidedPersists(s: Sys, step: Step, k: Key, m: Message)
    requires Enabled(s, step) && Decided(s, k, m)
    ensures Decided(Apply(s, step), k, m)
  {
    var i :| 0 <= i < |s.decisions| && s.decisions[i].call < |s.calls|
      && KeyOf(s.calls[s.decisions[i].call].request) == Some(k) && SameAnswer(m, s.decisions[i].message);
    assert Apply(s, step).decisions[i] == s.decisions[i];
  }

  lemma OwnReplyPersists(s: Sys, step: Step, r: nat, m: Message)
    requires Enabled(s, step) && OwnReply(s, r, m)
    ensures OwnReply(Apply(s, step), r, m)
  {
    var i :| 0 <= i < |s.decisions| && s.decisions[i] == Decision(r, m);
    assert Apply(s, step).decisions[i] == s.decisions[i];
  }

  lemma {:induction false} SameAnswerRefl(m: Message, request: Message)
    ensures SameAnswer(CloneFor(m, request), m)
  {
  }

  /** The cache gains an entry only by storing the reply of a worker. */
  lemma EntrySteps(s: Sys, step: Step, k: Key)
    requires Enabled(s, step) && k in Apply(s, step).front.entries
    ensures
      || (k in s.front.entries && Apply(s, step).front.entries[k] == s.front.entries[k])
      || (step.Reply? && step.reply.Some? && KeyOf(s.calls[step.r].request) == Some(k)
          && Apply(s, step).front.entries[k].response == CloneFor(step.reply.value, s.calls[step.r].request))
  {
  }

  lemma ReplyIsDecided(s: Sys, step: Step, k: Key)
    requires Enabled(s, step) && step.Reply? && step.reply.Some? && KeyOf(s.calls[step.r].request) == Some(k)
    ensures Decided(Apply(s, step), k, CloneFor(step.reply.value, s.calls[step.r].request))
  {
    SameAnswerRefl(step.reply.value, s.calls[step.r].request);
    assert Apply(s, step).decisions[|s.decisions|] == Decision(step.r, step.reply.value);
  }

  /** Whatever is in the cache after a step was decided by the worker pool. */
  lemma StepKeepsEntries(s: Sys, step: Step, k: Key)
    requires OriginsOk(s) && Enabled(s, step) && k in Apply(s, step).front.entries
    ensures Decided(Apply(s, step), k, Apply(s, step).front.entries[k].response)
  {
    EntrySteps(s, step, k);
    if k in s.front.entries && Apply(s, step).front.entries[k] == s.front.entries[k] {
      DecidedPersists(s, step, k, s.front.entries[k].response);
    } else {
      ReplyIsDecided(s, step, k);
    }
  }

  /** So was whatever is in a cell. */
  lemma StepKeepsCells(s: Sys, step: Step, c: nat)
    requires PendingOk(s.front) && OriginsOk(s) && Enabled(s, step) && c < |Apply(s, step).front.cells|
    requires Apply(s, step).front.cells[c].wire.Some?
    ensures Decided(Apply(s, step), Apply(s, step).front.cells[c].key, Apply(s, step).front.cells[c].wire.value)
  {
    if c < |s.front.cells| && Apply(s, step).front.cells[c] == s.front.cells[c] {
      DecidedPersists(s, step, s.front.cells[c].key, s.front.cells[c].wire.value);
    } else {
      FinishedCellIsDecided(s, step, c);
    }
  }

  lemma FinishedCellIsDecided(s: Sys, step: Step, c: nat)
    requires PendingOk(s.front) && OriginsOk(s) && Enabled(s, step) && c < |Apply(s, step).front.cells|
    requires Apply(s, step).front.cells[c].wire.Some?
      && !(c < |s.front.cells| && Apply(s, step).front.cells[c] == s.front.cells[c])
    ensures Decided(Apply(s, step), Apply(s, step).front.cells[c].key, Apply(s, step).front.cells[c].wire.value)
  {
  }

  /** A call that just returned did so transparently. */
  lemma ReturnIsTransparent(s: Sys, step: Step, r: nat)
    requires PendingOk(s.front) && FollowersOk(s) && OriginsOk(s) && Enabled(s, step) && r < |s.calls|
    requires !s.calls[r].phase.Returned?
    requires Apply(s, step).calls[r].phase.Returned? && Apply(s, step).calls[r].phase.reply.Some?
    ensures Transparent(Apply(s, step), r, Apply(s, step).calls[r].phase.reply.value)
  {
    var request := s.calls[r].request;
    match step
    case Hit(_, now) =>
      var k := KeyOf(request).value;
      var e := s.front.entries[k];
      ServedIsSameAnswer(e, request, now);
      DecidedPersists(s, step, k, e.response);
      CopyOfDecided(Apply(s, step), k, e.response, Served(e, request, now));
    case Wake(_) =>
      var cell := s.front.cells[s.calls[r].phase.cell];
      SameAnswerRefl(cell.wire.value, request);
      DecidedPersists(s, step, cell.key, cell.wire.value);
      CopyOfDecided(Apply(s, step), cell.key, cell.wire.value, CloneFor(cell.wire.value, request));
    case Finish(_) =>
      OwnReplyPersists(s, step, r, s.calls[r].phase.response.value);
    case _ =>
  }

  lemma CopyOfDecided(s: Sys, k: Key, m: Message, copy: Message)
    requires Decided(s, k, m) && SameAnswer(copy, m)
    ensures Decided(s, k, copy)
  {
  }

  lemma StepKeepsReturns(s: Sys, step: Step, r: nat)
    requires PendingOk(s.front) && FollowersOk(s) && OriginsOk(s) && Enabled(s, step) && r < |Apply(s, step).calls|
    requires Apply(s, step).calls[r].phase.Returned? && Apply(s, step).calls[r].phase.reply.Some?
    ensures Transparent(Apply(s, step), r, Apply(s, step).calls[r].phase.reply.value)
  {
    if s.calls[r].phase.Returned? {
      var m := s.calls[r].phase.reply.value;
      if OwnReply(s, r, m) {
        OwnReplyPersists(s, step, r, m);
      } else {
        DecidedPersists(s, step, KeyOf(s.calls[r].request).value, m);
      }
    } else {
      ReturnIsTransparent(s, step, r);
    }
  }

  lemma StepKeepsCompleting(s: Sys, step: Step, r: nat)
    requires OriginsOk(s) && Enabled(s, step) && r < |Apply(s, step).calls|
    requires Apply(s, step).calls[r].phase.Completing? && Apply(s, step).calls[r].phase.response.Some?
    ensures Apply(s, step).calls[r].phase.response.value.id == Apply(s, step).calls[r].request.id
    ensures OwnReply(Apply(s, step), r, Apply(s, step).calls[r].phase.response.value)
  {
    var t := Apply(s, step);
    if s.calls[r].phase.Completing? {
      OwnReplyPersists(s, step, r, s.calls[r].phase.response.value);
    } else {
      assert t.decisions[|s.decisions|] == Decision(r, t.calls[r].phase.response.value);
    }
  }

  lemma StepKeepsInv(s: Sys, step: Step)
    requires Inv(s) && Enabled(s, step)
    ensures Inv(Apply(s, step))
  {
    StepKeepsPending(s, step);
    StepKeepsOwners(s, step);
    StepKeepsFollowers(s, step);
    var t := Apply(s, step);
    forall k | k in t.front.entries ensures Decided(t, k, t.front.entries[k].response) {
      StepKeepsEntries(s, step, k);
    }
    forall c | 0 <= c < |t.front.cells| && t.front.cells[c].wire.Some?
      ensures Decided(t, t.front.cells[c].key, t.front.cells[c].wire.value)
    {
      StepKeepsCells(s, step, c);
    }
    forall r | 0 <= r < |t.calls| && t.calls[r].phase.Returned? && t.calls[r].phase.reply.Some?
      ensures Transparent(t, r, t.calls[r].phase.reply.value)
    {
      StepKeepsReturns(s, step, r);
    }
    forall r | 0 <= r < |t.calls| && t.calls[r].phase.Completing? && t.calls[r].phase.response.Some?
      ensures t.calls[r].phase.response.value.id == t.calls[r].request.id
        && OwnReply(t, r, t.calls[r].phase.response.value)
    {
      StepKeepsCompleting(s, step, r);
    }
  }

  lemma {:induction false} RunsKeepInv(steps: seq<Step>)
    requires IsRun(steps)
    ensures Inv(StateAfter(steps))
    decreases |steps|
  {
    if steps != [] {
      RunsKeepInv(Init(steps));
      StepKeepsInv(StateAfter(Init(steps)), Last(steps));
    }
  }

  // ---------- What every run guarantees ----------

  /** At most one worker call per key is in flight, and a key is pending exactly while such an owner exists. */
  lemma OneWorkerCallPerKey(steps: seq<Step>, k: Key)
    requires IsRun(steps)
    ensures k in StateAfter(steps).front.pending <==> exists r :: Owns(StateAfter(steps), r, k)
    ensures forall r, q :: Owns(StateAfter(steps), r, k) && Owns(StateAfter(steps), q, k) ==> r == q
  {
    RunsKeepInv(steps);
  }

  /** Two calls for the same query are never both being worked on. */
  lemma OneWorkerCallPerQuery(steps: seq<Step>, r: nat, q: nat)
    requires IsRun(steps) && r < |StateAfter(steps).calls| && q < |StateAfter(steps).calls|
    requires var s := StateAfter(steps);
      && (s.calls[r].phase.Calling? || s.calls[r].phase.Completing?)
      && (s.calls[q].phase.Calling? || s.calls[q].phase.Completing?)
      && SameQuery(s.calls[r].request, s.calls[q].request)
    ensures r == q
  {
    RunsKeepInv(steps);
    var s := StateAfter(steps);
    SharesKeyIff(s.calls[r].request, s.calls[q].request);
    var k := KeyOf(s.calls[r].request).value;
    assert Owns(s, r, k) && Owns(s, q, k);
  }

  /**
    The follower waits on its key's own unset event; the step leaves it waiting, and sets the event exactly if it
    is the owner finishing.
   */
  ghost predicate FollowerKept(s: Sys, f: nat, owner: nat, step: Step)
    requires f < |s.calls| && s.calls[f].phase.Waiting? && Enabled(s, step)
  {
    var c := s.calls[f].phase.cell;
    var k := KeyOf(s.calls[f].request);
    var t := Apply(s, step);
    && k.Some? && Owns(s, owner, k.value) && k.value in s.front.pending && s.front.pending[k.value] == c
    && t.calls[f].phase == Waiting(c) && c < |t.front.cells|
    && (t.front.cells[c].isSet <==> step == Finish(owner))
    && (step != Finish(owner) ==> Owns(t, owner, k.value))
  }

  lemma FollowerSteps(s: Sys, f: nat, step: Step) returns (owner: nat)
    requires PendingOk(s.front) && SingleOwner(s) && FollowersOk(s)
    requires f < |s.calls| && s.calls[f].phase.Waiting? && Enabled(s, step)
    requires !s.front.cells[s.calls[f].phase.cell].isSet
    ensures FollowerKept(s, f, owner, step)
  {
    var k := s.front.cells[s.calls[f].phase.cell].key;
    owner :| Owns(s, owner, k);
    OwnershipSteps(s, step, owner, k);
    OtherFinishesKeepCell(s, step, owner, s.calls[f].phase.cell);
    FollowerStaysWaiting(s, f, step);
  }

  lemma FollowerStaysWaiting(s: Sys, f: nat, step: Step)
    requires FollowersOk(s) && f < |s.calls| && s.calls[f].phase.Waiting? && Enabled(s, step)
    requires !s.front.cells[s.calls[f].phase.cell].isSet
    ensures Apply(s, step).calls[f] == s.calls[f]
  {
  }

  /**
    A follower whose event is unset has exactly one owner. Whatever step comes next, either the follower
    still waits on the same unset event with the same owner, or the owner has just set that very event.
   */
  lemma FollowerHasLiveOwner(steps: seq<Step>, f: nat, step: Step) returns (owner: nat)
    requires IsRun(steps) && f < |StateAfter(steps).calls| && StateAfter(steps).calls[f].phase.Waiting?
    requires var s := StateAfter(steps);
      s.calls[f].phase.cell < |s.front.cells| ==> !s.front.cells[s.calls[f].phase.cell].isSet
    requires Enabled(StateAfter(steps), step)
    ensures FollowerKept(StateAfter(steps), f, owner, step)
  {
    RunsKeepInv(steps);
    owner := FollowerSteps(StateAfter(steps), f, step);
  }

  lemma OtherFinishesKeepCell(s: Sys, step: Step, owner: nat, c: nat)
    requires PendingOk(s.front) && SingleOwner(s) && Enabled(s, step) && c < |s.front.cells| && !s.front.cells[c].isSet
    requires Owns(s, owner, s.front.cells[c].key)
    ensures c < |Apply(s, step).front.cells|
    ensures Apply(s, step).front.cells[c].isSet <==> step == Finish(owner)
  {
    if step.Finish? && KeyOf(s.calls[step.r].request) == Some(s.front.cells[c].key) {
      assert Owns(s, step.r, s.front.cells[c].key);
    }
  }

  /** The step is one that call `who` takes itself. */
  predicate IsStepOf(step: Step, who: nat) {
    step in [Miss(who), Acquired(who), Wake(who), Fail(who), Finish(who)]
  }

  /** No call is ever stuck: it can take a step, or the owner it waits for can. */
  lemma NoCallIsStuck(steps: seq<Step>, r: nat) returns (step: Step, who: nat)
    requires IsRun(steps) && r < |StateAfter(steps).calls| && !StateAfter(steps).calls[r].phase.Returned?
    ensures Enabled(StateAfter(steps), step) && IsStepOf(step, who)
    ensures var call := StateAfter(steps).calls[r];
      who != r ==>
        call.phase.Waiting? && KeyOf(call.request).Some? && Owns(StateAfter(steps), who, KeyOf(call.request).value)
  {
    RunsKeepInv(steps);
    var s := StateAfter(steps);
    who := r;
    match s.calls[r].phase
    case Checking => step := Miss(r);
    case Acquiring => step := Acquired(r);
    case Calling => step := Fail(r);
    case Completing(_, _) => step := Finish(r);
    case Waiting(c) =>
      if s.front.cells[c].isSet {
        step := Wake(r);
      } else {
        who :| Owns(s, who, s.front.cells[c].key);
        step := if s.calls[who].phase.Calling? then Fail(who) else Finish(who);
      }
  }

  /** A decision for a call with the same query, up to the message id and the TTLs. */
  ghost predicate CopiesDecision(s: Sys, r: nat, m: Message, i: nat)
    requires r < |s.calls|
  {
    && i < |s.decisions| && s.decisions[i].call < |s.calls|
    && SameQuery(s.calls[s.decisions[i].call].request, s.calls[r].request)
    && SameAnswer(m, s.decisions[i].message)
  }

  /**
    Every reply carries the caller's id and is the worker pool's decision for this very call, or a copy, up
    to id and TTLs, of its decision for a call for the same name up to case, of the same type and class.
   */
  lemma RepliesAreTransparent(steps: seq<Step>, r: nat)
    requires IsRun(steps) && r < |StateAfter(steps).calls|
    requires StateAfter(steps).calls[r].phase.Returned? && StateAfter(steps).calls[r].phase.reply.Some?
    ensures var s := StateAfter(steps);
      var m := s.calls[r].phase.reply.value;
      && m.id == s.calls[r].request.id
      && (OwnReply(s, r, m) || exists i: nat :: CopiesDecision(s, r, m, i))
  {
    RunsKeepInv(steps);
    var s := StateAfter(steps);
    var m := s.calls[r].phase.reply.value;
    assert Transparent(s, r, m);
    if !OwnReply(s, r, m) {
      var i := DecidedIsCopied(s, r, m);
    }
  }

  lemma DecidedIsCopied(s: Sys, r: nat, m: Message) returns (i: nat)
    requires r < |s.calls| && KeyOf(s.calls[r].request).Some? && Decided(s, KeyOf(s.calls[r].request).value, m)
    ensures CopiesDecision(s, r, m, i)
  {
    var k := KeyOf(s.calls[r].request).value;
    i :| 0 <= i < |s.decisions| && s.decisions[i].call < |s.calls|
      && KeyOf(s.calls[s.decisions[i].call].request) == Some(k) && SameAnswer(m, s.decisions[i].message);
    SharesKeyIff(s.calls[s.decisions[i].call].request, s.calls[r].request);
  }

  /**
    When the owner finishes, the follower it wakes returns a copy of the owner's response under its own id,
    unless the response went into the cache or there is none: then it looks again.
   */
  lemma FollowerGetsOwnersReply(steps: seq<Step>, f: nat, owner: nat)
    requires IsRun(steps) && f < |StateAfter(steps).calls| && owner < |StateAfter(steps).calls|
    requires var s := StateAfter(steps);
      && s.calls[f].phase.Waiting? && s.calls[owner].phase.Completing?
      && SameQuery(s.calls[owner].request, s.calls[f].request)
      && s.calls[f].phase.cell < |s.front.cells| && !s.front.cells[s.calls[f].phase.cell].isSet
    ensures var s := StateAfter(steps);
      var done := Apply(s, Finish(owner));
      var response := s.calls[owner].phase.response;
      && Enabled(done, Wake(f))
      && Apply(done, Wake(f)).calls[f].phase ==
           if response.Some? && !s.calls[owner].phase.written
           then Returned(Some(response.value.(id := s.calls[f].request.id))) else Checking
  {
    RunsKeepInv(steps);
    var s := StateAfter(steps);
    SharesKeyIff(s.calls[owner].request, s.calls[f].request);
    var c := s.calls[f].phase.cell;
    var k := s.front.cells[c].key;
    assert k in s.front.pending && s.front.pending[k] == c;
  }

  /** The owner's reply goes into the cache exactly when it can be stored, and the owner then knows it did. */
  lemma ReplyIsStored(s: Sys, r: nat, reply: Message, expiration: real, other: Message)
    requires Enabled(s, Reply(r, Some(reply), expiration))
    ensures var t := Apply(s, Reply(r, Some(reply), expiration));
      var request := s.calls[r].request;
      var stored := IsCacheable(request) && reply.rcode == 0 && reply.answer != [];
      && t.calls[r].phase == Completing(Some(reply), stored)
      && (stored && SameQuery(request, other) ==>
            Found(t.front, other).Some? && SameAnswer(Found(t.front, other).value.response, reply))
  {
    StoredIff(s.calls[r].request, Some(reply));
    if Storable(s.calls[r].request, Some(reply)) {
      StoredIsFound(s.front, s.calls[r].request, Some(reply), expiration, other);
    }
  }
}
