/**
  Handling one request: plugin hooks around at most one upstream dispatch. Hooks are arbitrary: each may set
  any flag, any final, or raise.
 */
module Pipeline {
  import opened Prelude
  import opened Messages
  import opened AnswerSync

  /** The part of the request context that steers the pipeline. */
  datatype Ctx = Ctx(answer: Option<Answer>, response: Option<Message>, drop: bool, stop: bool)

  /** What every request starts with. */
  const START := Ctx(None, None, false, false)

  datatype HookResult = HookResult(ctx: Ctx, raised: bool)
  type Hook = (nat, Ctx) -> HookResult

  datatype DispatchResult = Answered(answer: Answer) | Nx | Failed

  /** The loaded plugins in each phase's order, and what their hooks and the dispatcher do in this run. */
  datatype World = World(
    loaded: nat, requestOrder: seq<nat>, responseOrder: seq<nat>, observeOrder: seq<nat>,
    onRequest: Hook, onResponse: Hook, onObserve: Hook, onFinish: Hook,
    dispatch: Ctx -> (DispatchResult, HookResult), lib: Library)

  predicate ValidRequest(request: Message) {
    request.opcode == OPCODE_QUERY && |request.question| == 1 && request.question[0].rdclass == CLASS_IN
  }

  /** An answer can always be built from a SERVFAIL response of the forwarder's own making. */
  ghost predicate ServfailBuilds(w: World, request: Message) {
    request.question != [] ==> BuildAnswer(w.lib, request, ErrorResponse(request, SERVFAIL)).Some?
  }

  // ---------- The hook loops ----------

  /** Hooks in order until one raises or, in the loops that heed them, drops or stops. */
  function Hooked(hook: Hook, order: seq<nat>, ctx: Ctx, heeds: bool): (r: HookResult)
    decreases |order|
  {
    if order == [] then HookResult(ctx, false)
    else
      var r := hook(order[0], ctx);
      if r.raised || (heeds && (r.ctx.drop || r.ctx.stop)) then r else Hooked(hook, order[1..], r.ctx, heeds)
  }

  // ---------- The phases ----------

  datatype Phase = Raised | Dropped | Continue

  /** The request phase up to the point where it would dispatch. */
  function AfterRequestHooks(w: World): (r: HookResult) {
    Hooked(w.onRequest, w.requestOrder, START, true)
  }

  /** Dispatching is allowed: no hook raised, dropped, stopped or supplied a final. */
  predicate Dispatches(w: World) {
    var r := AfterRequestHooks(w);
    !r.raised && !r.ctx.drop && !r.ctx.stop && r.ctx.answer.None? && r.ctx.response.None?
  }

  /** The finals a dispatch supplies when the upstream hooks left both empty. */
  function WithDispatch(request: Message, ctx: Ctx, result: DispatchResult): (r: Ctx) {
    if ctx.answer.Some? || ctx.response.Some? then ctx
    else match result
      case Answered(a) => ctx.(answer := Some(a))
      case Nx => ctx.(response := Some(ErrorResponse(request, NXDOMAIN)))
      case Failed => ctx
  }

  function RequestPhase(w: World, request: Message): (r: (Phase, Ctx)) {
    var hooked := AfterRequestHooks(w);
    if hooked.raised then (Raised, hooked.ctx)
    else if hooked.ctx.drop then (Dropped, hooked.ctx)
    else if !Dispatches(w) then (Continue, hooked.ctx)
    else
      var (result, after) := w.dispatch(hooked.ctx);
      if after.raised then (Raised, after.ctx) else (Continue, WithDispatch(request, after.ctx, result))
  }

  function ResponsePhase(w: World, ctx: Ctx): (r: (Phase, Ctx)) {
    if ctx.stop then (Continue, ctx)
    else
      var hooked := Hooked(w.onResponse, w.responseOrder, ctx, true);
      (if hooked.raised then Raised else if hooked.ctx.drop then Dropped else Continue, hooked.ctx)
  }

  // ---------- The request context and the engine ----------

  class RequestContext {
    var answer: Option<Answer>
    var response: Option<Message>
    var drop: bool
    var stop: bool
    var dispatches: nat                // how often an upstream dispatch was started
    var finished: seq<nat>             // the plugins whose finish hook has run, in order

    function View(): Ctx reads this { Ctx(answer, response, drop, stop) }

    constructor ()
      ensures View() == START && dispatches == 0 && finished == []
    {
      answer, response, drop, stop, dispatches, finished := None, None, false, false, 0, [];
    }

    method Assign(ctx: Ctx)
      modifies this`answer, this`response, this`drop, this`stop
      ensures View() == ctx
    {
      answer, response, drop, stop := ctx.answer, ctx.response, ctx.drop, ctx.stop;
    }

    method RunHooks(hook: Hook, order: seq<nat>, heeds: bool) returns (raised: bool)
      modifies this`answer, this`response, this`drop, this`stop
      ensures HookResult(View(), raised) == Hooked(hook, order, old(View()), heeds)
    {
      var i := 0;
      while i < |order|
        invariant 0 <= i <= |order|
        invariant Hooked(hook, order[i..], View(), heeds) == Hooked(hook, order, old(View()), heeds)
      {
        assert order[i..][1..] == order[i + 1..];
        var r := hook(order[i], View());
        Assign(r.ctx);
        if r.raised {
          return true;
        }
        if heeds && (drop || stop) {
          return false;
        }
        i := i + 1;
      }
      return false;
    }

    /** Every loaded plugin's finish hook runs once, in loading order, whatever the others do. */
    method RunFinish(hook: Hook, loaded: nat)
      modifies this
      ensures finished == old(finished) + seq(loaded, i => i) && dispatches == old(dispatches)
    {
      for i := 0 to loaded
        invariant finished == old(finished) + seq(i, k => k) && dispatches == old(dispatches)
      {
        var r := hook(i, View());
        Assign(r.ctx);
        finished := finished + [i];
      }
    }

    method RunRequestPhase(w: World, request: Message) returns (phase: Phase)
      requires View() == START
      modifies this
      ensures (phase, View()) == RequestPhase(w, request)
      ensures finished == old(finished) && dispatches == old(dispatches) + if Dispatches(w) then 1 else 0
    {
      var raised := RunHooks(w.onRequest, w.requestOrder, true);
      if raised {
        return Raised;
      }
      if drop {
        return Dropped;
      }
      if stop {
        return Continue;
      }
      if answer.Some? || response.Some? {
        return Continue;
      }
      dispatches := dispatches + 1;
      var (result, after) := w.dispatch(View());
      Assign(after.ctx);
      if after.raised {
        return Raised;
      }
      if answer.None? && response.None? {
        match result {
          case Answered(a) => answer := Some(a);
          case Nx => response := Some(ErrorResponse(request, NXDOMAIN));
          case Failed =>
        }
      }
      return Continue;
    }

    method RunResponsePhase(w: World) returns (phase: Phase)
      modifies this`answer, this`response, this`drop, this`stop
      ensures (phase, View()) == ResponsePhase(w, old(View()))
    {
      if stop {
        return Continue;
      }
      var raised := RunHooks(w.onResponse, w.responseOrder, true);
      return if raised then Raised else if drop then Dropped else Continue;
    }

    method FinalizeContext(lib: Library, request: Message) returns (ok: bool)
      requires request.question != []
      modifies this`answer, this`response
      ensures ok == Finalized(lib, request, old(answer), old(response)).Some?
      ensures ok ==> answer.Some? && response.Some?
      ensures ok ==> (answer.value, response.value) == Finalized(lib, request, old(answer), old(response)).value
    {
      if answer.None? && response.Some? {
        var a := BuildAnswer(lib, request, response.value);
        if a.None? { return false; }
        answer := a;
        return true;
      }
      if answer.None? {
        response := Some(ErrorResponse(request, SERVFAIL));
        var a := BuildAnswer(lib, request, response.value);
        if a.None? { return false; }
        answer := a;
        return true;
      }
      var synced := SyncAnswer(lib, answer.value);
      if synced.None? { return false; }
      answer := synced;
      var m := Clone(lib, synced.value.response, request);
      if m.None? { return false; }
      response := m;
      return true;
    }
  }

  /** What the hooks' finals become on their way to the client; None when a step raises. */
  function Concluded(w: World, request: Message, ctx: Ctx): (reply: Option<Message>)
    requires request.question != []
    ensures reply.Some? ==> reply.value.id == request.id
  {
    var finals := Finalized(w.lib, request, ctx.answer, ctx.response);
    if finals.None? then None
    else
      var final := ctx.(answer := Some(finals.value.0), response := Some(finals.value.1));
      var after := Hooked(w.onObserve, w.observeOrder, final, false).ctx;
      if after.response.None? then Some(ErrorResponse(request, SERVFAIL))
        else Clone(w.lib, after.response.value, request)
  }

  method Conclude(w: World, request: Message, context: RequestContext) returns (reply: Option<Message>)
    requires request.question != []
    modifies context`answer, context`response, context`drop, context`stop
    ensures reply == Concluded(w, request, old(context.View()))
  {
    var ok := context.FinalizeContext(w.lib, request);
    if !ok { return None; }
    var ignored := context.RunHooks(w.onObserve, w.observeOrder, false);
    if context.response.None? {
      return Some(ErrorResponse(request, SERVFAIL));
    }
    reply := Clone(w.lib, context.response.value, request);
  }

  /** The reply to a valid request that is not dropped. */
  function ReplyOf(w: World, request: Message): (reply: Message)
    requires request.question != []
  {
    var (first, ctx) := RequestPhase(w, request);
    var (second, last) := if first.Continue? then ResponsePhase(w, ctx) else (first, ctx);
    var concluded := if second.Continue? then Concluded(w, request, last) else None;
    if concluded.Some? then concluded.value else ErrorResponse(request, SERVFAIL)
  }

  // ---------- The same on the hooks themselves ----------

  /** The context after the first n hooks, had none of them ended the loop. */
  ghost function CtxAt(hook: Hook, order: seq<nat>, ctx: Ctx, n: nat): Ctx
    requires n <= |order|
  {
    if n == 0 then ctx else hook(order[n - 1], CtxAt(hook, order, ctx, n - 1)).ctx
  }

  /** The hook at this position ends the loop. */
  ghost predicate Ends(hook: Hook, order: seq<nat>, ctx: Ctx, heeds: bool, n: nat)
    requires n < |order|
  {
    var r := hook(order[n], CtxAt(hook, order, ctx, n));
    r.raised || (heeds && (r.ctx.drop || r.ctx.stop))
  }

  lemma {:induction false} CtxAtShifts(hook: Hook, order: seq<nat>, ctx: Ctx, n: nat)
    requires n < |order|
    ensures CtxAt(hook, order[1..], hook(order[0], ctx).ctx, n) == CtxAt(hook, order, ctx, n + 1)
    decreases n
  {
    if n > 0 {
      CtxAtShifts(hook, order, ctx, n - 1);
      assert order[1..][n - 1] == order[n];
    }
  }

  /** No hook before position n ends the loop. */
  ghost predicate GetsTo(hook: Hook, order: seq<nat>, ctx: Ctx, heeds: bool, n: nat)
    requires n <= |order|
  {
    forall i :: 0 <= i < n ==> !Ends(hook, order, ctx, heeds, i)
  }

  /** The loop runs the hooks in order, up to and including the first that ends it, and no further. */
  lemma {:induction false} HooksRunUpToFirstEnd(hook: Hook, order: seq<nat>, ctx: Ctx, heeds: bool) returns (n: nat)
    ensures n <= |order| && GetsTo(hook, order, ctx, heeds, n)
    ensures n == |order| ==> Hooked(hook, order, ctx, heeds) == HookResult(CtxAt(hook, order, ctx, n), false)
    ensures n < |order| ==> Ends(hook, order, ctx, heeds, n)
    ensures n < |order| ==> Hooked(hook, order, ctx, heeds) == hook(order[n], CtxAt(hook, order, ctx, n))
    decreases |order|
  {
    if order == [] || Ends(hook, order, ctx, heeds, 0) {
      n := 0;
    } else {
      var rest, next := order[1..], hook(order[0], ctx).ctx;
      var m := HooksRunUpToFirstEnd(hook, rest, next, heeds);
      n := m + 1;
      forall i | 0 <= i < |rest| ensures CtxAt(hook, rest, next, i) == CtxAt(hook, order, ctx, i + 1) {
        CtxAtShifts(hook, order, ctx, i);
      }
      assert n == |order| ==> CtxAt(hook, rest, next, m) == CtxAt(hook, order, ctx, n) by {
        if m > 0 { assert rest[m - 1] == order[m]; }
      }
      forall i | 0 < i < n ensures !Ends(hook, order, ctx, heeds, i) {
        assert !Ends(hook, rest, next, heeds, i - 1);
      }
    }
  }

  /** The first hook that ends the loop raises. */
  ghost predicate Raises(hook: Hook, order: seq<nat>, ctx: Ctx, heeds: bool) {
    exists n: nat :: n < |order| && GetsTo(hook, order, ctx, heeds, n) && RaisesAt(hook, order, ctx, n)
  }

  ghost predicate RaisesAt(hook: Hook, order: seq<nat>, ctx: Ctx, n: nat)
    requires n < |order|
  {
    hook(order[n], CtxAt(hook, order, ctx, n)).raised
  }

  /** Without raising, the loop ends with this context: after all hooks, or after one that drops or stops. */
  ghost predicate EndsWith(hook: Hook, order: seq<nat>, ctx: Ctx, heeds: bool, last: Ctx) {
    exists n: nat :: n <= |order| && GetsTo(hook, order, ctx, heeds, n) && EndsAt(hook, order, ctx, heeds, n, last)
  }

  ghost predicate EndsAt(hook: Hook, order: seq<nat>, ctx: Ctx, heeds: bool, n: nat, last: Ctx)
    requires n <= |order|
  {
    if n == |order| then last == CtxAt(hook, order, ctx, n)
    else Ends(hook, order, ctx, heeds, n) && hook(order[n], CtxAt(hook, order, ctx, n)) == HookResult(last, false)
  }

  lemma LoopOnHooks(hook: Hook, order: seq<nat>, ctx: Ctx, heeds: bool)
    ensures Hooked(hook, order, ctx, heeds).raised <==> Raises(hook, order, ctx, heeds)
    ensures forall last :: EndsWith(hook, order, ctx, heeds, last) <==>
      Hooked(hook, order, ctx, heeds) == HookResult(last, false)
  {
    var n := HooksRunUpToFirstEnd(hook, order, ctx, heeds);
    forall k: nat | k < n ensures k < |order| ==> !Ends(hook, order, ctx, heeds, k) {}
    if Hooked(hook, order, ctx, heeds).raised {
      assert n < |order| && RaisesAt(hook, order, ctx, n);
    }
    if Raises(hook, order, ctx, heeds) {
      var k: nat :| k < |order| && GetsTo(hook, order, ctx, heeds, k) && RaisesAt(hook, order, ctx, k);
      assert Ends(hook, order, ctx, heeds, k);
      assert k == n;
    }
    forall last | EndsWith(hook, order, ctx, heeds, last)
      ensures Hooked(hook, order, ctx, heeds) == HookResult(last, false)
    {
      var k: nat :| k <= |order| && GetsTo(hook, order, ctx, heeds, k) && EndsAt(hook, order, ctx, heeds, k, last);
      assert k == n;
    }
    forall last | Hooked(hook, order, ctx, heeds) == HookResult(last, false)
      ensures EndsWith(hook, order, ctx, heeds, last)
    {
      assert EndsAt(hook, order, ctx, heeds, n, last);
    }
  }

  /** The request hooks end with this context. */
  ghost predicate RequestEnds(w: World, ctx: Ctx) {
    EndsWith(w.onRequest, w.requestOrder, START, true, ctx)
  }

  /** Nothing keeps the request from being dispatched. */
  predicate IsIdle(ctx: Ctx) {
    !ctx.drop && !ctx.stop && ctx.answer.None? && ctx.response.None?
  }

  ghost predicate IsDispatched(w: World) {
    exists ctx :: RequestEnds(w, ctx) && IsIdle(ctx)
  }

  /** From what the request hooks left to what the response phase starts with, without raising. */
  ghost predicate Dispatch(w: World, request: Message, ctx: Ctx, next: Ctx) {
    if !IsIdle(ctx) then next == ctx
    else
      var (result, after) := w.dispatch(ctx);
      && !after.raised
      && if after.ctx.answer.Some? || after.ctx.response.Some? then next == after.ctx
         else match result
           case Answered(a) => next == after.ctx.(answer := Some(a))
           case Nx => next == after.ctx.(response := Some(ErrorResponse(request, NXDOMAIN)))
           case Failed => next == after.ctx
  }

  /** The response phase starts with this context. */
  ghost predicate ReachesResponse(w: World, request: Message, next: Ctx) {
    exists ctx :: RequestEnds(w, ctx) && !ctx.drop && Dispatch(w, request, ctx, next)
  }

  ghost predicate ResponseEnds(w: World, ctx: Ctx, last: Ctx) {
    EndsWith(w.onResponse, w.responseOrder, ctx, true, last)
  }

  /** The request ends without a reply: dropped by the request hooks, or by response hooks that were allowed to run. */
  ghost predicate IsDropped(w: World, request: Message) {
    || (exists ctx :: RequestEnds(w, ctx) && ctx.drop)
    || (exists ctx, last :: ReachesResponse(w, request, ctx) && !ctx.stop && ResponseEnds(w, ctx, last) && last.drop)
  }

  /** A request hook, the dispatch, or a response hook that was allowed to run raises. */
  ghost predicate IsBroken(w: World, request: Message) {
    || Raises(w.onRequest, w.requestOrder, START, true)
    || (exists ctx :: RequestEnds(w, ctx) && IsIdle(ctx) && w.dispatch(ctx).1.raised)
    || (exists ctx :: ReachesResponse(w, request, ctx) && !ctx.stop && Raises(w.onResponse, w.responseOrder, ctx, true))
  }

  /** Both phases end normally and leave this context. */
  ghost predicate Leaves(w: World, request: Message, last: Ctx) {
    exists ctx :: ReachesResponse(w, request, ctx)
      && if ctx.stop then last == ctx else ResponseEnds(w, ctx, last) && !last.drop
  }

  lemma RequestOnHooks(w: World, request: Message)
    ensures RequestPhase(w, request).0.Dropped? <==> exists ctx :: RequestEnds(w, ctx) && ctx.drop
    ensures RequestPhase(w, request).0.Raised? <==>
      || Raises(w.onRequest, w.requestOrder, START, true)
      || exists ctx :: RequestEnds(w, ctx) && IsIdle(ctx) && w.dispatch(ctx).1.raised
    ensures forall next :: ReachesResponse(w, request, next) <==> RequestPhase(w, request) == (Continue, next)
    ensures Dispatches(w) <==> IsDispatched(w)
  {
    LoopOnHooks(w.onRequest, w.requestOrder, START, true);
    var hooked := AfterRequestHooks(w);
    assert !hooked.raised ==> RequestEnds(w, hooked.ctx);
    forall next | RequestPhase(w, request) == (Continue, next) ensures ReachesResponse(w, request, next) {
      assert RequestEnds(w, hooked.ctx) && Dispatch(w, request, hooked.ctx, next);
    }
  }

  /** The phases, on the hooks. */
  lemma PhasesOnHooks(w: World, request: Message)
    requires ValidRequest(request)
    ensures var (first, ctx) := RequestPhase(w, request);
      && (IsDropped(w, request) <==> first.Dropped? || (first.Continue? && ResponsePhase(w, ctx).0.Dropped?))
      && (IsBroken(w, request) <==> first.Raised? || (first.Continue? && ResponsePhase(w, ctx).0.Raised?))
      && forall last :: Leaves(w, request, last) <==> first.Continue? && ResponsePhase(w, ctx) == (Continue, last)
    ensures Dispatches(w) <==> IsDispatched(w)
  {
    RequestOnHooks(w, request);
    var (first, ctx) := RequestPhase(w, request);
    if first.Continue? {
      assert ReachesResponse(w, request, ctx);
      LoopOnHooks(w.onResponse, w.responseOrder, ctx, true);
      var hooked := Hooked(w.onResponse, w.responseOrder, ctx, true);
      assert !hooked.raised ==> ResponseEnds(w, ctx, hooked.ctx);
    }
  }

  /**
    For arbitrary hooks: an invalid request is answered FORMERR without running anything. A valid one gets no
    reply exactly when it is dropped, and otherwise a reply with its own id: SERVFAIL when a hook or the dispatch
    raises. Upstreams are dispatched at most once, exactly when the request hooks left nothing to stop it; and
    every finish hook has run exactly once.
   */
  method HandleMessage(w: World, request: Message) returns (reply: Option<Message>, dispatches: nat, finished: seq<nat>)
    requires ServfailBuilds(w, request)
    ensures reply.Some? ==> reply.value.id == request.id
    ensures !ValidRequest(request) ==>
      reply == Some(ErrorResponse(request, FORMERR)) && dispatches == 0 && finished == []
    ensures ValidRequest(request) ==>
      && (reply.None? <==> IsDropped(w, request))
      && (IsBroken(w, request) ==>
            && reply.Some? && reply.value.rcode == 2 && reply.value.question == request.question
            && reply.value.answer == [] && reply.value.authority == [] && reply.value.additional == [])
      && (reply.Some? ==> reply.value == ReplyOf(w, request))
      && dispatches == (if IsDispatched(w) then 1 else 0)
      && finished == seq(w.loaded, i => i)
  {
    if ValidRequest(request) { PhasesOnHooks(w, request); }
    if request.opcode != OPCODE_QUERY || |request.question| != 1 || request.question[0].rdclass != CLASS_IN {
      return Some(ErrorResponse(request, FORMERR)), 0, [];
    }
    var context := new RequestContext();
    var phase := context.RunRequestPhase(w, request);
    if phase.Continue? {
      phase := context.RunResponsePhase(w);
    }
    reply := None;
    if phase.Continue? {
      reply := Conclude(w, request, context);
    }
    if phase.Raised? || (phase.Continue? && reply.None?) {
      var error := ErrorResponse(request, SERVFAIL);
      context.response := Some(error);
      context.answer := BuildAnswer(w.lib, request, error);
      assert context.answer.Some?;
      reply := Some(error);
    }
    context.RunFinish(w.onFinish, w.loaded);
    return reply, context.dispatches, context.finished;
  }

  // ---------- What reaches the client ----------

  /** A hook that does nothing. */
  ghost predicate Quiet(hook: Hook) {
    forall p, c :: hook(p, c) == HookResult(c, false)
  }

  lemma {:induction false} QuietHooksKeepContext(hook: Hook, order: seq<nat>, ctx: Ctx)
    requires Quiet(hook) && !ctx.drop && !ctx.stop
    ensures forall heeds :: Hooked(hook, order, ctx, heeds) == HookResult(ctx, false)
    decreases |order|
  {
    if order != [] {
      QuietHooksKeepContext(hook, order[1..], ctx);
    }
  }

  /** The observers, heeding nothing but a raise, which goes no further, leave this context. */
  ghost predicate ObserversLeave(w: World, final: Ctx, last: Ctx) {
    || EndsWith(w.onObserve, w.observeOrder, final, false, last)
    || exists n: nat :: n < |w.observeOrder| && GetsTo(w.onObserve, w.observeOrder, final, false, n)
         && w.onObserve(w.observeOrder[n], CtxAt(w.onObserve, w.observeOrder, final, n)) == HookResult(last, true)
  }

  lemma ObserversOnHooks(w: World, final: Ctx, last: Ctx)
    requires ObserversLeave(w, final, last)
    ensures Hooked(w.onObserve, w.observeOrder, final, false).ctx == last
  {
    LoopOnHooks(w.onObserve, w.observeOrder, final, false);
    if !EndsWith(w.onObserve, w.observeOrder, final, false, last) {
      var n: nat :| n < |w.observeOrder| && GetsTo(w.onObserve, w.observeOrder, final, false, n)
        && w.onObserve(w.observeOrder[n], CtxAt(w.onObserve, w.observeOrder, final, n)) == HookResult(last, true);
      assert Ends(w.onObserve, w.observeOrder, final, false, n);
      var k := HooksRunUpToFirstEnd(w.onObserve, w.observeOrder, final, false);
      assert k == n;
    }
  }

  /** The client gets a copy of the response the observers leave, and SERVFAIL if there is none or it fails to copy. */
  lemma ObserversHaveTheLastWord(w: World, request: Message, last: Ctx, seen: Ctx)
    requires ValidRequest(request) && Leaves(w, request, last)
    requires var finals := Finalized(w.lib, request, last.answer, last.response);
      finals.Some? ==>
        ObserversLeave(w, last.(answer := Some(finals.value.0), response := Some(finals.value.1)), seen)
    ensures var finals := Finalized(w.lib, request, last.answer, last.response);
      var copy := if finals.Some? && seen.response.Some? then Clone(w.lib, seen.response.value, request) else None;
      ReplyOf(w, request) == if copy.Some? then copy.value else ErrorResponse(request, SERVFAIL)
  {
    PhasesOnHooks(w, request);
    var finals := Finalized(w.lib, request, last.answer, last.response);
    if finals.Some? {
      ObserversOnHooks(w, last.(answer := Some(finals.value.0), response := Some(finals.value.1)), seen);
    }
  }

  /** Observers that do not touch the final response. */
  ghost predicate KeepsResponse(hook: Hook) {
    forall p, c :: hook(p, c).ctx.response == c.response
  }

  lemma {:induction false} ObserversKeepResponse(hook: Hook, order: seq<nat>, ctx: Ctx)
    requires KeepsResponse(hook)
    ensures Hooked(hook, order, ctx, false).ctx.response == ctx.response
    decreases |order|
  {
    if order != [] {
      ObserversKeepResponse(hook, order[1..], hook(order[0], ctx).ctx);
    }
  }

  /** The copy the client gets of a response that stands alone; SERVFAIL when the library fails on it. */
  function ReplyTo(lib: Library, request: Message, response: Message): Message
    requires request.question != []
  {
    if BuildAnswer(lib, request, response).Some? then Clone(lib, response, request).value
    else ErrorResponse(request, SERVFAIL)
  }

  /** The copy the client gets of an answer; SERVFAIL when it cannot be reconciled or copied. */
  function ReplyFrom(lib: Library, request: Message, a: Answer): Message
    requires request.question != []
  {
    var finals := Finalized(lib, request, Some(a), None);
    var copy := if finals.Some? then Clone(lib, finals.value.1, request) else None;
    if copy.Some? then copy.value else ErrorResponse(request, SERVFAIL)
  }

  /** Whatever the library does: the answer the hooks leave decides the reply, and else the response they leave. */
  lemma FinalsDecideReply(w: World, request: Message, last: Ctx)
    requires ValidRequest(request) && KeepsResponse(w.onObserve) && Leaves(w, request, last)
    ensures last.answer.Some? ==> ReplyOf(w, request) == ReplyFrom(w.lib, request, last.answer.value)
    ensures last.answer.None? && last.response.Some? ==>
      ReplyOf(w, request) == ReplyTo(w.lib, request, last.response.value)
    ensures last.answer.None? && last.response.None? ==>
      ReplyOf(w, request) == ReplyTo(w.lib, request, ErrorResponse(request, SERVFAIL))
  {
    PhasesOnHooks(w, request);
    AnswerAndResponseAgree(w.lib, request, last.answer, last.response);
    var finals := Finalized(w.lib, request, last.answer, last.response);
    if finals.Some? {
      var final := last.(answer := Some(finals.value.0), response := Some(finals.value.1));
      ObserversKeepResponse(w.onObserve, w.observeOrder, final);
    }
  }

  /** The library parses the answer's synced response as it is, under either id. */
  predicate IsIntact(lib: Library, request: Message, a: Answer) {
    var synced := SyncedResponse(a);
    lib.reparse(synced) == Some(synced) && lib.reparse(synced.(id := request.id)) == Some(synced.(id := request.id))
  }

  /** What the client gets of an answer: SERVFAIL for an rrset of another type, else the synced response. */
  lemma AnswerReply(lib: Library, request: Message, a: Answer)
    requires request.question != []
    ensures ReplyFrom(lib, request, a).id == request.id
    ensures !(Consistent(a) && Accepts(lib, a, SyncedResponse(a))) ==>
      ReplyFrom(lib, request, a) == ErrorResponse(request, SERVFAIL)
    ensures Consistent(a) && Accepts(lib, a, SyncedResponse(a)) && IsIntact(lib, request, a) ==>
      ReplyFrom(lib, request, a) == SyncedResponse(a).(id := request.id)
  {
    FinalReplyCarriesRrset(lib, request, a, None);
  }

  /**
    What the response hooks leave as the final answer is what the client gets, whatever final response they
    leave beside it: the answer's own response with its rrset written back. If that rrset is of another type or
    class than the answer, or the library does not accept the response, the client gets SERVFAIL instead.
   */
  lemma FinalAnswerReachesClient(w: World, request: Message, last: Ctx, a: Answer)
    requires ValidRequest(request) && KeepsResponse(w.onObserve)
    requires Leaves(w, request, last) && last.answer == Some(a)
    ensures ReplyOf(w, request).id == request.id
    ensures Consistent(a) && Accepts(w.lib, a, SyncedResponse(a)) && IsIntact(w.lib, request, a) ==>
      ReplyOf(w, request) == SyncedResponse(a).(id := request.id)
    ensures !(Consistent(a) && Accepts(w.lib, a, SyncedResponse(a))) ==>
      ReplyOf(w, request) == ErrorResponse(request, SERVFAIL)
  {
    FinalsDecideReply(w, request, last);
    AnswerReply(w.lib, request, a);
  }

  /**
    With plugins that do nothing, the client sees the dispatcher's outcome: its answer, NXDOMAIN, or SERVFAIL. What
    becomes of an answer is as for any final answer.
   */
  lemma OutcomeReachesClient(w: World, request: Message)
    requires ValidRequest(request) && Quiet(w.onRequest) && Quiet(w.onResponse) && Quiet(w.onObserve)
    requires w.dispatch(START).1 == HookResult(START, false)
    ensures !IsDropped(w, request) && IsDispatched(w)
    ensures ReplyOf(w, request) ==
      match w.dispatch(START).0
      case Answered(a) => ReplyFrom(w.lib, request, a)
      case Nx => ReplyTo(w.lib, request, ErrorResponse(request, 3))
      case Failed => ReplyTo(w.lib, request, ErrorResponse(request, 2))
  {
    PhasesOnHooks(w, request);
    QuietHooksKeepContext(w.onRequest, w.requestOrder, START);
    var last := RequestPhase(w, request).1;
    QuietHooksKeepContext(w.onResponse, w.responseOrder, last);
    FinalsDecideReply(w, request, last);
  }

  /**
    A response left without an answer reaches the client as a copy. Building the answer from it, as a response
    hook may, turns the same response into SERVFAIL whenever the copy is not answerable, and otherwise the client
    still gets that copy with the rrset written back, provided the library accepts it.
   */
  lemma BuildingTheAnswerMayLoseTheReply(w: World, request: Message, last: Ctx, response: Message)
    requires ValidRequest(request) && KeepsResponse(w.onObserve)
    requires Leaves(w, request, last) && last.response == Some(response)
    requires BuildAnswer(w.lib, request, response).Some?
    requires last.answer.None? || last.answer == BuildAnswer(w.lib, request, response)
    ensures var built := BuildAnswer(w.lib, request, response).value;
      && (last.answer.None? ==> ReplyOf(w, request) == built.response)
      && (last.answer.Some? && !Answerable(w.lib, request, built.response) ==>
            ReplyOf(w, request) == ErrorResponse(request, SERVFAIL))
      && (last.answer.Some? && Answerable(w.lib, request, built.response)
          && Accepts(w.lib, built, SyncedResponse(built)) && IsIntact(w.lib, request, built) ==>
            ReplyOf(w, request) == SyncedResponse(built))
  {
    BuiltAnswerSurvivesIff(w.lib, request, response, last.response);
    FinalsDecideReply(w, request, last);
    AnswerReply(w.lib, request, BuildAnswer(w.lib, request, response).value);
  }

  /** So it is with an alias and nothing else: without an answer it is delivered, with one it is lost. */
  lemma AliasIsLost(w: World, last: Ctx, id: nat)
    requires KeepsResponse(w.onObserve) && Leaves(w, AliasRequest(id), last)
    requires w.lib.reparse(AliasResponse(id)) == Some(AliasResponse(id))
    requires ChoosesWell(w.lib, ALIAS_QUESTION, AliasResponse(id)) && last.response == Some(AliasResponse(id))
    ensures last.answer.None? ==> ReplyOf(w, AliasRequest(id)) == AliasResponse(id)
    ensures last.answer.Some? && last.answer == BuildAnswer(w.lib, AliasRequest(id), AliasResponse(id)) ==>
      ReplyOf(w, AliasRequest(id)) == ErrorResponse(AliasRequest(id), SERVFAIL)
  {
    if last.answer.None? || last.answer == BuildAnswer(w.lib, AliasRequest(id), AliasResponse(id)) {
      BuildingTheAnswerMayLoseTheReply(w, AliasRequest(id), last, AliasResponse(id));
      OtherTypesAreNotAnswerable(w.lib, AliasRequest(id), AliasResponse(id));
    }
  }
}
