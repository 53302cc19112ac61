/**
  Nested resolution started by plugins, inside one process or from a worker to the master over the IPC
  queues. Whatever the plugins ask for, every chain of nested resolutions is free of repetition and bounded.
 */
module NestedResolve {
  import opened Prelude
  import opened Text

  const MAX_DEPTH: nat := 8

  /** A normalised query. */
  datatype Signature = Signature(qname: string, qtype: string)

  function SignatureOf(qname: string, qtype: string): Signature {
    Signature(Canonical(qname), Upper(Strip(qtype)))
  }

  /** A request context: its chain, the context that started it, and whether it resolves through the master. */
  datatype Context = Context(chain: seq<Signature>, parent: Option<nat>, remote: bool)

  datatype Attempt = EmptyName | EmptyType | Recursion | TooDeep | Started(chain: seq<Signature>)

  /** The checks made before a nested resolution starts, the same on both sides. */
  function Attempted(context: Context, qname: string, qtype: string): (a: Attempt) {
    var sig := SignatureOf(qname, qtype);
    if sig.qname == "" then EmptyName
    else if sig.qtype == "" then EmptyType
    else if sig in context.chain then Recursion
    else if |context.chain| >= MAX_DEPTH then TooDeep
    else Started(context.chain + [sig])
  }

  /** The name without outer blanks and trailing dots, and the type without outer blanks. */
  function NameCore(qname: string): string { StripDots(Strip(qname)) }

  /** Two queries are one when name and type, stripped, agree up to case. */
  lemma SameSignatureIff(a: string, t: string, b: string, u: string)
    ensures SignatureOf(a, t) == SignatureOf(b, u) <==>
      SameIgnoringCase(NameCore(a), NameCore(b)) && SameIgnoringCase(Strip(t), Strip(u))
  {
    LowerSameIff(NameCore(a), NameCore(b));
    UpperSameIff(Strip(t), Strip(u));
  }

  /** A query that is not empty and not in the chain starts below the depth of 8, and only such a query does. */
  lemma StartsIff(context: Context, qname: string, qtype: string)
    ensures Attempted(context, qname, qtype).Started? <==>
      && NameCore(qname) != "" && Strip(qtype) != "" && |context.chain| < 8
      && forall i :: 0 <= i < |context.chain| ==> context.chain[i] != SignatureOf(qname, qtype)
    ensures Attempted(context, qname, qtype).Recursion? <==>
      NameCore(qname) != "" && Strip(qtype) != "" && SignatureOf(qname, qtype) in context.chain
    ensures Attempted(context, qname, qtype).Started? ==>
      Attempted(context, qname, qtype).chain == context.chain + [SignatureOf(qname, qtype)]
  {
    assert |SignatureOf(qname, qtype).qname| == |NameCore(qname)|;
    assert |SignatureOf(qname, qtype).qtype| == |Strip(qtype)|;
  }

  // ---------- Runs ----------

  /** All contexts ever built, and the resolve requests workers have sent to the master. */
  datatype Sys = Sys(contexts: seq<Context>, messages: seq<Message>)
  datatype Message = Message(sender: nat, chain: seq<Signature>)

  datatype Step =
    | Root(remote: bool)                                   // a client request arrives
    | Resolve(c: nat, qname: string, qtype: string)        // a plugin asks for anything at all
    | Deliver(m: nat)                                      // the master handles a resolve request

  predicate Enabled(s: Sys, step: Step) {
    match step
    case Root(_) => true
    case Resolve(c, _, _) => c < |s.contexts|
    case Deliver(m) => m < |s.messages|
  }

  function Apply(s: Sys, step: Step): Sys
    requires Enabled(s, step)
  {
    match step
    case Root(remote) => s.(contexts := s.contexts + [Context([], None, remote)])
    case Resolve(c, qname, qtype) =>
      var a := Attempted(s.contexts[c], qname, qtype);
      if !a.Started? then s
      else if s.contexts[c].remote then s.(messages := s.messages + [Message(c, a.chain)])
      else s.(contexts := s.contexts + [Context(a.chain, Some(c), false)])
    case Deliver(m) => s.(contexts := s.contexts + [Context(s.messages[m].chain, Some(s.messages[m].sender), false)])
  }

  predicate IsRun(steps: seq<Step>)
    decreases |steps|, 0
  {
    steps == [] || (IsRun(Init(steps)) && Enabled(StateAfter(Init(steps)), Last(steps)))
  }

  function StateAfter(steps: seq<Step>): Sys
    requires IsRun(steps)
    decreases |steps|, 1
  {
    if steps == [] then Sys([], []) else Apply(StateAfter(Init(steps)), Last(steps))
  }

  // ---------- The invariant ----------

  /** One more, new and non-empty signature than the chain it extends. */
  ghost predicate Extends(chain: seq<Signature>, base: seq<Signature>) {
    && chain != [] && Init(chain) == base && Last(chain) !in base && |chain| <= MAX_DEPTH
    && Last(chain).qname != "" && Last(chain).qtype != ""
  }

  ghost predicate Inv(s: Sys) {
    && (forall c :: 0 <= c < |s.contexts| ==>
          var k := s.contexts[c];
          Distinct(k.chain) &&
          if k.parent.None? then k.chain == []
          else k.parent.value < c && Extends(k.chain, s.contexts[k.parent.value].chain))
    && (forall m :: 0 <= m < |s.messages| ==>
          s.messages[m].sender < |s.contexts| && Distinct(s.messages[m].chain)
          && Extends(s.messages[m].chain, s.contexts[s.messages[m].sender].chain))
  }

  lemma StartedExtends(context: Context, qname: string, qtype: string)
    requires Distinct(context.chain) && Attempted(context, qname, qtype).Started?
    ensures Extends(Attempted(context, qname, qtype).chain, context.chain)
    ensures Distinct(Attempted(context, qname, qtype).chain)
  {
  }

  lemma StepKeepsInv(s: Sys, step: Step)
    requires Inv(s) && Enabled(s, step)
    ensures Inv(Apply(s, step))
  {
    if step.Resolve? && Attempted(s.contexts[step.c], step.qname, step.qtype).Started? {
      StartedExtends(s.contexts[step.c], step.qname, step.qtype);
    }
  }

  lemma {:induction false} RunsKeepInv(steps: seq<Step>)
    requires IsRun(steps)
    ensures Inv(StateAfter(steps))
    decreases |steps|
  {
    if steps != [] {
      RunsKeepInv(Init(steps));
      StepKeepsInv(StateAfter(Init(steps)), Last(steps));
    }
  }

  /** How many nested resolutions lie between a context and the client request it serves. */
  ghost function Depth(s: Sys, c: nat): nat
    requires Inv(s) && c < |s.contexts|
    decreases c
  {
    if s.contexts[c].parent.None? then 0 else 1 + Depth(s, s.contexts[c].parent.value)
  }

  lemma {:induction false} DepthIsChainLength(s: Sys, c: nat)
    requires Inv(s) && c < |s.contexts|
    ensures Depth(s, c) == |s.contexts[c].chain|
    decreases c
  {
    if s.contexts[c].parent.Some? {
      DepthIsChainLength(s, s.contexts[c].parent.value);
    }
  }

  /**
    In every run, in process or over IPC: chains never repeat a query, and no context lies more than
    MAX_DEPTH nested resolutions below its client request.
   */
  lemma NestedResolutionIsBounded(steps: seq<Step>, c: nat)
    requires IsRun(steps) && c < |StateAfter(steps).contexts|
    ensures Inv(StateAfter(steps))
    ensures Distinct(StateAfter(steps).contexts[c].chain)
    ensures Depth(StateAfter(steps), c) == |StateAfter(steps).contexts[c].chain| <= MAX_DEPTH
  {
    RunsKeepInv(steps);
    DepthIsChainLength(StateAfter(steps), c);
  }

  // ---------- The worker's end of a resolve request ----------

  /** Why the master could not answer, as an exception and as it travels: a type name and a text. */
  datatype ResolveError = NxDomainError | RecursionRefused(text: string) | OtherFailure(typeName: string, text: string)

  function TypeOnWire(e: ResolveError): string {
    match e
    case NxDomainError => "NXDOMAIN"
    case RecursionRefused(_) => "NestedResolveRecursionError"
    case OtherFailure(typeName, _) => typeName
  }

  function FromWire(typeName: string, text: string): ResolveError {
    if typeName == "NXDOMAIN" then NxDomainError
    else if typeName == "NestedResolveRecursionError" then RecursionRefused(text)
    else OtherFailure("RuntimeError", if text != "" then text else typeName)
  }

  /**
    NXDOMAIN and a refused recursion arrive as what they were, and nothing else arrives as either unless it bears
    that name.
   */
  lemma ErrorKindSurvivesIpc(e: ResolveError, text: string)
    ensures FromWire(TypeOnWire(e), text) == NxDomainError <==>
      e == NxDomainError || (e.OtherFailure? && e.typeName == "NXDOMAIN")
    ensures FromWire(TypeOnWire(e), text).RecursionRefused? <==>
      e.RecursionRefused? || (e.OtherFailure? && e.typeName == "NestedResolveRecursionError")
  {
  }

  datatype Cell = Cell(isSet: bool, wire: Option<string>, error: Option<ResolveError>)

  /** What a resolve response does to the waiting caller: the first response to a known id wins. */
  function Received(pending: map<string, Cell>, id: string, wire: Option<string>, errorType: string, text: string)
      : (r: map<string, Cell>) {
    if id !in pending || pending[id].isSet then pending
    else if errorType != "" then pending[id := Cell(true, pending[id].wire, Some(FromWire(errorType, text)))]
    else if wire.Some? then pending[id := Cell(true, wire, pending[id].error)]
    else pending[id := Cell(true, pending[id].wire, Some(OtherFailure("RuntimeError", "no response")))]
  }

  class WorkerResolver {
    var pending: map<string, Cell>

    constructor ()
      ensures pending == map[]
    {
      pending := map[];
    }

    /** Registers a request under a fresh id and gives the chain to send, or refuses it. */
    method Begin(context: Context, qname: string, qtype: string, freshId: string) returns (a: Attempt)
      requires freshId !in pending
      modifies this
      ensures a == Attempted(context, qname, qtype)
      ensures pending == if a.Started? then old(pending)[freshId := Cell(false, None, None)] else old(pending)
    {
      a := Attempted(context, qname, qtype);
      if a.Started? {
        pending := pending[freshId := Cell(false, None, None)];
      }
    }

    /** A waiting request gets the error the response names, else its message, else an error of its own. */
    method ReceiveResponse(id: string, wire: Option<string>, errorType: string, text: string)
      modifies this
      ensures pending == Received(old(pending), id, wire, errorType, text)
      ensures id in old(pending) && !old(pending)[id].isSet ==>
        && id in pending && pending[id].isSet
        && (errorType == "NXDOMAIN" ==> pending[id].error == Some(NxDomainError))
        && (errorType == "NestedResolveRecursionError" ==> pending[id].error == Some(RecursionRefused(text)))
        && (errorType != "" ==> pending[id].error.Some? && pending[id].wire == old(pending)[id].wire)
        && (errorType == "" && wire.Some? ==> pending[id].wire == wire && pending[id].error == old(pending)[id].error)
        && (errorType == "" && wire.None? ==> pending[id].error.Some?)
      ensures id in old(pending) && old(pending)[id].isSet ==> pending == old(pending)
    {
      if id !in pending {
        return;
      }
      var cell := pending[id];
      if cell.isSet {
        return;
      }
      if errorType != "" {
        cell := cell.(error := Some(FromWire(errorType, text)));
      } else if wire.Some? {
        cell := cell.(wire := wire);
      } else {
        cell := cell.(error := Some(OtherFailure("RuntimeError", "no response")));
      }
      pending := pending[id := cell.(isSet := true)];
    }
  }

  /** A response changes at most its own request, once: a reply meant for a replaced worker is ignored. */
  lemma ResponsesAreIdempotentAndLocal(pending: map<string, Cell>, id: string, other: string, w1: Option<string>,
      t1: string, e1: string, w2: Option<string>, t2: string, e2: string)
    ensures Received(Received(pending, id, w1, t1, e1), id, w2, t2, e2) == Received(pending, id, w1, t1, e1)
    ensures Received(pending, id, w1, t1, e1).Keys == pending.Keys
    ensures other != id && other in pending ==> Received(pending, id, w1, t1, e1)[other] == pending[other]
    ensures id !in pending ==> Received(pending, id, w1, t1, e1) == pending
  {
  }
}
