/**
  Keeping an answer's rrset and its response in agreement, and the final reconciliation of the answer and
  the response of a request.
 */
module AnswerSync {
  import opened Prelude
  import opened Messages

  predicate SameType(r: RRset, rdtype: nat, rdclass: nat) {
    r.rdtype == rdtype && r.rdclass == rdclass
  }

  function Matches(section: seq<RRset>, rdtype: nat, rdclass: nat): (n: nat) {
    if section == [] then 0
    else Matches(section[..|section| - 1], rdtype, rdclass) + if SameType(Last(section), rdtype, rdclass) then 1 else 0
  }

  /** The position of the last rrset of this type and class, or the section's length. */
  function LastMatch(section: seq<RRset>, rdtype: nat, rdclass: nat): (k: nat)
    ensures k <= |section|
    ensures k < |section| ==> SameType(section[k], rdtype, rdclass)
    ensures forall j :: 0 <= j < |section| && (k == |section| || k < j) ==> !SameType(section[j], rdtype, rdclass)
  {
    if section == [] then 0
    else
      var n := |section| - 1;
      if SameType(section[n], rdtype, rdclass) then n
      else
        var k := LastMatch(section[..n], rdtype, rdclass);
        if k == n then n + 1 else k
  }

  /** The answer section after writing the rrset back. */
  function Synced(section: seq<RRset>, rdtype: nat, rdclass: nat, rrset: Option<RRset>): (r: seq<RRset>) {
    var k := LastMatch(section, rdtype, rdclass);
    if rrset.None? then (if k < |section| then section[..k] + section[k + 1..] else section)
    else if k < |section| then section[k := rrset.value]
    else section + [rrset.value]
  }

  predicate Consistent(a: Answer) {
    a.rrset.Some? ==> SameType(a.rrset.value, a.rdtype, a.rdclass)
  }

  class AnswerObject {
    var rrset: Option<RRset>
    var section: seq<RRset>
    const rdtype: nat
    const rdclass: nat

    /** Writes the rrset into the response; refuses an rrset of another type or class without touching it. */
    method SyncRrset() returns (ok: bool)
      modifies this`section
      ensures ok <==> (rrset.Some? ==> SameType(rrset.value, rdtype, rdclass))
      ensures section == if ok then Synced(old(section), rdtype, rdclass, rrset) else old(section)
    {
      if rrset.Some? && (rrset.value.rdtype != rdtype || rrset.value.rdclass != rdclass) {
        return false;
      }
      var target: Option<nat> := None;
      for index := 0 to |section|
        invariant target.None? ==> forall j :: 0 <= j < index ==> !SameType(section[j], rdtype, rdclass)
        invariant target.Some? ==> target.value < index && SameType(section[target.value], rdtype, rdclass)
        invariant target.Some? ==> forall j :: target.value < j < index ==> !SameType(section[j], rdtype, rdclass)
      {
        if section[index].rdtype == rdtype && section[index].rdclass == rdclass {
          target := Some(index);
        }
      }
      if rrset.None? {
        if target.Some? {
          section := section[..target.value] + section[target.value + 1..];
        }
      } else if target.Some? {
        section := section[target.value := rrset.value];
      } else {
        section := section + [rrset.value];
      }
      return true;
    }
  }

  /** Only the last rrset of the queried type changes; every other record keeps its place in the order. */
  lemma SyncTouchesOnlyLastMatch(section: seq<RRset>, rdtype: nat, rdclass: nat, rrset: Option<RRset>)
    requires rrset.Some? ==> SameType(rrset.value, rdtype, rdclass)
    ensures var r := Synced(section, rdtype, rdclass, rrset);
      exists before, old_, new_, after ::
        && section == before + old_ + after && r == before + new_ + after
        && new_ == (if rrset.Some? then [rrset.value] else [])
        && (old_ == [] || (|old_| == 1 && SameType(old_[0], rdtype, rdclass)))
        && (forall x :: x in after ==> !SameType(x, rdtype, rdclass))
        && (old_ == [] ==> after == [] && forall x :: x in before ==> !SameType(x, rdtype, rdclass))
  {
    var k := LastMatch(section, rdtype, rdclass);
    var r := Synced(section, rdtype, rdclass, rrset);
    var new_ := if rrset.Some? then [rrset.value] else [];
    if k < |section| {
      assert section == section[..k] + [section[k]] + section[k + 1..];
      assert r == section[..k] + new_ + section[k + 1..];
    } else {
      assert section == section + [] + [] && r == section + new_ + [];
    }
  }

  lemma {:induction false} MatchesZero(section: seq<RRset>, rdtype: nat, rdclass: nat)
    ensures Matches(section, rdtype, rdclass) == 0 <==> LastMatch(section, rdtype, rdclass) == |section|
  {
    if section != [] {
      MatchesZero(section[..|section| - 1], rdtype, rdclass);
    }
  }

  lemma {:induction false} MatchesSplit(a: seq<RRset>, b: seq<RRset>, rdtype: nat, rdclass: nat)
    ensures Matches(a + b, rdtype, rdclass) == Matches(a, rdtype, rdclass) + Matches(b, rdtype, rdclass)
  {
    if b == [] {
      assert a + b == a;
    } else {
      assert (a + b)[..|a + b| - 1] == a + b[..|b| - 1];
      MatchesSplit(a, b[..|b| - 1], rdtype, rdclass);
    }
  }

  lemma DropIsOneLess(section: seq<RRset>, rdtype: nat, rdclass: nat)
    requires Matches(section, rdtype, rdclass) > 0
    ensures Matches(Synced(section, rdtype, rdclass, None), rdtype, rdclass) == Matches(section, rdtype, rdclass) - 1
  {
    MatchesZero(section, rdtype, rdclass);
    var k := LastMatch(section, rdtype, rdclass);
    assert section == section[..k] + [section[k]] + section[k + 1..];
    MatchesSplit(section[..k] + [section[k]], section[k + 1..], rdtype, rdclass);
    MatchesSplit(section[..k], [section[k]], rdtype, rdclass);
    MatchesSplit(section[..k], section[k + 1..], rdtype, rdclass);
    assert [section[k]][..0] == [];
  }

  /** Syncing twice is syncing once, except when there is no rrset and more than one record of the type to delete. */
  lemma SyncIdempotentIff(section: seq<RRset>, rdtype: nat, rdclass: nat, rrset: Option<RRset>)
    requires rrset.Some? ==> SameType(rrset.value, rdtype, rdclass)
    ensures var once := Synced(section, rdtype, rdclass, rrset);
      Synced(once, rdtype, rdclass, rrset) == once <==> rrset.Some? || Matches(section, rdtype, rdclass) <= 1
  {
    var once := Synced(section, rdtype, rdclass, rrset);
    MatchesZero(section, rdtype, rdclass);
    MatchesZero(once, rdtype, rdclass);
    if rrset.None? {
      if Matches(section, rdtype, rdclass) > 0 { DropIsOneLess(section, rdtype, rdclass); }
      if Matches(once, rdtype, rdclass) > 0 { DropIsOneLess(once, rdtype, rdclass); }
    } else {
      var k, j := LastMatch(section, rdtype, rdclass), LastMatch(once, rdtype, rdclass);
      assert once[k] == rrset.value;
      assert j == k;
    }
  }

  // ---------- Final reconciliation ----------

  /**
    What the DNS library does with a message: parsing its own wire form, and choosing the rrset and the
    expiration of a new answer. None means it raises.
   */
  datatype Library = Library(
    reparse: Message -> Option<Message>,
    choose: (string, nat, nat, Message) -> Option<(Option<RRset>, real)>)

  function Clone(lib: Library, response: Message, request: Message): (m: Option<Message>)
    ensures m.Some? ==> m.value.id == request.id
  {
    var parsed := lib.reparse(response);
    if parsed.None? then None else Some(parsed.value.(id := request.id))
  }

  /** An answer for the request's question; when no rrset matches, the first one of the response stands in. */
  function BuildAnswer(lib: Library, request: Message, response: Message): (a: Option<Answer>)
    requires request.question != []
  {
    var q := request.question[0];
    var m := Clone(lib, response, request);
    if m.None? then None
    else
      var chosen := lib.choose(q.name, q.rdtype, q.rdclass, m.value);
      if chosen.None? then None
      else
        var (rrset, expiration) := chosen.value;
        var stand := if rrset.None? && m.value.answer != [] then Some(m.value.answer[0]) else rrset;
        Some(Answer(q.name, q.rdtype, q.rdclass, m.value, stand, expiration))
  }

  /** Writes the rrset back, then rebuilds the answer from its own response. */
  function SyncAnswer(lib: Library, a: Answer): (r: Option<Answer>) {
    if !Consistent(a) then None
    else
      var parsed := lib.reparse(a.response.(answer := Synced(a.response.answer, a.rdtype, a.rdclass, a.rrset)));
      if parsed.None? then None
      else
        var chosen := lib.choose(a.qname, a.rdtype, a.rdclass, parsed.value);
        if chosen.None? then None
        else Some(a.(response := parsed.value, rrset := chosen.value.0, expiration := chosen.value.1))
  }

  /** The finals of a request after reconciliation; None when a step raises. */
  function Finalized(lib: Library, request: Message, answer: Option<Answer>, response: Option<Message>)
      : (r: Option<(Answer, Message)>)
    requires request.question != []
  {
    if answer.None? then
      var m := if response.Some? then response.value else ErrorResponse(request, SERVFAIL);
      var a := BuildAnswer(lib, request, m);
      if a.None? then None else Some((a.value, m))
    else
      var a := SyncAnswer(lib, answer.value);
      if a.None? then None
      else
        var m := Clone(lib, a.value.response, request);
        if m.None? then None else Some((a.value, m.value))
  }

  /**
    When reconciliation succeeds and there was an answer, the response is a copy of the answer's own
    response under the request's id, whatever response was set before; without an answer the response stays,
    and the answer is built from it.
   */
  lemma AnswerAndResponseAgree(lib: Library, request: Message, answer: Option<Answer>, response: Option<Message>)
    requires request.question != []
    ensures var r := Finalized(lib, request, answer, response);
      r.Some? ==>
        && (answer.Some? ==> Some(r.value.1) == Clone(lib, r.value.0.response, request))
        && (answer.Some? ==> Finalized(lib, request, answer, None) == r)
        && (answer.None? && response.Some? ==> r.value.1 == response.value)
        && (answer.None? ==> Some(r.value.0.response) == Clone(lib, r.value.1, request))
  {
  }

  /** The answer's response with its rrset written back. */
  function SyncedResponse(a: Answer): Message {
    a.response.(answer := Synced(a.response.answer, a.rdtype, a.rdclass, a.rrset))
  }

  /** The library parses the message, chooses an rrset from it, and parses it once more. */
  predicate Accepts(lib: Library, a: Answer, m: Message) {
    var parsed := lib.reparse(m);
    && parsed.Some? && lib.choose(a.qname, a.rdtype, a.rdclass, parsed.value).Some?
    && lib.reparse(parsed.value).Some?
  }

  /**
    Whatever the library does: reconciling an answer succeeds exactly when its rrset, if any, is of the queried
    type and class and the library accepts the response with the rrset written back. If the library also parses
    that response as it is, the rrset is the last record of its type in the reply.
   */
  lemma FinalReplyCarriesRrset(lib: Library, request: Message, answer: Answer, response: Option<Message>)
    requires request.question != []
    ensures Finalized(lib, request, Some(answer), response).Some? <==>
      Consistent(answer) && Accepts(lib, answer, SyncedResponse(answer))
    ensures Finalized(lib, request, Some(answer), response).Some? ==>
      var reply := Finalized(lib, request, Some(answer), response).value.1;
      reply.id == request.id && (lib.reparse(SyncedResponse(answer)) == Some(SyncedResponse(answer)) ==>
        && reply == SyncedResponse(answer).(id := request.id)
        && (answer.rrset.Some? ==>
              var k := LastMatch(reply.answer, answer.rdtype, answer.rdclass);
              k < |reply.answer| && reply.answer[k] == answer.rrset.value))
    ensures Finalized(lib, request, Some(answer), response).Some? ==>
      var a := Finalized(lib, request, Some(answer), response).value.0;
      && (a.qname, a.rdtype, a.rdclass) == (answer.qname, answer.rdtype, answer.rdclass)
      && lib.choose(a.qname, a.rdtype, a.rdclass, a.response) == Some((a.rrset, a.expiration))
  {
    var section := answer.response.answer;
    if answer.rrset.Some? && Consistent(answer) {
      var once := Synced(section, answer.rdtype, answer.rdclass, answer.rrset);
      var k := LastMatch(section, answer.rdtype, answer.rdclass);
      assert once[k] == answer.rrset.value;
      assert LastMatch(once, answer.rdtype, answer.rdclass) == k;
    }
  }

  /** What the answer built from this message will carry is of the queried type and class, or nothing. */
  predicate Answerable(lib: Library, request: Message, m: Message)
    requires request.question != []
  {
    var q := request.question[0];
    var chosen := lib.choose(q.name, q.rdtype, q.rdclass, m);
    && chosen.Some?
    && if chosen.value.0.Some? then SameType(chosen.value.0.value, q.rdtype, q.rdclass)
       else m.answer == [] || SameType(m.answer[0], q.rdtype, q.rdclass)
  }

  /**
    Whatever the library does: an answer that was built from a response survives reconciliation exactly when the
    copy it was built from is answerable and the library accepts it with the rrset written back.
   */
  lemma BuiltAnswerSurvivesIff(lib: Library, request: Message, response: Message, beside: Option<Message>)
    requires request.question != [] && BuildAnswer(lib, request, response).Some?
    ensures var built := BuildAnswer(lib, request, response).value;
      && Some(built.response) == Clone(lib, response, request)
      && built.qname == request.question[0].name && built.rdtype == request.question[0].rdtype
      && built.rdclass == request.question[0].rdclass
      && (Consistent(built) <==> Answerable(lib, request, built.response))
      && (Finalized(lib, request, Some(built), beside).Some? <==>
            Answerable(lib, request, built.response) && Accepts(lib, built, SyncedResponse(built)))
  {
    FinalReplyCarriesRrset(lib, request, BuildAnswer(lib, request, response).value, beside);
  }

  /** On this message the library raises nothing and chooses, if anything, a record of the queried type. */
  predicate ChoosesWell(lib: Library, q: Question, m: Message) {
    var chosen := lib.choose(q.name, q.rdtype, q.rdclass, m);
    && chosen.Some?
    && (chosen.value.0.Some? ==>
          SameType(chosen.value.0.value, q.rdtype, q.rdclass) && chosen.value.0.value in m.answer)
  }

  /** A message whose records are all of other types is answerable only if it has none. */
  lemma OtherTypesAreNotAnswerable(lib: Library, request: Message, m: Message)
    requires request.question != [] && ChoosesWell(lib, request.question[0], m)
    requires forall r :: r in m.answer ==> !SameType(r, request.question[0].rdtype, request.question[0].rdclass)
    ensures Answerable(lib, request, m) <==> m.answer == []
  {
    if m.answer != [] {
      assert m.answer[0] in m.answer;
    }
  }

  const ALIAS_QUESTION := Question("www.example", TYPE_HTTPS, CLASS_IN)

  /** A request, and a good response to it that holds an alias and nothing else. */
  function AliasRequest(id: nat): Message {
    Message(id, OPCODE_QUERY, NOERROR, [ALIAS_QUESTION], [], [], [])
  }

  function AliasResponse(id: nat): Message {
    AliasRequest(id).(answer := [RRset("www.example", TYPE_CNAME, CLASS_IN, 60, ["example"])])
  }

  /** If the library handles just this response, it is fine by itself, but the answer built from it is refused. */
  lemma AliasAloneFails(lib: Library, id: nat)
    requires lib.reparse(AliasResponse(id)) == Some(AliasResponse(id))
    requires ChoosesWell(lib, ALIAS_QUESTION, AliasResponse(id))
    ensures Finalized(lib, AliasRequest(id), None, Some(AliasResponse(id))).Some?
    ensures BuildAnswer(lib, AliasRequest(id), AliasResponse(id)).Some?
    ensures Finalized(
      lib, AliasRequest(id), BuildAnswer(lib, AliasRequest(id), AliasResponse(id)), Some(AliasResponse(id))).None?
  {
    BuiltAnswerSurvivesIff(lib, AliasRequest(id), AliasResponse(id), Some(AliasResponse(id)));
    OtherTypesAreNotAnswerable(lib, AliasRequest(id), AliasResponse(id));
  }
}
