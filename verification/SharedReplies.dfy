/**
  Whose question a reply carries. Requests that differ only in the case of the name share one worker call, and a
  shared reply keeps the question of the request it was made for.
 */
module SharedReplies {
  import opened Prelude
  import opened Messages
  import opened Text
  import opened FrontCache
  import opened Coalescing

  /** A run in which every worker repeats the question it was asked. */
  ghost predicate IsEchoing(steps: seq<Step>)
    requires IsRun(steps)
  {
    steps == [] || (IsEchoing(Init(steps)) && EchoesAt(StateAfter(Init(steps)), Last(steps)))
  }

  ghost predicate EchoesAt(s: Sys, step: Step)
    requires Enabled(s, step)
  {
    step.Reply? && step.reply.Some? ==> step.reply.value.question == s.calls[step.r].request.question
  }

  /** Every decision carries the question of its call. */
  ghost predicate DecisionsEcho(s: Sys) {
    forall i :: 0 <= i < |s.decisions| ==> DecisionEchoes(s, s.decisions[i])
  }

  ghost predicate DecisionEchoes(s: Sys, d: Decision) {
    d.call < |s.calls| && d.message.question == s.calls[d.call].request.question
  }

  /** Calls keep their requests. */
  lemma RequestsStay(s: Sys, step: Step)
    requires Enabled(s, step)
    ensures |s.calls| <= |Apply(s, step).calls|
    ensures forall r :: 0 <= r < |s.calls| ==> Apply(s, step).calls[r].request == s.calls[r].request
  {
  }

  lemma DecisionSteps(s: Sys, step: Step, i: nat)
    requires Enabled(s, step) && i < |Apply(s, step).decisions|
    ensures i < |s.decisions| ==> Apply(s, step).decisions[i] == s.decisions[i]
    ensures i >= |s.decisions| ==>
      var d := Apply(s, step).decisions[i];
      || (step.Reply? && step.reply == Some(d.message) && d.call == step.r)
      || (step.Fail? && d.call == step.r && d.message.question == s.calls[step.r].request.question)
  {
  }

  lemma {:induction false} EchoingDecides(steps: seq<Step>)
    requires IsRun(steps) && IsEchoing(steps)
    ensures DecisionsEcho(StateAfter(steps))
    decreases |steps|
  {
    if steps != [] {
      EchoingDecides(Init(steps));
      var s, step := StateAfter(Init(steps)), Last(steps);
      RequestsStay(s, step);
      forall i | 0 <= i < |Apply(s, step).decisions|
        ensures DecisionEchoes(Apply(s, step), Apply(s, step).decisions[i])
      {
        DecisionSteps(s, step, i);
        if i < |s.decisions| {
          assert DecisionEchoes(s, s.decisions[i]);
        }
      }
    }
  }

  /** Call r has its reply. */
  ghost predicate HasReply(s: Sys, r: nat) {
    r < |s.calls| && s.calls[r].phase.Returned? && s.calls[r].phase.reply.Some?
  }

  /** Every reply carries the question of its own call or of a call for the same query. */
  lemma ReplyCarriesSharedQuestion(steps: seq<Step>, r: nat) returns (q: nat)
    requires IsRun(steps) && IsEchoing(steps) && HasReply(StateAfter(steps), r)
    ensures var s := StateAfter(steps);
      && q < |s.calls| && s.calls[r].phase.reply.value.question == s.calls[q].request.question
      && (q == r || SameQuery(s.calls[q].request, s.calls[r].request))
  {
    RepliesAreTransparent(steps, r);
    EchoingDecides(steps);
    var s := StateAfter(steps);
    var m := s.calls[r].phase.reply.value;
    if OwnReply(s, r, m) {
      var i :| 0 <= i < |s.decisions| && s.decisions[i] == Decision(r, m);
      assert DecisionEchoes(s, s.decisions[i]);
      q := r;
    } else {
      var i: nat :| CopiesDecision(s, r, m, i);
      assert DecisionEchoes(s, s.decisions[i]);
      SameAnswerSameQuestion(m, s.decisions[i].message);
      q := s.decisions[i].call;
    }
  }

  lemma SameAnswerSameQuestion(m: Message, x: Message)
    requires SameAnswer(m, x)
    ensures m.question == x.question
  {
    assert Untimed(m).question == Untimed(x).question;
  }

  // ---------- The run in which one caller gets the other's question ----------

  /** Two calls for the same query; the first fails while the second waits for it. */
  function SharedRun(a: Message, b: Message): seq<Step> {
    [Arrive(a)] + [Arrive(b)] + [Miss(0)] + [Acquired(0)] + [Miss(1)] + [Acquired(1)]
    + [Fail(0)] + [Finish(0)] + [Wake(1)]
  }

  lemma RunSnoc(steps: seq<Step>, step: Step)
    requires IsRun(steps) && Enabled(StateAfter(steps), step)
    ensures IsRun(steps + [step]) && StateAfter(steps + [step]) == Apply(StateAfter(steps), step)
    ensures IsEchoing(steps) && !step.Reply? ==> IsEchoing(steps + [step])
  {
    assert Init(steps + [step]) == steps && Last(steps + [step]) == step;
  }

  /** The two calls, the second waiting for the first. */
  function Together(a: Message, b: Message, k: Key): Sys {
    Sys(Front(map[], map[k := 0], [Cell(k, false, None)]), [Call(a, Calling), Call(b, Waiting(0))], [])
  }

  lemma FirstCalls(a: Message, b: Message) returns (steps: seq<Step>)
    requires SameQuery(a, b)
    ensures steps == [Arrive(a)] + [Arrive(b)] + [Miss(0)] + [Acquired(0)]
    ensures IsRun(steps) && IsEchoing(steps)
    ensures KeyOf(a).Some? && KeyOf(a) == KeyOf(b)
    ensures var k := KeyOf(a).value;
      StateAfter(steps) == Together(a, b, k).(calls := [Call(a, Calling), Call(b, Checking)])
  {
    SharesKeyIff(a, b);
    assert [] + [Arrive(a)] == [Arrive(a)];
    RunSnoc([], Arrive(a));
    steps := [Arrive(a)];
    RunSnoc(steps, Arrive(b));
    steps := steps + [Arrive(b)];
    RunSnoc(steps, Miss(0));
    steps := steps + [Miss(0)];
    RunSnoc(steps, Acquired(0));
    steps := steps + [Acquired(0)];
  }

  lemma BothCome(a: Message, b: Message) returns (steps: seq<Step>)
    requires SameQuery(a, b)
    ensures steps == [Arrive(a)] + [Arrive(b)] + [Miss(0)] + [Acquired(0)] + [Miss(1)] + [Acquired(1)]
    ensures KeyOf(a).Some? && KeyOf(a) == KeyOf(b)
    ensures IsRun(steps) && IsEchoing(steps) && StateAfter(steps) == Together(a, b, KeyOf(a).value)
  {
    steps := FirstCalls(a, b);
    RunSnoc(steps, Miss(1));
    steps := steps + [Miss(1)];
    RunSnoc(steps, Acquired(1));
    steps := steps + [Acquired(1)];
  }

  lemma SecondGetsFirstsQuestion(a: Message, b: Message)
    requires SameQuery(a, b)
    ensures var steps := SharedRun(a, b);
      && IsRun(steps) && IsEchoing(steps) && HasReply(StateAfter(steps), 1)
      && StateAfter(steps).calls[1].request == b
      && StateAfter(steps).calls[1].phase.reply.value == ErrorResponse(a, SERVFAIL).(id := b.id)
  {
    var steps := BothCome(a, b);
    RunSnoc(steps, Fail(0));
    steps := steps + [Fail(0)];
    RunSnoc(steps, Finish(0));
    steps := steps + [Finish(0)];
    RunSnoc(steps, Wake(1));
    assert steps + [Wake(1)] == SharedRun(a, b);
  }

  /** Two spellings of one name: the second caller is answered under the first one's. */
  lemma SpellingCanBeAnothers()
    ensures var a := Message(1, OPCODE_QUERY, NOERROR, [Question("example", TYPE_HTTPS, CLASS_IN)], [], [], []);
      var b := Message(2, OPCODE_QUERY, NOERROR, [Question("EXAMPLE", TYPE_HTTPS, CLASS_IN)], [], [], []);
      var steps := SharedRun(a, b);
      && IsRun(steps) && HasReply(StateAfter(steps), 1) && StateAfter(steps).calls[1].request == b
      && StateAfter(steps).calls[1].phase.reply.value.question == a.question != b.question
  {
    var a := Message(1, OPCODE_QUERY, NOERROR, [Question("example", TYPE_HTTPS, CLASS_IN)], [], [], []);
    var b := Message(2, OPCODE_QUERY, NOERROR, [Question("EXAMPLE", TYPE_HTTPS, CLASS_IN)], [], [], []);
    assert SameIgnoringCase("example", "EXAMPLE");
    SecondGetsFirstsQuestion(a, b);
    assert "example"[0] != "EXAMPLE"[0];
  }

  // ---------- The exact condition ----------

  /** Only these requests arrive. */
  ghost predicate From(steps: seq<Step>, admitted: set<Message>) {
    forall n :: 0 <= n < |steps| && steps[n].Arrive? ==> steps[n].request in admitted
  }

  lemma {:induction false} CallsAreAdmitted(steps: seq<Step>, admitted: set<Message>, r: nat)
    requires IsRun(steps) && From(steps, admitted) && r < |StateAfter(steps).calls|
    ensures StateAfter(steps).calls[r].request in admitted
    decreases |steps|
  {
    if steps != [] {
      var s, step := StateAfter(Init(steps)), Last(steps);
      RequestsStay(s, step);
      assert From(Init(steps), admitted);
      if r < |s.calls| {
        CallsAreAdmitted(Init(steps), admitted, r);
      } else {
        assert step == steps[|steps| - 1] && step.Arrive?;
      }
    }
  }

  /** In this run the call, once it has its reply, has its own question in it. */
  ghost predicate GetsOwn(steps: seq<Step>, r: nat)
    requires IsRun(steps)
  {
    var s := StateAfter(steps);
    HasReply(s, r) ==> s.calls[r].phase.reply.value.question == s.calls[r].request.question
  }

  /** So it is for every call of every echoing run of these requests. */
  ghost predicate AllGetOwn(admitted: set<Message>) {
    forall steps, r: nat :: IsRun(steps) && IsEchoing(steps) && From(steps, admitted) ==> GetsOwn(steps, r)
  }

  /** Requests for the same query are spelled alike. */
  ghost predicate SpelledAlike(admitted: set<Message>) {
    forall a, b :: a in admitted && b in admitted && SameQuery(a, b) ==> a.question == b.question
  }

  /**
    When workers repeat the question they are asked, every caller is answered under its own question in all runs
    exactly when the requests for the same query all have the same question.
   */
  lemma OwnQuestionIff(admitted: set<Message>)
    ensures AllGetOwn(admitted) <==> SpelledAlike(admitted)
  {
    if SpelledAlike(admitted) {
      forall steps, r: nat | IsRun(steps) && IsEchoing(steps) && From(steps, admitted) ensures GetsOwn(steps, r) {
        if HasReply(StateAfter(steps), r) {
          var q := ReplyCarriesSharedQuestion(steps, r);
          CallsAreAdmitted(steps, admitted, r);
          CallsAreAdmitted(steps, admitted, q);
        }
      }
    }
    if AllGetOwn(admitted) {
      forall a, b | a in admitted && b in admitted && SameQuery(a, b) ensures a.question == b.question {
        SecondGetsFirstsQuestion(a, b);
        assert From(SharedRun(a, b), admitted);
        assert GetsOwn(SharedRun(a, b), 1);
      }
    }
  }
}
