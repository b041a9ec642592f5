/** Guarantees over whole runs of a text examination. */
module Guarantees {
  import opened Numbers
  import opened Wrappers
  import opened Questions
  import opened Policy
  import opened Selector
  import opened Exam
  import opened Transcript
  import opened Runs

  // ----- completion is final -----

  /** Nothing a caller sends changes a completed session. */
  lemma {:induction false} CompletedIsFinal(plan: Plan, steps: seq<Step>, more: seq<Step>)
    requires After(plan, steps).status == Completed
    ensures After(plan, steps + more) == After(plan, steps)
  {
    if more == [] {
      assert steps + more == steps;
    } else {
      var n := |more| - 1;
      CompletedIsFinal(plan, steps, more[..n]);
      assert (steps + more)[..|steps + more| - 1] == steps + more[..n];
    }
  }

  // ----- how many questions -----

  function Ids(questions: seq<Question>): set<string> {
    set q | q in questions :: q.id
  }

  lemma {:induction false} IdsCardinality(questions: seq<Question>)
    ensures |Ids(questions)| <= |questions|
  {
    if questions != [] {
      IdsCardinality(questions[1..]);
      assert Ids(questions) == {questions[0].id} + Ids(questions[1..]);
    }
  }

  lemma {:induction false} AskedCardinality(asked: seq<string>)
    requires Distinct(asked)
    ensures |AskedSet(asked)| == |asked|
  {
    if asked != [] {
      var n := |asked| - 1;
      AskedCardinality(asked[..n]);
      assert AskedSet(asked) == AskedSet(asked[..n]) + {asked[n]};
    }
  }

  lemma SubsetCardinality<T>(a: set<T>, b: set<T>)
    requires a <= b
    ensures |a| <= |b| && (|a| == |b| ==> a == b)
  {
    var rest := b - a;
    assert b == a + rest && |b| == |a| + |rest|;
  }

  /** No run asks more questions than there are; having asked that many, it has asked them all. */
  lemma AskedWithinBlueprint(plan: Plan, s: Session)
    requires Underway(plan, s)
    ensures |s.asked| <= |plan.questions|
    ensures |s.asked| >= |plan.questions| ==> AskedSet(s.asked) == Ids(plan.questions)
  {
    IdsCardinality(plan.questions);
    AskedCardinality(s.asked);
    forall id | id in AskedSet(s.asked) ensures id in Ids(plan.questions) {
      assert IdOf(plan.questions, id);
    }
    SubsetCardinality(AskedSet(s.asked), Ids(plan.questions));
  }

  // ----- termination -----

  /** An accepted answer completes the session or lowers (questions left, tries left). */
  lemma AnswerMakesProgress(plan: Plan, s: Session, input: Submission)
    requires WellFormed(plan) && SessionInv(plan, s) && Submitted(plan, s, input).Success?
    ensures var t := Apply(plan, s, Submit(input));
            0 <= |plan.questions| - |s.asked| && 0 <= AttemptBound(plan.contract) - s.attempts
            && (t.status == Completed
                || (Underway(plan, t)
                    && (|plan.questions| - |t.asked| < |plan.questions| - |s.asked|
                        || (t.asked == s.asked
                            && AttemptBound(plan.contract) - t.attempts < AttemptBound(plan.contract) - s.attempts))))
  {
    SubmissionSplit(plan, s, input);
    SubmitKeepsInv(plan, s, input);
    AskedWithinBlueprint(plan, s);
  }

  lemma ProductMono(a: nat, b: nat, c: nat)
    requires a <= b
    ensures a * c <= b * c
  {}

  /**
   A run takes at most (asked questions) times (1 + tries) answers, where a question has as many tries
   as follow-ups, or the one hint when no follow-up is allowed; enough answers complete the session.
   */
  lemma RunsAreBounded(plan: Plan, steps: seq<Step>)
    requires WellFormed(plan)
    ensures var s := After(plan, steps);
            var tries := 1 + AttemptBound(plan.contract);
            CountAnswers(s.turns) <= |s.asked| * tries
            && |s.asked| <= |plan.questions|
            && (CountAnswers(s.turns) >= |plan.questions| * tries && s != FRESH ==> s.status == Completed)
  {
    ReachableSessions(plan, steps);
    ReachableTranscripts(plan, steps);
    if After(plan, steps) != FRESH {
      AnswersBounded(plan, After(plan, steps));
    }
  }

  lemma AnswersBounded(plan: Plan, s: Session)
    requires Underway(plan, s) && AnswerBound(plan, s)
    ensures var tries := 1 + AttemptBound(plan.contract);
            CountAnswers(s.turns) <= |s.asked| * tries
            && |s.asked| <= |plan.questions|
            && (s.status == Active ==> CountAnswers(s.turns) < |plan.questions| * tries)
  {
    AskedWithinBlueprint(plan, s);
    TriesStep(|s.asked|, 1 + AttemptBound(plan.contract));
    ProductMono(|s.asked|, |plan.questions|, 1 + AttemptBound(plan.contract));
  }

  /** A complete answer without errors. */
  predicate IsGood(input: Submission) {
    input.outcome.Judged? && input.outcome.judgement.answered
    && input.outcome.judgement.coverage >= 0.72 && input.outcome.judgement.errors == []
  }

  lemma GoodAnswerAdvances(plan: Plan, s: Session, input: Submission)
    requires WellFormed(plan) && SessionInv(plan, s) && s.status == Active && IsGood(input)
    requires MoveOn in plan.contract.Allowed() || End in plan.contract.Allowed()
    ensures Submitted(plan, s, input).Success?
    ensures var t := Apply(plan, s, Submit(input));
            t.status == Completed || (t.status == Active && |t.asked| == |s.asked| + 1)
  {
    var q := plan.questions[s.index];
    var last := |s.asked| >= QuestionLimit(plan);
    NoSafeActionExactly(input.outcome.judgement, s.attempts, q.followups, last, plan.contract);
    StrongAnswerLeaves(input.outcome.judgement, s.attempts, q.followups, last, plan.contract);
  }

  /** Submissions that differ in text, evaluation and learner state, all of them good. */
  predicate AllGood(more: seq<Step>) {
    forall i :: 0 <= i < |more| ==> more[i].Submit? && IsGood(more[i].input)
  }

  lemma AfterOneMore(plan: Plan, steps: seq<Step>, step: Step)
    ensures After(plan, steps + [step]) == Apply(plan, After(plan, steps), step)
  {
    assert (steps + [step])[..|steps|] == steps;
  }

  /** One more good answer, whether or not the session is completed by then. */
  lemma GoodStep(plan: Plan, s: Session, step: Step, before: nat, n: nat)
    requires WellFormed(plan) && SessionInv(plan, s) && step.Submit? && IsGood(step.input)
    requires MoveOn in plan.contract.Allowed() || End in plan.contract.Allowed()
    requires s.status == Completed || (s.status == Active && |s.asked| == before + n)
    ensures var t := Apply(plan, s, step);
            t.status == Completed || (t.status == Active && |t.asked| == before + n + 1)
  {
    if s.status == Active { GoodAnswerAdvances(plan, s, step.input); }
  }

  lemma {:induction false} GoodAnswersAdvance(plan: Plan, steps: seq<Step>, more: seq<Step>)
    requires WellFormed(plan) && After(plan, steps).status == Active && AllGood(more)
    requires MoveOn in plan.contract.Allowed() || End in plan.contract.Allowed()
    ensures var t := After(plan, steps + more);
            t.status == Completed || (t.status == Active && |t.asked| == |After(plan, steps).asked| + |more|)
  {
    if more == [] {
      assert steps + more == steps;
    } else {
      var n := |more| - 1;
      GoodAnswersAdvance(plan, steps, more[..n]);
      assert steps + more == steps + more[..n] + [more[n]];
      AfterOneMore(plan, steps + more[..n], more[n]);
      ReachableSessions(plan, steps + more[..n]);
      GoodStep(plan, After(plan, steps + more[..n]), more[n], |After(plan, steps).asked|, n);
    }
  }

  /** As many questions as the blueprint has, and none left for a session that is still active. */
  lemma TooManyAsked(plan: Plan, s: Session, before: nat, n: nat)
    requires SessionInv(plan, s) && before + n > |plan.questions|
    requires s.status == Completed || (s.status == Active && |s.asked| == before + n)
    ensures s.status == Completed
  {
    if s.status == Active { AskedWithinBlueprint(plan, s); }
  }

  /**
   A session that may move on or end is completed by any good answers, whatever they say, that are more
   than there are questions left to ask.
   */
  lemma GoodAnswersComplete(plan: Plan, steps: seq<Step>, more: seq<Step>)
    requires WellFormed(plan) && After(plan, steps).status == Active && AllGood(more)
    requires MoveOn in plan.contract.Allowed() || End in plan.contract.Allowed()
    requires |After(plan, steps).asked| + |more| > |plan.questions|
    ensures |After(plan, steps).asked| <= |plan.questions|
    ensures After(plan, steps + more).status == Completed
  {
    ReachableSessions(plan, steps);
    AskedWithinBlueprint(plan, After(plan, steps));
    GoodAnswersAdvance(plan, steps, more);
    ReachableSessions(plan, steps + more);
    TooManyAsked(plan, After(plan, steps + more), |After(plan, steps).asked|, |more|);
  }

  // ----- the question limit -----

  /** Adaptive sessions check the limit only by ending. */
  predicate LimitEnforced(plan: Plan) {
    !plan.adaptive || End in plan.contract.Allowed()
  }

  lemma SubmitKeepsLimit(plan: Plan, s: Session, input: Submission)
    requires LimitEnforced(plan) && SessionInv(plan, s) && Submitted(plan, s, input).Success?
    requires |s.asked| <= MaxInt(1, QuestionLimit(plan))
    ensures |Apply(plan, s, Submit(input)).asked| <= MaxInt(1, QuestionLimit(plan))
  {
    SubmissionSplit(plan, s, input);
    DecisionIsAllowed(input.outcome.judgement, s.attempts, plan.questions[s.index].followups,
                      |s.asked| >= QuestionLimit(plan), plan.contract);
  }

  /** With a fixed order, or when ending is allowed, no run asks more questions than the limit, or the one it opens with. */
  lemma {:induction false} LimitKept(plan: Plan, steps: seq<Step>)
    requires WellFormed(plan) && LimitEnforced(plan)
    ensures |After(plan, steps).asked| <= MaxInt(1, QuestionLimit(plan))
    ensures plan.questionLimit >= 1 ==> |After(plan, steps).asked| <= QuestionLimit(plan)
  {
    ReachableSessions(plan, steps);
    if steps != [] {
      var n := |steps| - 1;
      LimitKept(plan, steps[..n]);
      ReachableSessions(plan, steps[..n]);
      var s := After(plan, steps[..n]);
      if steps[n].Submit? && Submitted(plan, s, steps[n].input).Success? {
        SubmitKeepsLimit(plan, s, steps[n].input);
      }
    }
  }

  /** At most so many answers are taken as the questions within the limit allow, and that many complete the session. */
  ghost predicate EndsWithinLimit(plan: Plan, s: Session) {
    var most := MaxInt(1, QuestionLimit(plan)) * (1 + AttemptBound(plan.contract));
    CountAnswers(s.turns) <= most && (CountAnswers(s.turns) == most ==> s.status == Completed)
  }

  lemma LimitBoundsAnswers(plan: Plan, steps: seq<Step>)
    requires WellFormed(plan) && LimitEnforced(plan)
    ensures EndsWithinLimit(plan, After(plan, steps))
  {
    LimitKept(plan, steps);
    ReachableSessions(plan, steps);
    ReachableTranscripts(plan, steps);
    AnswersWithin(plan, After(plan, steps), MaxInt(1, QuestionLimit(plan)));
  }

  lemma AnswersWithin(plan: Plan, s: Session, limit: nat)
    requires SessionInv(plan, s) && AnswerBound(plan, s) && 0 < limit && |s.asked| <= limit
    ensures var most := limit * (1 + AttemptBound(plan.contract));
            CountAnswers(s.turns) <= most && (CountAnswers(s.turns) == most ==> s.status == Completed)
  {
    var tries := 1 + AttemptBound(plan.contract);
    ProductMono(1, limit, tries);
    if s != FRESH {
      TriesStep(|s.asked|, tries);
      ProductMono(|s.asked|, limit, tries);
    }
  }

  /** Where the limit is kept, good answers complete the session as soon as they outnumber what the limit leaves. */
  lemma GoodAnswersCompleteWithinLimit(plan: Plan, steps: seq<Step>, more: seq<Step>)
    requires WellFormed(plan) && LimitEnforced(plan) && After(plan, steps).status == Active && AllGood(more)
    requires MoveOn in plan.contract.Allowed() || End in plan.contract.Allowed()
    requires |After(plan, steps).asked| + |more| > MaxInt(1, QuestionLimit(plan))
    ensures After(plan, steps + more).status == Completed
  {
    GoodAnswersAdvance(plan, steps, more);
    LimitKept(plan, steps + more);
  }

  /** At the limit, the contract rules out every way of not moving on. */
  predicate MustMoveOn(plan: Plan, s: Session, j: Judgement)
    requires s.index < |plan.questions|
  {
    var wanted := Requested(j, s.attempts, Candidates(j, plan.questions[s.index].followups), true, plan.contract).action;
    var allowed := plan.contract.Allowed();
    wanted !in allowed && End !in allowed && MoveOn in allowed
    && !(wanted == GiveHint && AskFollowup in allowed && s.attempts < plan.contract.MaxFollowups())
  }

  lemma MustMoveOnDecides(plan: Plan, s: Session, j: Judgement)
    requires s.index < |plan.questions| && s.asked != [] && |s.asked| >= QuestionLimit(plan)
    ensures MustMoveOn(plan, s, j) <==>
            Decision(plan, s, j).Success? && Decision(plan, s, j).value.verdict.action == MoveOn
  {}

  /** At the limit a next question is found only by the adaptive selector, exactly when one is eligible. */
  lemma NextAtLimit(plan: Plan, s: Session, k: Knowledge)
    requires WellFormed(plan) && s.index < |plan.questions| && |s.asked| >= QuestionLimit(plan)
    ensures NextQuestion(plan, s, s.asked, k).Some? <==>
            plan.adaptive && exists q :: q in plan.questions && Eligible(q, k, plan.selection, AskedSet(s.asked))
  {
    SelectorIsExact(Setting(plan.questions, k, plan.selection, AskedSet(s.asked), plan.questions[s.index].id));
  }

  /** Carrying out a decision asks a further question exactly when it moves on and finds one. */
  lemma AsksMore(plan: Plan, s: Session, d: Decided, k: Knowledge)
    requires s.index < |plan.questions| && s.asked != []
    ensures |CarriedOut(plan, s, d, k).asked| > |s.asked| <==>
            d.verdict.action == MoveOn && NextQuestion(plan, s, s.asked, k).Some?
  {}

  /** Exactly when an answer given at the limit leads to one more question. */
  lemma LimitPassedExactly(plan: Plan, s: Session, input: Submission)
    requires WellFormed(plan) && SessionInv(plan, s) && s.status == Active && input.outcome.Judged?
    requires |s.asked| >= QuestionLimit(plan)
    ensures |Apply(plan, s, Submit(input)).asked| > |s.asked| <==>
            plan.adaptive && MustMoveOn(plan, s, input.outcome.judgement)
            && exists q :: q in plan.questions
                 && Eligible(q, input.knowledge, plan.selection, AskedSet(s.asked))
  {
    var j := input.outcome.judgement;
    MustMoveOnDecides(plan, s, j);
    NextAtLimit(plan, s, input.knowledge);
    if Decision(plan, s, j).Success? {
      var r := Recorded(plan, s, input.content, input.outcome.evaluation);
      AsksMore(plan, r, Decision(plan, s, j).value, input.knowledge);
      assert NextQuestion(plan, r, s.asked, input.knowledge) == NextQuestion(plan, s, s.asked, input.knowledge);
    }
  }

  /** In an adaptive session that may only move on, one good answer to the only allowed question passes the limit. */
  lemma LimitCanBePassed(plan: Plan, k: Knowledge, content: string, e: Evaluation)
    requires WellFormed(plan) && plan.adaptive && plan.questionLimit == 1 && |plan.questions| > 1
    requires plan.contract.allowedActions == [MoveOn]
    requires forall q :: q in plan.questions ==> Suitable(q, k, plan.selection)
    ensures var good := Submission(content, Judged(Judgement(true, 1.0, [], []), e), k);
            |After(plan, [Begin(k), Submit(good)]).asked| > plan.questionLimit
  {
    var good := Submission(content, Judged(Judgement(true, 1.0, [], []), e), k);
    var s := Apply(plan, FRESH, Begin(k));
    BeginKeepsInv(plan, FRESH, k);
    assert s.status == Active && s.asked == [FirstQuestion(plan, k).id];
    var other := if plan.questions[0].id in s.asked then plan.questions[1] else plan.questions[0];
    assert Eligible(other, k, plan.selection, AskedSet(s.asked));
    LimitPassedExactly(plan, s, good);
    TwoSteps(plan, Begin(k), Submit(good));
  }

  lemma TwoSteps(plan: Plan, first: Step, second: Step)
    ensures After(plan, [first, second]) == Apply(plan, Apply(plan, FRESH, first), second)
  {
    var both := [first, second];
    assert both[..1] == [first] && [first][..0] == [];
    assert After(plan, [first]) == Apply(plan, After(plan, []), first);
    assert After(plan, both) == Apply(plan, After(plan, both[..1]), both[1]);
  }

  /** A plan that meets those premises: two questions on one knowledge unit. */
  lemma LimitExample() returns (plan: Plan, k: Knowledge)
    ensures WellFormed(plan) && plan.adaptive && plan.questionLimit == 1 && |plan.questions| == 2
    ensures plan.contract.allowedActions == [MoveOn]
    ensures forall q :: q in plan.questions ==> Suitable(q, k, plan.selection)
  {
    var unit := Unit("code", 0.7, []);
    k := Knowledge([("u", unit)], map["A" := ["u"], "B" := ["u"]], [], {});
    plan := Plan([Question("A", "method", "", 3, [], [], [], ""), Question("B", "method", "", 3, [], [], [], "")],
                 true, 1, "", Contract([MoveOn], None, None, None, None), SelectionPolicy({}, [], 1, 5));
    assert FindUnit(k.units, "u") == Some(unit);
    assert LinkedUnits(k, ["u"]) == [unit] + LinkedUnits(k, ["u"][1..]) == [unit];
  }

  // ----- help on record -----

  /** The recorded assistance is none before any help, and afterwards the kind the last turn gave. */
  lemma AssistanceIsLatestHelp(plan: Plan, steps: seq<Step>)
    requires WellFormed(plan) && After(plan, steps).status == Active
    ensures var s := After(plan, steps);
            s.turns != []
            && var last := s.turns[|s.turns| - 1];
            (AssistanceLevel(s) == Direct <==> !Helps(last))
            && (Helps(last) ==>
                  AssistanceLevel(s) == (if last.decision.value.verdict.action == GiveHint then AfterHint else AfterFollowup))
  {
    ReachableSessions(plan, steps);
  }

  // ----- fixed order -----

  /** The question a session without adaptation, or with a target, starts with. */
  function OpeningId(plan: Plan): string
    requires plan.questions != []
  {
    var named := QuestionWithId(plan.questions, plan.target);
    if named.Some? then named.value.id else plan.questions[0].id
  }

  lemma SubmitKeepsOpening(plan: Plan, s: Session, input: Submission)
    requires SessionInv(plan, s) && Submitted(plan, s, input).Success?
    ensures s.asked != [] && Apply(plan, s, Submit(input)).asked != []
    ensures Apply(plan, s, Submit(input)).asked[0] == s.asked[0]
  {
    SubmissionSplit(plan, s, input);
  }

  /** Without adaptation, or with a target, the first question is the target if the blueprint has it. */
  lemma {:induction false} OpensWithTarget(plan: Plan, steps: seq<Step>)
    requires WellFormed(plan) && (!plan.adaptive || plan.target != "")
    ensures var s := After(plan, steps);
            s != FRESH ==> plan.questions != [] && s.asked != [] && s.asked[0] == OpeningId(plan)
  {
    if steps != [] {
      var n := |steps| - 1;
      var s := After(plan, steps[..n]);
      OpensWithTarget(plan, steps[..n]);
      ReachableSessions(plan, steps[..n]);
      if steps[n].Submit? && Submitted(plan, s, steps[n].input).Success? {
        SubmitKeepsOpening(plan, s, steps[n].input);
      }
    }
  }

  /** A completed session in fixed order has no question left to ask under the limit. */
  ghost predicate NothingLeft(plan: Plan, s: Session) {
    s.status == Completed ==> |s.asked| >= QuestionLimit(plan) || s.index + 1 == |plan.questions|
  }

  lemma SubmitLeavesNothing(plan: Plan, s: Session, input: Submission)
    requires !plan.adaptive && MoveOn in plan.contract.Allowed()
    requires SessionInv(plan, s) && Submitted(plan, s, input).Success?
    ensures NothingLeft(plan, Apply(plan, s, Submit(input)))
  {
    SubmissionSplit(plan, s, input);
    DecisionIsAllowed(input.outcome.judgement, s.attempts, plan.questions[s.index].followups,
                      |s.asked| >= QuestionLimit(plan), plan.contract);
  }

  lemma {:induction false} CompletedLeavesNothing(plan: Plan, steps: seq<Step>)
    requires WellFormed(plan) && !plan.adaptive && MoveOn in plan.contract.Allowed()
    ensures NothingLeft(plan, After(plan, steps))
  {
    if steps != [] {
      var n := |steps| - 1;
      CompletedLeavesNothing(plan, steps[..n]);
      ReachableSessions(plan, steps[..n]);
      if steps[n].Submit? && Submitted(plan, After(plan, steps[..n]), steps[n].input).Success? {
        SubmitLeavesNothing(plan, After(plan, steps[..n]), steps[n].input);
      }
    }
  }

  ghost predicate AskedAll(plan: Plan, s: Session) {
    WalksInOrder(plan, s)
    && |s.asked| == MinInt(QuestionLimit(plan), |plan.questions| - (s.index + 1 - |s.asked|))
  }

  lemma AskedUpToLimit(plan: Plan, s: Session)
    requires !plan.adaptive && SessionInv(plan, s) && s.status == Completed
    requires NothingLeft(plan, s) && |s.asked| <= QuestionLimit(plan)
    ensures AskedAll(plan, s)
  {}

  /**
   A completed run in fixed order that was allowed to move on has asked the questions from the opening
   one on, as many as the limit and the blueprint allow.
   */
  lemma FixedRunsAskAll(plan: Plan, steps: seq<Step>)
    requires WellFormed(plan) && !plan.adaptive && MoveOn in plan.contract.Allowed() && plan.questionLimit >= 1
    requires After(plan, steps).status == Completed
    ensures AskedAll(plan, After(plan, steps))
  {
    ReachableSessions(plan, steps);
    CompletedLeavesNothing(plan, steps);
    LimitKept(plan, steps);
    AskedUpToLimit(plan, After(plan, steps));
  }
}
