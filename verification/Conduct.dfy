/** What the examiner does after each answer of a run, told from the request and the session alone. */
module Conduct {
  import opened Wrappers
  import opened Questions
  import opened Assessment
  import opened Analyzer
  import opened Credit
  import opened Policy
  import opened Selector
  import opened Exam
  import opened Transcript
  import opened Runs
  import opened Guarantees

  // ----- requests that are refused -----

  /** A session is started exactly when it waits to be and has questions; a session under way or over is not started again. */
  lemma StartAcceptedExactly(plan: Plan, s: Session, k: Knowledge)
    ensures Started(plan, s, k).Success? <==> (s.status == Created || s.status == Ready) && |plan.questions| > 0
    ensures s.status == Active || s.status == Completed ==> Started(plan, s, k) == Failure(AlreadyStarted)
    ensures (s.status == Created || s.status == Ready) && plan.questions == [] ==> Started(plan, s, k) == Failure(NoQuestions)
  {}

  /** Exactly which submissions are accepted; the learner's text and state never matter. */
  lemma SubmitAcceptedExactly(plan: Plan, s: Session, input: Submission)
    requires SessionInv(plan, s)
    ensures Submitted(plan, s, input).Success? <==>
            s.status == Active && input.outcome.Judged?
            && exists a :: a in plan.contract.Allowed() && MayFollow(plan, s, input.outcome.judgement, a)
    ensures s.status != Active ==> Submitted(plan, s, input) == Failure(NotActive)
    ensures s.status == Active && input.outcome.Rejected? ==>
              Submitted(plan, s, input) == Failure(ModelRejected(input.outcome.code))
    ensures s.status == Active && input.outcome.Failed? ==> Submitted(plan, s, input) == Failure(ModelFailed)
    ensures s.status == Active && input.outcome.Judged? ==>
              Submitted(plan, s, input).Success? || Submitted(plan, s, input) == Failure(NoAction)
  {
    if s.status == Active && input.outcome.Judged? {
      var j := input.outcome.judgement;
      var last := |s.asked| >= QuestionLimit(plan);
      var followups := plan.questions[s.index].followups;
      var wanted := Requested(j, s.attempts, Candidates(j, followups), last, plan.contract).action;
      NoSafeActionExactly(j, s.attempts, followups, last, plan.contract);
      if Decide(j, s.attempts, followups, last, plan.contract).Success? {
        DecisionIsAllowed(j, s.attempts, followups, last, plan.contract);
        WantedExactly(j, s.attempts, followups, last, plan.contract);
        var action := Decide(j, s.attempts, followups, last, plan.contract).value.verdict.action;
        assert action in plan.contract.Allowed() && MayFollow(plan, s, j, action);
      }
    }
  }

  /** An action that an answer so judged may lead to, as far as the session goes. */
  predicate MayFollow(plan: Plan, s: Session, j: Judgement, a: Action) {
    a == MoveOn || a == End
    || (a == GiveHint && OpenToHint(j, s.attempts, plan.contract))
    || (a == AskFollowup && s.attempts < plan.contract.MaxFollowups()
        && (OpenToHint(j, s.attempts, plan.contract) || OpenToFollowup(j, s.attempts, plan.contract)))
  }

  // ----- help -----

  /** The turn the session waits on, with the decision behind it. */
  ghost predicate WaitsOn(t: Session, id: string, action: Action) {
    t.status == Active && t.turns != []
    && var last := t.turns[|t.turns| - 1];
       last.Asked? && last.questionId == id && last.decision.Some? && last.decision.value.verdict.action == action
  }

  /** In any run, a first try judged unanswered is followed by a hint on the same question, where one is allowed. */
  lemma FirstTryGetsHint(plan: Plan, steps: seq<Step>, input: Submission)
    requires WellFormed(plan) && GiveHint in plan.contract.Allowed() && plan.contract.HintsAllowed()
    requires var s := After(plan, steps);
             s.status == Active && s.attempts == 0 && input.outcome.Judged? && !input.outcome.judgement.answered
    ensures var s, t := After(plan, steps), After(plan, steps + [Submit(input)]);
            s.asked != [] && WaitsOn(t, s.asked[|s.asked| - 1], GiveHint)
            && t.asked == s.asked && t.index == s.index && t.attempts == 1
  {
    var s := After(plan, steps);
    ReachableSessions(plan, steps);
    AfterOneMore(plan, steps, Submit(input));
    HintIsGiven(input.outcome.judgement, 0, plan.questions[s.index].followups, |s.asked| >= QuestionLimit(plan), plan.contract);
  }

  /** The session's last turn gives a hint. */
  predicate GaveHint(t: Session) {
    |t.turns| > 0
    && var last := t.turns[|t.turns| - 1];
       last.Asked? && last.decision.Some? && last.decision.value.verdict.action == GiveHint
  }

  /** A hint is on record only as the first help on a question, after a try judged unanswered. */
  lemma HintsComeFirst(plan: Plan, s: Session, input: Submission)
    requires SessionInv(plan, s) && Submitted(plan, s, input).Success? && input.outcome.Judged?
    requires GaveHint(Apply(plan, s, Submit(input)))
    ensures OpenToHint(input.outcome.judgement, s.attempts, plan.contract) && GiveHint in plan.contract.Allowed()
  {
    SubmissionSplit(plan, s, input);
    var j, followups, last := input.outcome.judgement, plan.questions[s.index].followups, |s.asked| >= QuestionLimit(plan);
    HintGiven(plan, s, input);
    DecisionIsAllowed(j, s.attempts, followups, last, plan.contract);
    HintIsGiven(j, s.attempts, followups, last, plan.contract);
  }

  lemma HintGiven(plan: Plan, s: Session, input: Submission)
    requires SessionInv(plan, s) && Submitted(plan, s, input).Success? && input.outcome.Judged?
    requires GaveHint(Apply(plan, s, Submit(input)))
    ensures s.index < |plan.questions|
    ensures var d := Decide(input.outcome.judgement, s.attempts, plan.questions[s.index].followups,
                            |s.asked| >= QuestionLimit(plan), plan.contract);
            d.Success? && d.value.verdict.action == GiveHint
  {
    SubmissionSplit(plan, s, input);
  }

  /** The texts a follow-up on the current question may use: the analysis's, or else the question's own. */
  function FollowupTexts(plan: Plan, s: Session, j: Judgement): seq<string>
    requires s.index < |plan.questions|
  {
    if |j.followups| > 0 then j.followups else plan.questions[s.index].followups
  }

  /** A weak answer with follow-ups left is followed by one on the same question, with the text of its number. */
  lemma WeakAnswerGetsFollowup(plan: Plan, s: Session, input: Submission)
    requires SessionInv(plan, s) && s.status == Active && input.outcome.Judged?
    requires OpenToFollowup(input.outcome.judgement, s.attempts, plan.contract)
    requires !OpenToHint(input.outcome.judgement, s.attempts, plan.contract)
    requires AskFollowup in plan.contract.Allowed()
    ensures var t := Apply(plan, s, Submit(input));
            s.asked != [] && WaitsOn(t, s.asked[|s.asked| - 1], AskFollowup)
            && t.asked == s.asked && t.index == s.index && t.attempts == s.attempts + 1
            && var texts := FollowupTexts(plan, s, input.outcome.judgement);
               t.turns[|t.turns| - 1].decision.value.verdict.followup ==
               if texts == [] then None
               else Some(if s.attempts < |texts| then texts[s.attempts] else texts[|texts| - 1])
  {
    var j, last, followups := input.outcome.judgement, |s.asked| >= QuestionLimit(plan), plan.questions[s.index].followups;
    NoSafeActionExactly(j, s.attempts, followups, last, plan.contract);
    WantedExactly(j, s.attempts, followups, last, plan.contract);
    TakenExactly(j, s.attempts, followups, last, plan.contract);
    FirstOfSubstitutes(AskFollowup, s.attempts, last, plan.contract);
    FollowupPutExactly(j, s.attempts, followups, last, plan.contract);
  }

  // ----- moving on -----

  /** What the adaptive selector looks at when the session moves on. */
  function Looked(plan: Plan, s: Session, k: Knowledge): Setting
    requires s.index < |plan.questions|
  {
    Setting(plan.questions, k, plan.selection, (set id | id in s.asked), plan.questions[s.index].id)
  }

  /** `q` is the question to ask next: the best eligible one, or in fixed order the following one within the limit. */
  ghost predicate ComesNext(plan: Plan, s: Session, k: Knowledge, q: Question)
    requires s.index < |plan.questions|
  {
    if plan.adaptive then IsBest(q, Looked(plan, s, k))
    else s.index + 1 < |plan.questions| && |s.asked| < QuestionLimit(plan) && q == plan.questions[s.index + 1]
  }

  lemma NextExactly(plan: Plan, s: Session, k: Knowledge)
    requires WellFormed(plan) && s.index < |plan.questions|
    ensures forall q :: NextQuestion(plan, s, s.asked, k) == Some(q) <==> ComesNext(plan, s, k, q)
  {
    SelectorIsExact(Looked(plan, s, k));
    assert AskedSet(s.asked) == (set id | id in s.asked);
  }

  /** `t` is `s` with the answer recorded and `q` put, on a fresh count of tries. */
  ghost predicate PutsNext(plan: Plan, s: Session, t: Session, q: Question) {
    t.status == Active && t.asked == s.asked + [q.id] && t.attempts == 0
    && t.index < |plan.questions| && plan.questions[t.index] == q
    && WaitsOn(t, q.id, MoveOn)
  }

  /** `t` is `s` with the answer recorded and the session closed with a decision to end. */
  ghost predicate Closes(s: Session, t: Session) {
    t.status == Completed && t.phase == Finished && t.asked == s.asked && t.index == s.index && t.attempts == s.attempts
    && t.turns != []
    && var last := t.turns[|t.turns| - 1];
       last.Closing? && s.asked != [] && last.questionId == s.asked[|s.asked| - 1]
       && last.decision.Some? && last.decision.value.verdict.action == End
  }

  /** Judging the answer leads the policy to move on. */
  predicate MovesOn(plan: Plan, s: Session, input: Submission) {
    s.status == Active && s.index < |plan.questions| && input.outcome.Judged?
    && var d := Decide(input.outcome.judgement, s.attempts, plan.questions[s.index].followups,
                       |s.asked| >= QuestionLimit(plan), plan.contract);
       d.Success? && d.value.verdict.action == MoveOn
  }

  lemma MovesToNext(plan: Plan, s: Session, input: Submission, q: Question)
    requires WellFormed(plan) && SessionInv(plan, s) && MovesOn(plan, s, input)
    requires NextQuestion(plan, s, s.asked, input.knowledge) == Some(q)
    ensures PutsNext(plan, s, Apply(plan, s, Submit(input)), q)
  {
    var r := Recorded(plan, s, input.content, input.outcome.evaluation);
    assert NextQuestion(plan, r, s.asked, input.knowledge) == NextQuestion(plan, s, s.asked, input.knowledge);
    NextIsMember(plan, s, s.asked, input.knowledge);
  }

  lemma MovesNowhere(plan: Plan, s: Session, input: Submission)
    requires SessionInv(plan, s) && MovesOn(plan, s, input) && NextQuestion(plan, s, s.asked, input.knowledge) == None
    ensures ClosesForNothing(s, Apply(plan, s, Submit(input)))
  {
    var r := Recorded(plan, s, input.content, input.outcome.evaluation);
    assert NextQuestion(plan, r, s.asked, input.knowledge) == NextQuestion(plan, s, s.asked, input.knowledge);
  }

  /** The session is closed because no question may be put. */
  ghost predicate ClosesForNothing(s: Session, t: Session) {
    Closes(s, t)
    && var d := t.turns[|t.turns| - 1].decision.value;
       d.requested == End && d.verdict.reason == "no_eligible_question"
  }

  /** The decision to move on puts the question that comes next, and closes the session exactly when none does. */
  lemma MovesOnExactly(plan: Plan, s: Session, input: Submission)
    requires WellFormed(plan) && SessionInv(plan, s) && MovesOn(plan, s, input)
    ensures var t := Apply(plan, s, Submit(input));
            (forall q :: ComesNext(plan, s, input.knowledge, q) ==> PutsNext(plan, s, t, q))
            && ((forall q :: !ComesNext(plan, s, input.knowledge, q)) ==> ClosesForNothing(s, t))
  {
    NextExactly(plan, s, input.knowledge);
    var next := NextQuestion(plan, s, s.asked, input.knowledge);
    if next.Some? {
      assert ComesNext(plan, s, input.knowledge, next.value);
      MovesToNext(plan, s, input, next.value);
    } else {
      MovesNowhere(plan, s, input);
    }
  }

  lemma EndsExactly(plan: Plan, s: Session, input: Submission)
    requires SessionInv(plan, s) && s.status == Active && input.outcome.Judged?
    requires var d := Decide(input.outcome.judgement, s.attempts, plan.questions[s.index].followups,
                             |s.asked| >= QuestionLimit(plan), plan.contract);
             d.Success? && d.value.verdict.action == End
    ensures Closes(s, Apply(plan, s, Submit(input)))
  {}

  // ----- mastery -----

  /** In any reachable session the mastery record of a question is its last answer's score, confidence and missing points. */
  lemma MasteryTold(plan: Plan, steps: seq<Step>, id: string)
    requires WellFormed(plan)
    ensures var s := After(plan, steps);
            var answers := AnswersTo(s.turns, id);
            (id in s.mastery <==> |answers| > 0)
            && (id in s.mastery ==>
                  var last := answers[|answers| - 1];
                  last.Answer? && s.mastery[id].score == last.evaluation.score
                  && s.mastery[id].confidence == last.evaluation.confidence
                  && s.mastery[id].missing == last.evaluation.missing)
  {
    ReachableTranscripts(plan, steps);
    assert AnswersInv(After(plan, steps).turns, After(plan, steps).mastery, id);
  }

  // ----- opening -----

  /** An adaptive session without a target opens with the best eligible question, or the first if none is eligible. */
  lemma OpensWithBest(plan: Plan, k: Knowledge)
    requires WellFormed(plan) && plan.adaptive && plan.target == "" && plan.questions != []
    ensures var s := Apply(plan, FRESH, Begin(k));
            var setting := Setting(plan.questions, k, plan.selection, {}, "");
            s.status == Active && s.index < |plan.questions| && s.asked == [plan.questions[s.index].id]
            && (forall q :: IsBest(q, setting) ==> plan.questions[s.index] == q)
            && ((forall q :: q in plan.questions ==> !Eligible(q, k, plan.selection, {})) ==> s.index == 0)
  {
    SelectorIsExact(Setting(plan.questions, k, plan.selection, {}, ""));
    FirstQuestionIsMember(plan, k);
    var q := FirstQuestion(plan, k);
    IndexIsPosition(plan.questions, 0);
    assert plan.questions[IndexOf(plan.questions, q)] == q;
  }

  // ----- from the model's reply -----

  /**
   What the policy reads of an analysis: the accepted reply's word on whether it was answered, its errors
   and follow-ups, and the coverage after all stages.
   */
  lemma JudgementTold(env: Surroundings, records: seq<Record>)
    requires Analyzed(env, records).Success?
    ensures var reply := if Normalized(env.first, records).Success? then env.first else env.corrected;
            Normalized(reply, records).Success?
            && var a, j := Analyzed(env, records).value, JudgementOf(Analyzed(env, records).value);
               j.answered == reply.answered && j.followups == reply.followups
               && j.errors == Normalized(reply, records).value.errors && j.coverage == a.coverage
  {
    var reply := if Normalized(env.first, records).Success? then env.first else env.corrected;
    var a := Normalized(reply, records).value;
    ReplyTold(reply, records, "");
    StagesKeep(a, env.open, env.adjudication, env.similarities);
  }

  /** Adjudication and the guard leave what the reply says of the answer, its errors and follow-ups alone. */
  lemma StagesKeep(a: Analysis, open: bool, reply: Option<seq<Decision>>, similarities: seq<real>)
    ensures var b := Guarded(Adjudicated(a, open, reply), similarities);
            b.answered == a.answered && b.followups == a.followups && b.errors == a.errors
  {}

  /** A reply that finds the question unanswered leads to a hint on the first try, where hints are allowed, however much it covers. */
  lemma UnansweredReplyGetsHint(env: Surroundings, records: seq<Record>, questionFollowups: seq<string>, last: bool, contract: Contract)
    requires Analyzed(env, records).Success? && GiveHint in contract.Allowed() && contract.HintsAllowed()
    requires var reply := if Normalized(env.first, records).Success? then env.first else env.corrected; !reply.answered
    ensures var d := Decide(JudgementOf(Analyzed(env, records).value), 0, questionFollowups, last, contract);
            d.Success? && d.value.verdict.action == GiveHint
  {
    JudgementTold(env, records);
    HintIsGiven(JudgementOf(Analyzed(env, records).value), 0, questionFollowups, last, contract);
  }
}
