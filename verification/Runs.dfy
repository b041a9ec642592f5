/** What holds in every state a text examination can reach. */
module Runs {
  import opened Wrappers
  import opened Questions
  import opened Policy
  import opened Selector
  import opened Exam
  import opened Transcript

  datatype Step = Begin(knowledge: Knowledge) | Submit(input: Submission)

  /** A refused or aborted request leaves the committed session as it was. */
  function Apply(plan: Plan, s: Session, step: Step): Session {
    var result := match step
      case Begin(k) => Started(plan, s, k)
      case Submit(input) => Submitted(plan, s, input);
    if result.Success? then result.value else s
  }

  /** The session after a series of requests with arbitrary answers, judgements and learner states. */
  function After(plan: Plan, steps: seq<Step>): Session {
    if steps == [] then FRESH
    else Apply(plan, After(plan, steps[..|steps| - 1]), steps[|steps| - 1])
  }

  ghost predicate WellFormed(plan: Plan) {
    DistinctIds(plan.questions) && forall q :: q in plan.questions ==> q.id != ""
  }

  ghost predicate Distinct(ids: seq<string>) {
    forall i, j :: 0 <= i < j < |ids| ==> ids[i] != ids[j]
  }

  ghost predicate IdOf(questions: seq<Question>, id: string) {
    exists q :: q in questions && q.id == id
  }

  /** Without adaptation the asked questions are a contiguous stretch of the blueprint. */
  ghost predicate WalksInOrder(plan: Plan, s: Session) {
    !plan.adaptive ==>
      |s.asked| <= s.index + 1 && s.index < |plan.questions|
      && forall j :: 0 <= j < |s.asked| ==> s.asked[j] == plan.questions[s.index + 1 - |s.asked| + j].id
  }

  ghost predicate Underway(plan: Plan, s: Session) {
    (s.status == Active || s.status == Completed)
    && s.asked != [] && Distinct(s.asked)
    && (forall id :: id in s.asked ==> IdOf(plan.questions, id))
    && s.index < |plan.questions| && plan.questions[s.index].id == s.asked[|s.asked| - 1]
    && s.attempts <= AttemptBound(plan.contract)
    && WalksInOrder(plan, s)
  }

  /** While the session waits, its last turn put the current question or helped with it. */
  ghost predicate Waits(s: Session) {
    s.phase == WaitingForAnswer && s.turns != [] && s.asked != []
    && var last := s.turns[|s.turns| - 1];
       last.Asked? && last.questionId == s.asked[|s.asked| - 1]
       && s.attempts == TrailingHelp(s.turns)
  }

  ghost predicate SessionInv(plan: Plan, s: Session) {
    s == FRESH
    || (Underway(plan, s) && (s.status == Active ==> Waits(s)) && (s.status == Completed ==> s.phase == Finished))
  }

  /** The asked questions that have an answer: all of them, but for a question just put. */
  function Settled(s: Session): seq<string> {
    if s.status == Active && s.attempts == 0 && s.asked != [] then s.asked[..|s.asked| - 1] else s.asked
  }

  /** What the answers to one question and the mastery record say of each other. */
  ghost predicate AnswerFacts(answers: seq<Turn>, followups: nat, mastery: map<string, Mastery>, id: string) {
    (id in mastery <==> answers != [])
    && (answers != [] ==>
          answers[0].Answer? && answers[0].context == Main
          && answers[|answers| - 1].Answer?
          && mastery[id] == MasteryFrom(answers[|answers| - 1].evaluation))
    && CountFollowups(answers) == followups
  }

  ghost predicate AnswersInv(turns: seq<Turn>, mastery: map<string, Mastery>, id: string) {
    AnswerFacts(AnswersTo(turns, id), AnswersToFollowups(turns, id), mastery, id)
  }

  ghost predicate AnswerBound(plan: Plan, s: Session) {
    var tries := 1 + AttemptBound(plan.contract);
    if s.status == Active then CountAnswers(s.turns) <= (|s.asked| - 1) * tries + s.attempts
    else CountAnswers(s.turns) <= |s.asked| * tries
  }

  /** The turn asks the follow-up `text` in so many words. */
  ghost predicate Puts(t: Turn, text: string) {
    t.Asked? && t.decision.Some? && t.decision.value.verdict.action == AskFollowup
    && t.decision.value.verdict.followup == Some(text) && |text| > 0
  }

  ghost predicate PutsSome(t: Turn) {
    exists text :: Puts(t, text)
  }

  /**
   An answer is on record against the very text it answers: the follow-up that the turn before it put,
   and if that turn put none, the text of the blueprint's question.
   */
  ghost predicate AnswersItsText(plan: Plan, turns: seq<Turn>, i: nat) {
    i < |turns| && turns[i].Answer? ==>
      i > 0
      && (turns[i].context == Followup ==> Puts(turns[i - 1], turns[i].activeText))
      && (turns[i].context == Main ==>
            !PutsSome(turns[i - 1])
            && exists q :: q in plan.questions && q.id == turns[i].questionId && q.text == turns[i].activeText)
  }

  ghost predicate TranscriptInv(plan: Plan, s: Session) {
    AnsweredIds(s.turns) == Settled(s)
    && (forall id :: AnswersInv(s.turns, s.mastery, id))
    && (forall i: nat :: AnswersItsText(plan, s.turns, i))
    && AnswerBound(plan, s)
  }

  // ----- one step -----

  /** A next question was never asked before. */
  lemma NextIsNew(plan: Plan, s: Session, k: Knowledge)
    requires WellFormed(plan) && Underway(plan, s)
    requires NextQuestion(plan, s, s.asked, k).Some?
    ensures NextQuestion(plan, s, s.asked, k).value in plan.questions
    ensures NextQuestion(plan, s, s.asked, k).value.id !in s.asked
  {
    NextIsMember(plan, s, s.asked, k);
    if plan.adaptive {
      var setting := Setting(plan.questions, k, plan.selection, AskedSet(s.asked), plan.questions[s.index].id);
      SelectorIsExact(setting);
      assert IsBest(NextQuestion(plan, s, s.asked, k).value, setting);
    }
  }

  lemma IndexIsPosition(questions: seq<Question>, i: nat)
    requires DistinctIds(questions) && i < |questions|
    ensures IndexOf(questions, questions[i]) == i
  {
    assert questions[IndexOf(questions, questions[i])].id == questions[i].id;
  }

  lemma BeginKeepsInv(plan: Plan, s: Session, k: Knowledge)
    requires WellFormed(plan) && SessionInv(plan, s)
    ensures SessionInv(plan, Apply(plan, s, Begin(k)))
  {
    if s == FRESH && plan.questions != [] {
      FirstQuestionIsMember(plan, k);
      var q := FirstQuestion(plan, k);
      FirstTurnInv(plan, q, Apply(plan, s, Begin(k)));
    }
  }

  lemma FirstTurnInv(plan: Plan, q: Question, t: Session)
    requires WellFormed(plan) && q in plan.questions
    requires t == Session(Active, WaitingForAnswer, IndexOf(plan.questions, q), 0, [q.id], map[], [Asked(q.id, None)])
    ensures SessionInv(plan, t)
  {
    assert IdOf(plan.questions, q.id);
    assert Underway(plan, t);
    FirstTurnWaits(t, q.id);
  }

  lemma FirstTurnWaits(t: Session, id: string)
    requires t.phase == WaitingForAnswer && t.attempts == 0 && t.asked == [id] && t.turns == [Asked(id, None)]
    ensures Waits(t)
  {
    ReadOneMore([], Asked(id, None));
    assert t.turns == [] + [Asked(id, None)];
  }

  /** The trailing help once an answer and the examiner's reply were added. */
  lemma HelpAfterReply(turns: seq<Turn>, answer: Turn, reply: Turn)
    requires answer.Answer? && !reply.Answer?
    ensures TrailingHelp(turns + [answer] + [reply]) == if Helps(reply) then TrailingHelp(turns) + 1 else 0
  {
    ReadOneMore(turns, answer);
    ReadOneMore(turns + [answer], reply);
  }

  lemma HelpKeepsInv(plan: Plan, s: Session, content: string, e: Evaluation, d: Decided, k: Knowledge)
    requires Underway(plan, s) && s.status == Active && Waits(s)
    requires d.verdict.action in {GiveHint, AskFollowup} && s.attempts < AttemptBound(plan.contract)
    ensures SessionInv(plan, CarriedOut(plan, Recorded(plan, s, content, e), d, k))
  {
    var r := Recorded(plan, s, content, e);
    HelpAfterReply(s.turns, r.turns[|s.turns|], Asked(plan.questions[s.index].id, Some(d)));
  }

  lemma DistinctGrows(ids: seq<string>, id: string)
    requires Distinct(ids) && id !in ids
    ensures Distinct(ids + [id])
  {}

  lemma WalkGrows(plan: Plan, s: Session, t: Session)
    requires WellFormed(plan) && !plan.adaptive && WalksInOrder(plan, s) && s.index + 1 < |plan.questions|
    requires t.asked == s.asked + [plan.questions[s.index + 1].id] && t.index == s.index + 1
    ensures WalksInOrder(plan, t)
  {
    forall j | 0 <= j < |t.asked| ensures t.asked[j] == plan.questions[t.index + 1 - |t.asked| + j].id {
      if j < |s.asked| { assert t.asked[j] == s.asked[j]; }
    }
  }

  /** Adding the next question to the asked ones. */
  lemma AskedGrows(plan: Plan, s: Session, next: Question, t: Session)
    requires WellFormed(plan) && Underway(plan, s)
    requires next in plan.questions && next.id !in s.asked
    requires !plan.adaptive ==> s.index + 1 < |plan.questions| && next == plan.questions[s.index + 1]
    requires t.status == Active && t.attempts == 0
    requires t.asked == s.asked + [next.id] && t.index == IndexOf(plan.questions, next)
    ensures Underway(plan, t)
  {
    DistinctGrows(s.asked, next.id);
    assert IdOf(plan.questions, next.id);
    if !plan.adaptive {
      IndexIsPosition(plan.questions, s.index + 1);
      WalkGrows(plan, s, t);
    }
  }

  lemma MoveToNext(plan: Plan, s: Session, content: string, e: Evaluation, d: Decided, k: Knowledge)
    requires WellFormed(plan) && Underway(plan, s) && s.status == Active && Waits(s)
    requires d.verdict.action == MoveOn && NextQuestion(plan, s, s.asked, k).Some?
    ensures SessionInv(plan, CarriedOut(plan, Recorded(plan, s, content, e), d, k))
  {
    var r := Recorded(plan, s, content, e);
    assert NextQuestion(plan, r, s.asked, k) == NextQuestion(plan, s, s.asked, k);
    var next := NextQuestion(plan, s, s.asked, k).value;
    NextIsNew(plan, s, k);
    AskedGrows(plan, s, next, CarriedOut(plan, r, d, k));
    HelpAfterReply(s.turns, r.turns[|s.turns|], Asked(next.id, Some(d)));
  }

  lemma MoveKeepsInv(plan: Plan, s: Session, content: string, e: Evaluation, d: Decided, k: Knowledge)
    requires WellFormed(plan) && Underway(plan, s) && s.status == Active && Waits(s)
    requires d.verdict.action == MoveOn
    ensures SessionInv(plan, CarriedOut(plan, Recorded(plan, s, content, e), d, k))
  {
    var r := Recorded(plan, s, content, e);
    assert NextQuestion(plan, r, s.asked, k) == NextQuestion(plan, s, s.asked, k);
    if NextQuestion(plan, s, s.asked, k).Some? { MoveToNext(plan, s, content, e, d, k); }
  }

  /** A submission that went through: the recorded answer and the decision carried out on it. */
  lemma SubmissionSplit(plan: Plan, s: Session, input: Submission)
    requires SessionInv(plan, s) && Submitted(plan, s, input).Success?
    ensures Underway(plan, s) && s.status == Active && Waits(s) && input.outcome.Judged?
    ensures var d := Decision(plan, s, input.outcome.judgement);
            d.Success? && !d.value.verdict.action.OtherAction?
            && (d.value.verdict.action in {GiveHint, AskFollowup} ==> s.attempts < AttemptBound(plan.contract))
            && Apply(plan, s, Submit(input)) ==
               CarriedOut(plan, Recorded(plan, s, input.content, input.outcome.evaluation), d.value, input.knowledge)
  {
    DecisionIsAllowed(input.outcome.judgement, s.attempts, plan.questions[s.index].followups,
                      |s.asked| >= QuestionLimit(plan), plan.contract);
  }

  lemma SubmitKeepsInv(plan: Plan, s: Session, input: Submission)
    requires WellFormed(plan) && SessionInv(plan, s)
    ensures SessionInv(plan, Apply(plan, s, Submit(input)))
  {
    if Submitted(plan, s, input).Success? {
      SubmissionSplit(plan, s, input);
      var d := Decision(plan, s, input.outcome.judgement).value;
      if d.verdict.action in {GiveHint, AskFollowup} {
        HelpKeepsInv(plan, s, input.content, input.outcome.evaluation, d, input.knowledge);
      } else if d.verdict.action == MoveOn {
        MoveKeepsInv(plan, s, input.content, input.outcome.evaluation, d, input.knowledge);
      }
    }
  }

  /** Every reachable session satisfies the invariant. */
  lemma {:induction false} ReachableSessions(plan: Plan, steps: seq<Step>)
    requires WellFormed(plan)
    ensures SessionInv(plan, After(plan, steps))
  {
    if steps != [] {
      var n := |steps| - 1;
      ReachableSessions(plan, steps[..n]);
      match steps[n]
      case Begin(k) => BeginKeepsInv(plan, After(plan, steps[..n]), k);
      case Submit(input) => SubmitKeepsInv(plan, After(plan, steps[..n]), input);
    }
  }

  // ----- the transcript -----

  /** The current question has been answered exactly when help was given on it. */
  lemma CurrentAnswered(plan: Plan, s: Session)
    requires Underway(plan, s) && s.status == Active && AnsweredIds(s.turns) == Settled(s)
    ensures s.asked[|s.asked| - 1] in AnsweredIds(s.turns) <==> s.attempts > 0
    ensures AnswersTo(s.turns, s.asked[|s.asked| - 1]) != [] <==> s.attempts > 0
  {
    AnsweredHaveAnswers(s.turns, s.asked[|s.asked| - 1]);
  }

  /** An answer is judged as a follow-up answer exactly when it follows a follow-up text. */
  lemma ContextIsHonest(plan: Plan, s: Session, q: Question)
    requires Underway(plan, s) && s.status == Active && Waits(s)
    ensures ActiveText(s, q).0 == Followup <==> PutsFollowup(s.turns[|s.turns| - 1])
    ensures ActiveText(s, q).0 == Followup ==> s.attempts > 0
  {}

  /** The answer turn that recording appends. */
  lemma RecordedTurn(plan: Plan, s: Session, content: string, e: Evaluation) returns (answer: Turn)
    requires Underway(plan, s) && s.status == Active && Waits(s)
    ensures var r := Recorded(plan, s, content, e);
            r == s.(phase := Analyzing, turns := s.turns + [answer],
                    mastery := s.mastery[answer.questionId := MasteryFrom(e)])
    ensures answer.Answer? && answer.questionId == s.asked[|s.asked| - 1] && answer.evaluation == e
    ensures answer.context == Followup <==> PutsFollowup(s.turns[|s.turns| - 1])
    ensures answer.context == Followup ==> s.attempts > 0
    ensures answer.context == Followup ==> Puts(s.turns[|s.turns| - 1], answer.activeText)
    ensures answer.context == Main ==> answer.activeText == plan.questions[s.index].text
  {
    ContextIsHonest(plan, s, plan.questions[s.index]);
    answer := Recorded(plan, s, content, e).turns[|s.turns|];
  }

  lemma OwnAnswerFacts(answers: seq<Turn>, followups: nat, mastery: map<string, Mastery>, answer: Turn)
    requires answer.Answer? && AnswerFacts(answers, followups, mastery, answer.questionId)
    requires answer.context == Followup ==> answers != []
    ensures AnswerFacts(answers + [answer], followups + (if answer.context == Followup then 1 else 0),
                        mastery[answer.questionId := MasteryFrom(answer.evaluation)], answer.questionId)
  {
    assert (answers + [answer])[..|answers|] == answers;
  }

  lemma AnswerKeepsAnswers(turns: seq<Turn>, mastery: map<string, Mastery>, answer: Turn, id: string)
    requires turns != [] && answer.Answer? && AnswersInv(turns, mastery, id)
    requires answer.context == Followup <==> PutsFollowup(turns[|turns| - 1])
    requires answer.context == Followup ==> AnswersTo(turns, answer.questionId) != []
    ensures AnswersInv(turns + [answer], mastery[answer.questionId := MasteryFrom(answer.evaluation)], id)
  {
    AnswersOneMore(turns, answer, id);
    if id == answer.questionId {
      OwnAnswerFacts(AnswersTo(turns, id), AnswersToFollowups(turns, id), mastery, answer);
    }
  }

  lemma ReplyKeepsAnswers(turns: seq<Turn>, mastery: map<string, Mastery>, reply: Turn, id: string)
    requires !reply.Answer? && AnswersInv(turns, mastery, id)
    ensures AnswersInv(turns + [reply], mastery, id)
  {
    AnswersOneMore(turns, reply, id);
  }

  lemma NothingAnswered(turn: Turn, id: string)
    requires !turn.Answer?
    ensures AnswersInv([turn], map[], id)
  {
    assert AnswersInv([], map[], id);
    ReplyKeepsAnswers([], map[], turn, id);
    assert [] + [turn] == [turn];
  }

  /** Recording an answer, and the reply behind it, keep every answer on record against its text. */
  lemma RecordKeepsTexts(plan: Plan, s: Session, content: string, e: Evaluation, reply: Turn)
    requires Underway(plan, s) && s.status == Active && Waits(s) && !reply.Answer?
    requires forall i: nat :: AnswersItsText(plan, s.turns, i)
    ensures forall i: nat :: AnswersItsText(plan, Recorded(plan, s, content, e).turns + [reply], i)
  {
    var answer := RecordedTurn(plan, s, content, e);
    var n := |s.turns|;
    var all := s.turns + [answer] + [reply];
    forall i: nat ensures AnswersItsText(plan, all, i) {
      assert AnswersItsText(plan, s.turns, i);
      if i == n {
        PutsAny(s.turns[n - 1]);
        assert plan.questions[s.index] in plan.questions;
      }
    }
  }

  lemma PutsAny(t: Turn)
    requires t.Asked?
    ensures PutsFollowup(t) <==> PutsSome(t)
  {
    if PutsFollowup(t) { assert Puts(t, t.decision.value.verdict.followup.value); }
  }

  lemma TriesStep(asked: nat, tries: nat)
    requires asked > 0
    ensures asked * tries == (asked - 1) * tries + tries
  {}

  lemma AnswerIds(turns: seq<Turn>, answer: Turn, asked: seq<string>, first: bool)
    requires answer.Answer? && asked != [] && answer.questionId == asked[|asked| - 1]
    requires AnsweredIds(turns) == (if first then asked[..|asked| - 1] else asked)
    requires answer.questionId in AnsweredIds(turns) <==> !first
    ensures AnsweredIds(turns + [answer]) == asked && CountAnswers(turns + [answer]) == CountAnswers(turns) + 1
  {
    ReadOneMore(turns, answer);
    assert asked == asked[..|asked| - 1] + [asked[|asked| - 1]];
  }

  lemma RecordedIds(plan: Plan, s: Session, content: string, e: Evaluation)
    requires Underway(plan, s) && s.status == Active && Waits(s) && AnsweredIds(s.turns) == Settled(s)
    ensures AnsweredIds(Recorded(plan, s, content, e).turns) == s.asked
    ensures CountAnswers(Recorded(plan, s, content, e).turns) == CountAnswers(s.turns) + 1
  {
    var answer := RecordedTurn(plan, s, content, e);
    CurrentAnswered(plan, s);
    AnswerIds(s.turns, answer, s.asked, s.attempts == 0);
  }

  /** What carrying out a decision does to the asked ids and the tries, seen from the reply it adds. */
  lemma ReplyShape(plan: Plan, r: Session, d: Decided, k: Knowledge)
    requires r.status == Active && r.asked != [] && r.index < |plan.questions| && !d.verdict.action.OtherAction?
    ensures var t := CarriedOut(plan, r, d, k);
            |t.turns| == |r.turns| + 1 && t.turns[..|r.turns|] == r.turns && !t.turns[|r.turns|].Answer?
            && t.mastery == r.mastery
            && Settled(t) == r.asked
            && (t.status == Active ==>
                  (t.attempts == r.attempts + 1 && t.asked == r.asked)
                  || (t.attempts == 0 && |t.asked| == |r.asked| + 1))
            && (t.status != Active ==> t.asked == r.asked)
  {}

  lemma RecordKeepsAnswers(plan: Plan, s: Session, content: string, e: Evaluation)
    requires Underway(plan, s) && s.status == Active && Waits(s) && TranscriptInv(plan, s)
    ensures var r := Recorded(plan, s, content, e);
            forall id :: AnswersInv(r.turns, r.mastery, id)
  {
    var answer := RecordedTurn(plan, s, content, e);
    CurrentAnswered(plan, s);
    var turns := s.turns + [answer];
    var mastery := s.mastery[answer.questionId := MasteryFrom(e)];
    forall id ensures AnswersInv(turns, mastery, id) {
      AnswerKeepsAnswers(s.turns, s.mastery, answer, id);
    }
  }

  lemma BoundGrows(plan: Plan, s: Session, t: Session)
    requires AnswerBound(plan, s) && s.status == Active && s.asked != [] && s.attempts <= AttemptBound(plan.contract)
    requires CountAnswers(t.turns) == CountAnswers(s.turns) + 1
    requires t.status == Active ==>
      (t.attempts == s.attempts + 1 && t.asked == s.asked) || (t.attempts == 0 && |t.asked| == |s.asked| + 1)
    requires t.status != Active ==> t.asked == s.asked
    ensures AnswerBound(plan, t)
  {
    TriesStep(|s.asked|, 1 + AttemptBound(plan.contract));
  }

  lemma SubmitKeepsTranscript(plan: Plan, s: Session, input: Submission)
    requires WellFormed(plan) && SessionInv(plan, s) && TranscriptInv(plan, s)
    requires Submitted(plan, s, input).Success?
    ensures TranscriptInv(plan, Apply(plan, s, Submit(input)))
  {
    SubmissionSplit(plan, s, input);
    var r := Recorded(plan, s, input.content, input.outcome.evaluation);
    var t := Apply(plan, s, Submit(input));
    RecordedIds(plan, s, input.content, input.outcome.evaluation);
    RecordKeepsAnswers(plan, s, input.content, input.outcome.evaluation);
    ReplyShape(plan, r, Decision(plan, s, input.outcome.judgement).value, input.knowledge);
    var reply := t.turns[|r.turns|];
    assert t.turns == r.turns + [reply];
    ReadOneMore(r.turns, reply);
    forall id ensures AnswersInv(t.turns, t.mastery, id) {
      ReplyKeepsAnswers(r.turns, r.mastery, reply, id);
    }
    RecordKeepsTexts(plan, s, input.content, input.outcome.evaluation, reply);
    BoundGrows(plan, s, t);
  }

  lemma FirstTurnTranscript(plan: Plan, t: Session, id: string)
    requires t.status == Active && t.asked == [id] && t.attempts == 0
    requires t.turns == [Asked(id, None)] && t.mastery == map[]
    ensures TranscriptInv(plan, t)
  {
    var turn := Asked(id, None);
    assert t.turns == [] + [turn];
    ReadOneMore([], turn);
    forall any ensures AnswersInv(t.turns, t.mastery, any) { NothingAnswered(turn, any); }
  }

  lemma NothingBegun(plan: Plan)
    ensures TranscriptInv(plan, FRESH)
  {}

  lemma BeginKeepsTranscript(plan: Plan, k: Knowledge)
    ensures TranscriptInv(plan, Apply(plan, FRESH, Begin(k)))
  {
    if plan.questions == [] {
      NothingBegun(plan);
    } else {
      FirstTurnTranscript(plan, Apply(plan, FRESH, Begin(k)), FirstQuestion(plan, k).id);
    }
  }

  /** Every reachable transcript satisfies the invariant. */
  lemma {:induction false} ReachableTranscripts(plan: Plan, steps: seq<Step>)
    requires WellFormed(plan)
    ensures TranscriptInv(plan, After(plan, steps))
  {
    if steps != [] {
      var n := |steps| - 1;
      var s := After(plan, steps[..n]);
      ReachableTranscripts(plan, steps[..n]);
      ReachableSessions(plan, steps[..n]);
      if steps[n].Submit? && Submitted(plan, s, steps[n].input).Success? {
        SubmitKeepsTranscript(plan, s, steps[n].input);
      } else if steps[n].Begin? && s == FRESH {
        BeginKeepsTranscript(plan, steps[n].knowledge);
      }
    }
  }
}
