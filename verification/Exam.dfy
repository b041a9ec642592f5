/**
 `orchestrator.py`: one text examination. The session starts with a question, takes answers, and
 after each either helps, moves to another question, or ends.
 */
module Exam {
  import opened Numbers
  import opened Wrappers
  import opened Questions
  import opened Policy
  import opened Selector

  datatype Status = Created | Ready | Active | Completed

  datatype Phase = Init | WaitingForAnswer | Analyzing | Finished

  /** Whether an answer was judged against the question itself or against a follow-up text. */
  datatype Context = Main | Followup

  datatype Evaluation = Evaluation(
    score: real, computed: real, confidence: real, missing: seq<string>, quote: string, objectives: seq<string>)

  datatype Mastery = Mastery(score: real, confidence: real, missing: seq<string>)

  function MasteryFrom(e: Evaluation): Mastery {
    Mastery(e.score, e.confidence, e.missing)
  }

  /** A stored turn. The opening question carries no decision. */
  datatype Turn =
    | Asked(questionId: string, decision: Option<Decided>)
    | Closing(questionId: string, decision: Option<Decided>)
    | Answer(questionId: string, content: string, context: Context, activeText: string, evaluation: Evaluation)

  /** What never changes during the session: the blueprint's questions and the session's settings. */
  datatype Plan = Plan(
    questions: seq<Question>,
    adaptive: bool,
    questionLimit: int,
    target: string,
    contract: Contract,
    selection: SelectionPolicy)

  datatype Session = Session(
    status: Status,
    phase: Phase,
    index: nat,
    attempts: nat,
    asked: seq<string>,
    mastery: map<string, Mastery>,
    turns: seq<Turn>)

  /** What the analyzer and the evaluator deliver for an answer; a governed call may be rejected. */
  datatype ModelOutcome = Judged(judgement: Judgement, evaluation: Evaluation) | Rejected(code: string) | Failed

  datatype Submission = Submission(content: string, outcome: ModelOutcome, knowledge: Knowledge)

  datatype ExamError = AlreadyStarted | NoQuestions | NotActive | NoSuchQuestion | NoAction | ModelRejected(code: string) | ModelFailed

  const FRESH := Session(Created, Init, 0, 0, [], map[], [])

  function QuestionLimit(plan: Plan): int {
    MinInt(plan.questionLimit, |plan.questions|)
  }

  function IndexOf(questions: seq<Question>, q: Question): (i: nat)
    requires q in questions
    ensures i < |questions| && questions[i] == q
  {
    if questions[0] == q then 0 else 1 + IndexOf(questions[1..], q)
  }

  function AskedSet(asked: seq<string>): set<string> {
    set id | id in asked
  }

  // ----- start -----

  function FirstQuestion(plan: Plan, k: Knowledge): Question
    requires plan.questions != []
  {
    var named := QuestionWithId(plan.questions, plan.target);
    var fixed := if named.Some? then named.value else plan.questions[0];
    if plan.adaptive && plan.target == "" then
      var chosen := Selected(Setting(plan.questions, k, plan.selection, {}, "")).question;
      if chosen.Some? then chosen.value else plan.questions[0]
    else fixed
  }

  lemma {:induction false} FoundIsMember(questions: seq<Question>, id: string)
    ensures QuestionWithId(questions, id).Some? ==>
              QuestionWithId(questions, id).value in questions && QuestionWithId(questions, id).value.id == id
  {
    if questions != [] && questions[0].id != id { FoundIsMember(questions[1..], id); }
  }

  lemma FirstQuestionIsMember(plan: Plan, k: Knowledge)
    requires plan.questions != []
    ensures FirstQuestion(plan, k) in plan.questions
  {
    FoundIsMember(plan.questions, plan.target);
    var s := Setting(plan.questions, k, plan.selection, {}, "");
    var cs := Selected(s).candidates;
    if cs != [] { FoundIsMember(plan.questions, cs[0].id); }
  }

  function Started(plan: Plan, s: Session, k: Knowledge): Result<Session, ExamError> {
    if s.status != Created && s.status != Ready then Failure(AlreadyStarted)
    else if plan.questions == [] then Failure(NoQuestions)
    else
      FirstQuestionIsMember(plan, k);
      var q := FirstQuestion(plan, k);
      Success(s.(status := Active, phase := WaitingForAnswer, index := IndexOf(plan.questions, q), attempts := 0,
                 asked := [q.id], turns := s.turns + [Asked(q.id, None)]))
  }

  // ----- reading the transcript -----

  function LatestQuestionTurn(turns: seq<Turn>): Option<Turn> {
    if turns == [] then None
    else if turns[|turns| - 1].Answer? then LatestQuestionTurn(turns[..|turns| - 1])
    else Some(turns[|turns| - 1])
  }

  /** The turn put a follow-up text to the learner. */
  predicate PutsFollowup(t: Turn) {
    !t.Answer? && t.decision.Some? && t.decision.value.verdict.action == AskFollowup
    && t.decision.value.verdict.followup.Some? && t.decision.value.verdict.followup.value != ""
  }

  /** The exact text the learner is answering. */
  function ActiveText(s: Session, q: Question): (Context, string) {
    var latest := LatestQuestionTurn(s.turns);
    if s.attempts == 0 || latest.None? || !PutsFollowup(latest.value) then (Main, q.text)
    else (Followup, latest.value.decision.value.verdict.followup.value)
  }

  datatype Assistance = Direct | AfterHint | AfterFollowup

  function LatestHelp(turns: seq<Turn>): Assistance {
    if turns == [] then AfterFollowup
    else
      var last := turns[|turns| - 1];
      if !last.Answer? && last.decision.Some? && last.decision.value.verdict.action == GiveHint then AfterHint
      else if !last.Answer? && last.decision.Some? && last.decision.value.verdict.action == AskFollowup then AfterFollowup
      else LatestHelp(turns[..|turns| - 1])
  }

  function AssistanceLevel(s: Session): Assistance {
    if s.attempts == 0 then Direct else LatestHelp(s.turns)
  }

  // ----- submit -----

  /** The next question once the policy moves on. */
  function NextQuestion(plan: Plan, s: Session, asked: seq<string>, k: Knowledge): Option<Question>
    requires s.index < |plan.questions|
  {
    if plan.adaptive then
      Selected(Setting(plan.questions, k, plan.selection, AskedSet(asked), plan.questions[s.index].id)).question
    else if s.index + 1 < |plan.questions| && |asked| < QuestionLimit(plan) then Some(plan.questions[s.index + 1])
    else None
  }

  lemma NextIsMember(plan: Plan, s: Session, asked: seq<string>, k: Knowledge)
    requires s.index < |plan.questions| && NextQuestion(plan, s, asked, k).Some?
    ensures NextQuestion(plan, s, asked, k).value in plan.questions
  {
    if plan.adaptive {
      var r := Selected(Setting(plan.questions, k, plan.selection, AskedSet(asked), plan.questions[s.index].id));
      FoundIsMember(plan.questions, r.candidates[0].id);
    }
  }

  const NOTHING_ELIGIBLE := Decided(Verdict(End, "no_eligible_question", None), End, Some(MoveOn))

  function AskedSoFar(s: Session, q: Question): seq<string> {
    if s.asked == [] then [q.id] else s.asked
  }

  /** The answer's turn and the mastery record, as written before the policy is consulted. */
  function Recorded(plan: Plan, s: Session, content: string, e: Evaluation): Session
    requires s.index < |plan.questions|
  {
    var q := plan.questions[s.index];
    var (context, text) := ActiveText(s, q);
    s.(phase := Analyzing, mastery := s.mastery[q.id := MasteryFrom(e)],
       turns := s.turns + [Answer(q.id, content, context, text, e)])
  }

  function Decision(plan: Plan, s: Session, j: Judgement): Result<Decided, PolicyError>
    requires s.index < |plan.questions|
  {
    var q := plan.questions[s.index];
    Decide(j, s.attempts, q.followups, |AskedSoFar(s, q)| >= QuestionLimit(plan), plan.contract)
  }

  /** The state after the decision has been carried out on the recorded answer. */
  function CarriedOut(plan: Plan, s: Session, d: Decided, k: Knowledge): Session
    requires s.index < |plan.questions|
  {
    var q := plan.questions[s.index];
    var asked := AskedSoFar(s, q);
    match d.verdict.action
    case AskFollowup =>
      s.(attempts := s.attempts + 1, phase := WaitingForAnswer, turns := s.turns + [Asked(q.id, Some(d))])
    case GiveHint =>
      s.(attempts := s.attempts + 1, phase := WaitingForAnswer, turns := s.turns + [Asked(q.id, Some(d))])
    case MoveOn =>
      (match NextQuestion(plan, s, asked, k)
       case Some(next) =>
         NextIsMember(plan, s, asked, k);
         s.(index := IndexOf(plan.questions, next), attempts := 0, phase := WaitingForAnswer,
            asked := asked + [next.id], turns := s.turns + [Asked(next.id, Some(d))])
       case None =>
         s.(status := Completed, phase := Finished, turns := s.turns + [Closing(q.id, Some(NOTHING_ELIGIBLE))]))
    case End =>
      s.(status := Completed, phase := Finished, turns := s.turns + [Closing(q.id, Some(d))])
    case OtherAction(_) =>
      s.(turns := s.turns + [Asked(q.id, Some(d))])
  }

  function Submitted(plan: Plan, s: Session, input: Submission): Result<Session, ExamError> {
    if s.status != Active then Failure(NotActive)
    else if s.index >= |plan.questions| then Failure(NoSuchQuestion)
    else match input.outcome
      case Rejected(code) => Failure(ModelRejected(code))
      case Failed => Failure(ModelFailed)
      case Judged(j, e) =>
        match Decision(plan, s, j)
        case Failure(_) => Failure(NoAction)
        case Success(d) => Success(CarriedOut(plan, Recorded(plan, s, input.content, e), d, input.knowledge))
  }

  /** What an aborted submission leaves in memory; the database keeps what was last committed. */
  function Aborted(plan: Plan, s: Session, input: Submission): Session {
    if s.status != Active || s.index >= |plan.questions| then s
    else match input.outcome
      case Judged(_, e) => Recorded(plan, s, input.content, e)
      case _ => s.(phase := Analyzing)
  }

  /** A session row with its turns, the way the database session holds it: working copy and committed copy. */
  class ExamSession {
    const plan: Plan
    var status: Status
    var phase: Phase
    var index: nat
    var attempts: nat
    var asked: seq<string>
    var mastery: map<string, Mastery>
    var turns: seq<Turn>
    var committed: Session

    constructor (plan: Plan)
      ensures this.plan == plan && View() == FRESH && committed == FRESH
    {
      this.plan := plan;
      status, phase, index, attempts := Created, Init, 0, 0;
      asked, mastery, turns := [], map[], [];
      committed := FRESH;
    }

    function View(): Session
      reads this
    {
      Session(status, phase, index, attempts, asked, mastery, turns)
    }

    method Commit()
      modifies `committed
      ensures committed == View()
    {
      committed := View();
    }

    method Rollback()
      modifies this
      ensures View() == committed == old(committed)
    {
      status, phase, index, attempts := committed.status, committed.phase, committed.index, committed.attempts;
      asked, mastery, turns := committed.asked, committed.mastery, committed.turns;
    }

    method Start(k: Knowledge) returns (error: Option<ExamError>)
      modifies this
      ensures match Started(plan, old(View()), k)
              case Failure(e) => error == Some(e) && View() == old(View()) && committed == old(committed)
              case Success(s) => error == None && View() == committed == s
    {
      if status != Created && status != Ready {
        return Some(AlreadyStarted);
      }
      if plan.questions == [] {
        return Some(NoQuestions);
      }
      var selected := plan.questions[0];
      if plan.adaptive && plan.target == "" {
        var selection := Select(Setting(plan.questions, k, plan.selection, {}, ""));
        if selection.question.Some? {
          selected := selection.question.value;
        }
      } else {
        var named := QuestionWithId(plan.questions, plan.target);
        if named.Some? {
          selected := named.value;
        }
      }
      FirstQuestionIsMember(plan, k);
      status, phase := Active, WaitingForAnswer;
      index, attempts := IndexOf(plan.questions, selected), 0;
      asked := [selected.id];
      turns := turns + [Asked(selected.id, None)];
      Commit();
      error := None;
    }

    method SubmitAnswer(input: Submission) returns (error: Option<ExamError>)
      modifies this
      ensures match Submitted(plan, old(View()), input)
              case Failure(e) =>
                error == Some(e) && View() == Aborted(plan, old(View()), input) && committed == old(committed)
              case Success(s) => error == None && View() == committed == s
    {
      if status != Active {
        return Some(NotActive);
      }
      if index >= |plan.questions| {
        return Some(NoSuchQuestion);
      }
      var question := plan.questions[index];
      var (context, text) := ActiveText(View(), question);
      phase := Analyzing;
      match input.outcome {
        case Rejected(code) => return Some(ModelRejected(code));
        case Failed => return Some(ModelFailed);
        case Judged(judgement, evaluation) =>
          turns := turns + [Answer(question.id, input.content, context, text, evaluation)];
          mastery := mastery[question.id := MasteryFrom(evaluation)];
          assert View() == Recorded(plan, old(View()), input.content, evaluation);
          var askedIds := if asked == [] then [question.id] else asked;
          var last := |askedIds| >= QuestionLimit(plan);
          var decided := Decide(judgement, attempts, question.followups, last, plan.contract);
          if decided.Failure? {
            return Some(NoAction);
          }
          Continue(decided.value, askedIds, input.knowledge);
          Commit();
          error := None;
      }
    }

    /** Carries out the decision on the recorded answer. */
    method Continue(decided: Decided, askedIds: seq<string>, k: Knowledge)
      requires index < |plan.questions| && askedIds == AskedSoFar(View(), plan.questions[index])
      modifies this
      ensures View() == CarriedOut(plan, old(View()), decided, k)
      ensures committed == old(committed)
    {
      var question := plan.questions[index];
      var decision := decided;
      var next := None;
      if decision.verdict.action == AskFollowup || decision.verdict.action == GiveHint {
        attempts := attempts + 1;
        phase := WaitingForAnswer;
      } else if decision.verdict.action == MoveOn {
        if plan.adaptive {
          var selection := Select(Setting(plan.questions, k, plan.selection, AskedSet(askedIds), question.id));
          next := selection.question;
        } else if index + 1 < |plan.questions| && |askedIds| < QuestionLimit(plan) {
          next := Some(plan.questions[index + 1]);
        }
        assert next == NextQuestion(plan, View(), askedIds, k);
        if next.Some? {
          NextIsMember(plan, View(), askedIds, k);
          index, attempts := IndexOf(plan.questions, next.value), 0;
          phase := WaitingForAnswer;
          asked := askedIds + [next.value.id];
        } else {
          decision := NOTHING_ELIGIBLE;
          status, phase := Completed, Finished;
        }
      } else if decision.verdict.action == End {
        status, phase := Completed, Finished;
      }
      var id := if next.Some? then next.value.id else question.id;
      turns := turns + [if decision.verdict.action == End then Closing(id, Some(decision)) else Asked(id, Some(decision))];
    }
  }
}
