/**
 How a session gets its conversation contract when it is created: from a template that passed
 validation, from defaults, or locked for an examination. And what that means for its runs.
 */
module Contracts {
  import opened Numbers
  import opened Wrappers
  import opened Questions
  import opened Policy
  import opened Selector
  import opened Exam
  import opened Runs
  import opened Guarantees

  // ----- templates -----

  /** What a template says about conversation and selection. */
  datatype Template = Template(
    allowedActions: seq<Action>,
    maxFollowups: int,
    hintsAllowed: bool,
    adaptive: bool,
    questionLimit: int,
    selection: SelectionPolicy)

  /** Values that replace the template's: its own override defaults, and what the caller asks for. */
  datatype Overrides = Overrides(
    maxFollowups: Option<int>,
    hintsAllowed: Option<bool>,
    adaptive: Option<bool>,
    questionLimit: Option<int>)

  const OTHER_ACTIONS: set<string> := {
    "ASK_FOR_REASON", "ASK_FOR_EVIDENCE", "ASK_FOR_EXAMPLE", "ASK_FOR_COUNTEREXAMPLE",
    "CHALLENGE", "CLARIFY", "CORRECT", "ANSWER_USER"}

  predicate KnownAction(a: Action) {
    a.OtherAction? ==> a.name in OTHER_ACTIONS
  }

  /** Everything else validation looks at is summed up in `soundOtherwise`. */
  predicate ValidTemplate(t: Template, soundOtherwise: bool) {
    soundOtherwise
    && t.allowedActions != []
    && (forall a :: a in t.allowedActions ==> KnownAction(a))
    && End in t.allowedActions
  }

  function OrDefault<T>(value: Option<T>, default: T): T {
    if value.Some? then value.value else default
  }

  function Overridden(t: Template, o: Overrides): Template {
    t.(maxFollowups := OrDefault(o.maxFollowups, t.maxFollowups),
       hintsAllowed := OrDefault(o.hintsAllowed, t.hintsAllowed),
       adaptive := OrDefault(o.adaptive, t.adaptive),
       questionLimit := OrDefault(o.questionLimit, t.questionLimit))
  }

  datatype CreationError = TemplateInvalid | OverrideRefused

  /** The template is validated each time a session is made from it; no override reaches the allowed actions. */
  function Compile(source: Source): Result<Template, CreationError> {
    if !ValidTemplate(source.template, source.soundOtherwise) then Failure(TemplateInvalid)
    else match source.requested
      case Failure(error) => Failure(error)
      case Success(o) => Success(Overridden(Overridden(source.template, source.defaults), o))
  }

  // ----- the conversation policy of a session -----

  datatype Conversation = Conversation(allowedActions: seq<Action>, maxFollowups: int, hintsAllowed: bool)

  /** `effective_conversation_policy`: the template's, or the defaults with the request's own settings. */
  function Effective(template: Option<Template>, maxFollowups: int, allowHints: bool): Conversation {
    match template
    case None => Conversation(DEFAULT_ACTIONS, maxFollowups, allowHints)
    case Some(t) =>
      Conversation(if t.allowedActions == [] then DEFAULT_ACTIONS else t.allowedActions, t.maxFollowups, t.hintsAllowed)
  }

  function WithoutAssistance(actions: seq<Action>): seq<Action> {
    if actions == [] then []
    else
      var front := WithoutAssistance(actions[..|actions| - 1]);
      var last := actions[|actions| - 1];
      if last == GiveHint || last == OtherAction("CORRECT") then front else front + [last]
  }

  /** `lock_conversation_policy`: no hints, no corrections, and always a way to end. */
  function Locked(c: Conversation): Conversation {
    var allowed := WithoutAssistance(c.allowedActions);
    Conversation(if End in allowed then allowed else allowed + [End], c.maxFollowups, false)
  }

  lemma {:induction false} AssistanceRemoved(actions: seq<Action>, a: Action)
    ensures a in WithoutAssistance(actions) <==> a in actions && a != GiveHint && a != OtherAction("CORRECT")
  {
    if actions != [] {
      AssistanceRemoved(actions[..|actions| - 1], a);
      assert actions == actions[..|actions| - 1] + [actions[|actions| - 1]];
    }
  }

  /** Locking takes away exactly hints and corrections, and adds nothing but the way to end. */
  lemma LockedActions(c: Conversation, a: Action)
    ensures a in Locked(c).allowedActions <==>
            a == End || (a in c.allowedActions && a != GiveHint && a != OtherAction("CORRECT"))
  {
    AssistanceRemoved(c.allowedActions, a);
    AssistanceRemoved(c.allowedActions, End);
  }

  // ----- creation -----

  /** A stored template version, and the overrides to compile it with; asking for some may be refused. */
  datatype Source = Source(
    template: Template,
    soundOtherwise: bool,
    defaults: Overrides,
    requested: Result<Overrides, CreationError>)

  /** What a caller asks for, with the template that applies, if any. */
  datatype Request = Request(
    questions: seq<Question>,
    source: Option<Source>,
    adaptive: bool,
    questionLimit: int,
    maxFollowups: int,
    allowHints: bool)

  /** The ways a session is created: a text session, a locked one for an examination, a voice session, a retest. */
  datatype Creation = TextSession(request: Request, examLock: bool)
    | VoiceSession(request: Request, qwen: bool)
    | Retest(questions: seq<Question>, target: string)

  const ANY_SELECTION := SelectionPolicy({}, [], 1, 5)

  function PlanFrom(r: Request, template: Option<Template>, c: Conversation, questionLimit: int): Plan {
    Plan(r.questions,
         if template.Some? then template.value.adaptive else r.adaptive,
         questionLimit, "",
         Contract(c.allowedActions, Some(c.maxFollowups), Some(c.hintsAllowed), Some(c.maxFollowups), Some(c.hintsAllowed)),
         if template.Some? then template.value.selection else ANY_SELECTION)
  }

  function Resolved(r: Request): Result<Option<Template>, CreationError> {
    match r.source
    case None => Success(None)
    case Some(source) =>
      match Compile(source)
      case Failure(error) => Failure(error)
      case Success(t) => Success(Some(t))
  }

  function Created(c: Creation): Result<Plan, CreationError> {
    match c
    case TextSession(r, examLock) =>
      (match Resolved(r)
       case Failure(error) => Failure(error)
       case Success(template) =>
         var effective := Effective(template, r.maxFollowups, r.allowHints);
         var limit := if template.Some? then template.value.questionLimit else r.questionLimit;
         Success(PlanFrom(r, template, if examLock then Locked(effective) else effective, limit)))
    case VoiceSession(r, qwen) =>
      (match Resolved(r)
       case Failure(error) => Failure(error)
       case Success(template) =>
         var followups := if qwen then MinInt(r.maxFollowups, 1) else r.maxFollowups;
         var limit := if template.Some? then template.value.questionLimit else r.questionLimit;
         Success(PlanFrom(r, template, Effective(template, followups, true), if qwen then MinInt(limit, 4) else limit)))
    case Retest(questions, target) =>
      Success(Plan(questions, false, 1, target, Contract([], None, None, Some(0), Some(false)), ANY_SELECTION))
  }

  /** A session is created exactly when there is no template, or one that allows END and is sound, with fitting overrides. */
  lemma CreatedExactly(r: Request, examLock: bool)
    ensures Created(TextSession(r, examLock)).Success? <==>
            (r.source.Some? ==>
               End in r.source.value.template.allowedActions
               && (forall a :: a in r.source.value.template.allowedActions ==> KnownAction(a))
               && r.source.value.soundOtherwise && r.source.value.requested.Success?)
  {
    if r.source.Some? && End in r.source.value.template.allowedActions {
      assert r.source.value.template.allowedActions != [];
    }
  }

  /** However a session is created, its contract lets the examiner end it. */
  lemma CreatedMayEnd(c: Creation)
    requires Created(c).Success?
    ensures End in Created(c).value.contract.Allowed() && LimitEnforced(Created(c).value)
  {
    if c.TextSession? && c.examLock {
      var effective := Effective(Resolved(c.request).value, c.request.maxFollowups, c.request.allowHints);
      LockedActions(effective, End);
    }
  }

  /** The value asked for, else the template's own override, else the template's. */
  function Chosen<T>(asked: Option<T>, default: Option<T>, template: T): T {
    match asked
    case Some(x) => x
    case None => match default case Some(x) => x case None => template
  }

  /** What a text session goes by: its template with the overrides, or the request; and locked, no hints. */
  lemma TextSettingsExactly(r: Request, examLock: bool)
    requires Created(TextSession(r, examLock)).Success?
    ensures var plan := Created(TextSession(r, examLock)).value;
            plan.questions == r.questions && plan.target == ""
            && (examLock ==> !plan.contract.HintsAllowed())
            && (r.source == None ==>
                  plan.selection == SelectionPolicy({}, [], 1, 5) && plan.adaptive == r.adaptive && plan.questionLimit == r.questionLimit
                  && plan.contract.MaxFollowups() == r.maxFollowups && (!examLock ==> plan.contract.HintsAllowed() == r.allowHints))
            && (r.source.Some? && r.source.value.requested.Success? ==>
                  var t, d, o := r.source.value.template, r.source.value.defaults, r.source.value.requested.value;
                  plan.adaptive == Chosen(o.adaptive, d.adaptive, t.adaptive)
                  && plan.questionLimit == Chosen(o.questionLimit, d.questionLimit, t.questionLimit)
                  && plan.contract.MaxFollowups() == Chosen(o.maxFollowups, d.maxFollowups, t.maxFollowups)
                  && (!examLock ==> plan.contract.HintsAllowed() == Chosen(o.hintsAllowed, d.hintsAllowed, t.hintsAllowed))
                  && plan.selection == t.selection)
  {}

  /** A voice session goes by its template, or by the request, with at most four questions where the provider asks for it. */
  lemma VoiceSettingsExactly(r: Request, qwen: bool)
    requires Created(VoiceSession(r, qwen)).Success?
    ensures var plan := Created(VoiceSession(r, qwen)).value;
            plan.questions == r.questions && plan.target == ""
            && (r.source == None ==>
                  plan.adaptive == r.adaptive && plan.contract.HintsAllowed()
                  && plan.contract.MaxFollowups() == (if qwen && r.maxFollowups > 1 then 1 else r.maxFollowups)
                  && plan.questionLimit == if qwen && r.questionLimit > 4 then 4 else r.questionLimit)
            && (r.source.Some? && r.source.value.requested.Success? ==>
                  var t, d, o := r.source.value.template, r.source.value.defaults, r.source.value.requested.value;
                  var limit := Chosen(o.questionLimit, d.questionLimit, t.questionLimit);
                  plan.adaptive == Chosen(o.adaptive, d.adaptive, t.adaptive)
                  && plan.contract.MaxFollowups() == Chosen(o.maxFollowups, d.maxFollowups, t.maxFollowups)
                  && plan.questionLimit == if qwen && limit > 4 then 4 else limit)
  {}

  /** An unlocked session allows what its template allows, and without one the four basic actions. */
  lemma TextActionsExactly(r: Request, a: Action)
    requires Created(TextSession(r, false)).Success?
    ensures a in Created(TextSession(r, false)).value.contract.Allowed() <==>
            if r.source.Some? then a in r.source.value.template.allowedActions else a in {AskFollowup, GiveHint, MoveOn, End}
  {}

  /** A retest asks its one target in fixed order, with neither hint nor follow-up. */
  lemma RetestSettingsExactly(questions: seq<Question>, target: string)
    ensures var plan := Created(Retest(questions, target)).value;
            !plan.adaptive && plan.questionLimit == 1 && plan.target == target && plan.questions == questions
            && plan.contract.MaxFollowups() == 0 && !plan.contract.HintsAllowed()
  {}

  // ----- what follows for runs of text sessions, locked ones, and retests -----

  /** The session is taken through the orchestrator's start and submit, which a voice session refuses. */
  predicate TakesTextAnswers(c: Creation) {
    !c.VoiceSession?
  }

  /** No run of a session of this kind that can be created asks more questions than its limit allows, or one. */
  lemma CreatedRunsKeepLimit(c: Creation, steps: seq<Step>)
    requires TakesTextAnswers(c) && Created(c).Success? && WellFormed(Created(c).value)
    ensures |After(Created(c).value, steps).asked| <= MaxInt(1, QuestionLimit(Created(c).value))
  {
    CreatedMayEnd(c);
    LimitKept(Created(c).value, steps);
  }

  /** In such a session every answer the model judges is accepted: the policy never runs out of actions. */
  lemma CreatedRunsNeverStick(c: Creation, steps: seq<Step>, input: Submission)
    requires TakesTextAnswers(c) && Created(c).Success? && WellFormed(Created(c).value)
    requires After(Created(c).value, steps).status == Active && input.outcome.Judged?
    ensures Submitted(Created(c).value, After(Created(c).value, steps), input).Success?
  {
    var plan := Created(c).value;
    var s := After(plan, steps);
    CreatedMayEnd(c);
    ReachableSessions(plan, steps);
    NoSafeActionExactly(input.outcome.judgement, s.attempts, plan.questions[s.index].followups,
                        |AskedSoFar(s, plan.questions[s.index])| >= QuestionLimit(plan), plan.contract);
  }

  /** Whatever the model says, enough answers for the questions within the limit complete such a session. */
  lemma CreatedRunsComplete(c: Creation, steps: seq<Step>)
    requires TakesTextAnswers(c) && Created(c).Success? && WellFormed(Created(c).value)
    ensures EndsWithinLimit(Created(c).value, After(Created(c).value, steps))
  {
    CreatedMayEnd(c);
    LimitBoundsAnswers(Created(c).value, steps);
  }

  /** A decision on record took an action the contract allows, or ended the session. */
  ghost predicate TakenFrom(allowed: seq<Action>, t: Turn) {
    !t.Answer? && t.decision.Some? ==> t.decision.value.verdict.action in allowed || t.decision.value.verdict.action == End
  }

  lemma SubmitTakesFrom(plan: Plan, s: Session, input: Submission)
    requires SessionInv(plan, s) && Submitted(plan, s, input).Success?
    requires forall t :: t in s.turns ==> TakenFrom(plan.contract.Allowed(), t)
    ensures forall t :: t in Apply(plan, s, Submit(input)).turns ==> TakenFrom(plan.contract.Allowed(), t)
  {
    SubmissionSplit(plan, s, input);
    DecisionIsAllowed(input.outcome.judgement, s.attempts, plan.questions[s.index].followups,
                      |s.asked| >= QuestionLimit(plan), plan.contract);
    var r := Recorded(plan, s, input.content, input.outcome.evaluation);
    var t := Apply(plan, s, Submit(input));
    assert t.turns == s.turns + [r.turns[|s.turns|]] + [t.turns[|r.turns|]];
    assert TakenFrom(plan.contract.Allowed(), t.turns[|r.turns|]);
  }

  lemma {:induction false} RunsTakeFrom(plan: Plan, steps: seq<Step>)
    requires WellFormed(plan)
    ensures forall t :: t in After(plan, steps).turns ==> TakenFrom(plan.contract.Allowed(), t)
  {
    if steps != [] {
      var n := |steps| - 1;
      var s := After(plan, steps[..n]);
      RunsTakeFrom(plan, steps[..n]);
      ReachableSessions(plan, steps[..n]);
      if steps[n].Submit? && Submitted(plan, s, steps[n].input).Success? {
        SubmitTakesFrom(plan, s, steps[n].input);
      }
    }
  }

  /** In a locked examination no hint is ever given, whatever the template allows and the model says. */
  lemma LockedRunsGiveNoHint(r: Request, steps: seq<Step>, t: Turn)
    requires Created(TextSession(r, true)).Success? && WellFormed(Created(TextSession(r, true)).value)
    requires t in After(Created(TextSession(r, true)).value, steps).turns && !t.Answer? && t.decision.Some?
    ensures t.decision.value.verdict.action != GiveHint
  {
    var plan := Created(TextSession(r, true)).value;
    RunsTakeFrom(plan, steps);
    assert TakenFrom(plan.contract.Allowed(), t);
    LockedActions(Effective(Resolved(r).value, r.maxFollowups, r.allowHints), GiveHint);
    CreatedMayEnd(TextSession(r, true));
  }
}
