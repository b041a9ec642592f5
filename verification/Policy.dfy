/**
 `policy.py`: which action the examiner takes after an answer, and what the conversation
 contract lets it do instead when the wanted action is not allowed.
 */
module Policy {
  import opened Numbers
  import opened Wrappers
  import opened Analyzer
  import Assessment

  datatype Action = AskFollowup | GiveHint | MoveOn | End | OtherAction(name: string)

  const DEFAULT_ACTIONS: seq<Action> := [AskFollowup, GiveHint, MoveOn, End]

  /** The session's conversation contract over the session's own settings; `None` is an absent key. */
  datatype Contract = Contract(
    allowedActions: seq<Action>,
    maxFollowups: Option<int>,
    hintsAllowed: Option<bool>,
    configMaxFollowups: Option<int>,
    configAllowHints: Option<bool>)
  {
    /** An empty list means the default actions. */
    function Allowed(): seq<Action> {
      if allowedActions == [] then DEFAULT_ACTIONS else allowedActions
    }

    function MaxFollowups(): int {
      if maxFollowups.Some? then maxFollowups.value
      else if configMaxFollowups.Some? then configMaxFollowups.value
      else 2
    }

    function HintsAllowed(): bool {
      if hintsAllowed.Some? then hintsAllowed.value
      else if configAllowHints.Some? then configAllowHints.value
      else true
    }
  }

  datatype Verdict = Verdict(action: Action, reason: string, followup: Option<string>)

  datatype Decided = Decided(verdict: Verdict, requested: Action, fallback: Option<Action>)

  datatype PolicyError = NoSafeAction

  /** What the policy reads of an analysis. */
  datatype Judgement = Judgement(answered: bool, coverage: real, errors: seq<string>, followups: seq<string>)

  function JudgementOf(a: Analysis): Judgement {
    Judgement(a.answered, a.coverage, a.errors, a.followups)
  }

  /** The follow-up for the given attempt; the last candidate is asked again when they run out. */
  function CandidateFor(candidates: seq<string>, attempts: nat): Option<string> {
    if candidates == [] then None else Some(candidates[MinInt(attempts, |candidates| - 1)])
  }

  function Candidates(j: Judgement, questionFollowups: seq<string>): seq<string> {
    if j.followups != [] then j.followups else questionFollowups
  }

  function Requested(j: Judgement, attempts: nat, candidates: seq<string>, last: bool, contract: Contract): Verdict {
    if !j.answered && contract.HintsAllowed() && attempts == 0 then
      Verdict(GiveHint, "answer_insufficient", None)
    else if (j.coverage < 0.72 || j.errors != []) && attempts < contract.MaxFollowups() then
      Verdict(AskFollowup, "incomplete_or_problematic", CandidateFor(candidates, attempts))
    else if last then Verdict(End, "question_limit_reached", None)
    else Verdict(MoveOn, "sufficient_evidence", None)
  }

  function Authorize(requested: Verdict, last: bool, attempts: nat, candidates: seq<string>, contract: Contract)
    : Result<Decided, PolicyError>
  {
    var allowed := contract.Allowed();
    if requested.action in allowed then
      Success(Decided(requested, requested.action, None))
    else
      var fallback := Some(requested.action);
      if last && End in allowed then
        Success(Decided(Verdict(End, "authorized_terminal_fallback", None), requested.action, fallback))
      else if requested.action == GiveHint && AskFollowup in allowed && attempts < contract.MaxFollowups() then
        Success(Decided(Verdict(AskFollowup, "authorized_followup_fallback", CandidateFor(candidates, attempts)),
                        requested.action, fallback))
      else if MoveOn in allowed then
        Success(Decided(Verdict(MoveOn, "authorized_move_on_fallback", None), requested.action, fallback))
      else if End in allowed then
        Success(Decided(Verdict(End, "authorized_terminal_fallback", None), requested.action, fallback))
      else Failure(NoSafeAction)
  }

  function Decide(j: Judgement, attempts: nat, questionFollowups: seq<string>, last: bool, contract: Contract)
    : Result<Decided, PolicyError>
  {
    var candidates := Candidates(j, questionFollowups);
    Authorize(Requested(j, attempts, candidates, last, contract), last, attempts, candidates, contract)
  }

  // ----- properties -----

  /** Tries on one question after the first: the follow-up limit, or the one hint when that is zero. */
  function AttemptBound(contract: Contract): nat {
    MaxInt(1, contract.MaxFollowups())
  }

  /**
   Only allowed actions are taken; a question is prolonged only while tries are left; and no new
   question follows the last one if ending is allowed.
   */
  lemma DecisionIsAllowed(j: Judgement, attempts: nat, questionFollowups: seq<string>, last: bool, contract: Contract)
    requires Decide(j, attempts, questionFollowups, last, contract).Success?
    ensures var a := Decide(j, attempts, questionFollowups, last, contract).value.verdict.action;
            a in contract.Allowed() && !a.OtherAction?
            && (a == GiveHint ==> attempts == 0)
            && (a == AskFollowup ==> attempts < contract.MaxFollowups())
            && (a == AskFollowup || a == GiveHint ==> attempts < AttemptBound(contract))
            && (a == MoveOn && last ==> End !in contract.Allowed())
            && (a == End && !last ==> MoveOn !in contract.Allowed())
  {}

  /** The policy fails exactly when what it wants, moving on and ending are all disallowed. */
  lemma NoSafeActionExactly(j: Judgement, attempts: nat, questionFollowups: seq<string>, last: bool, contract: Contract)
    ensures var wanted := Requested(j, attempts, Candidates(j, questionFollowups), last, contract).action;
            var allowed := contract.Allowed();
            Decide(j, attempts, questionFollowups, last, contract).Failure? <==>
            wanted !in allowed && MoveOn !in allowed && End !in allowed
            && !(wanted == GiveHint && AskFollowup in allowed && attempts < contract.MaxFollowups())
  {}

  /** A first try that left the question unanswered, where hints are allowed. */
  predicate OpenToHint(j: Judgement, attempts: nat, contract: Contract) {
    !j.answered && attempts == 0 && contract.HintsAllowed()
  }

  /** An answer below the coverage bar, or with errors, while follow-ups are left. */
  predicate OpenToFollowup(j: Judgement, attempts: nat, contract: Contract) {
    (j.coverage < 0.72 || |j.errors| > 0) && attempts < contract.MaxFollowups()
  }

  /**
   What the examiner wants after an answer, from the answer alone: a hint exactly for an unanswered first
   try, else a follow-up exactly for a weak answer while some are left, else to end exactly at the last
   question, else to move on.
   */
  lemma WantedExactly(j: Judgement, attempts: nat, questionFollowups: seq<string>, last: bool, contract: Contract)
    requires Decide(j, attempts, questionFollowups, last, contract).Success?
    ensures var wanted := Decide(j, attempts, questionFollowups, last, contract).value.requested;
            (wanted == GiveHint <==> OpenToHint(j, attempts, contract))
            && (wanted == AskFollowup <==> OpenToFollowup(j, attempts, contract) && !OpenToHint(j, attempts, contract))
            && (wanted == End <==> last && !OpenToFollowup(j, attempts, contract) && !OpenToHint(j, attempts, contract))
            && (wanted == MoveOn <==> !last && !OpenToFollowup(j, attempts, contract) && !OpenToHint(j, attempts, contract))
  {}

  /** An unanswered first try gets its hint wherever the contract allows one, also when no follow-up is allowed. */
  lemma HintIsGiven(j: Judgement, attempts: nat, questionFollowups: seq<string>, last: bool, contract: Contract)
    requires GiveHint in contract.Allowed()
    ensures OpenToHint(j, attempts, contract) <==>
            Decide(j, attempts, questionFollowups, last, contract).Success?
            && Decide(j, attempts, questionFollowups, last, contract).value.verdict.action == GiveHint
  {}

  /** What may stand in for the wanted action, the best first. */
  function Substitutes(wanted: Action, attempts: nat, last: bool, contract: Contract): seq<Action> {
    [wanted] + EndInstead(last) + HelpInstead(wanted, attempts, contract) + [MoveOn, End]
  }

  function EndInstead(last: bool): seq<Action> {
    if last then [End] else []
  }

  function HelpInstead(wanted: Action, attempts: nat, contract: Contract): seq<Action> {
    if wanted == GiveHint && attempts < contract.MaxFollowups() then [AskFollowup] else []
  }

  function FirstAllowed(actions: seq<Action>, allowed: seq<Action>): Option<Action> {
    if actions == [] then None else if actions[0] in allowed then Some(actions[0]) else FirstAllowed(actions[1..], allowed)
  }

  lemma {:induction false} FirstAllowedOf(a: seq<Action>, b: seq<Action>, allowed: seq<Action>)
    ensures FirstAllowed(a + b, allowed) ==
            if FirstAllowed(a, allowed).Some? then FirstAllowed(a, allowed) else FirstAllowed(b, allowed)
  {
    if a == [] {
      assert a + b == b;
    } else {
      assert (a + b)[1..] == a[1..] + b;
      FirstAllowedOf(a[1..], b, allowed);
    }
  }

  lemma OneAllowed(a: Action, allowed: seq<Action>)
    ensures FirstAllowed([a], allowed) == if a in allowed then Some(a) else None
  {
    assert [a][1..] == [];
  }

  lemma LeavingAllowed(allowed: seq<Action>)
    ensures FirstAllowed([MoveOn, End], allowed) ==
            if MoveOn in allowed then Some(MoveOn) else if End in allowed then Some(End) else None
  {
    assert [MoveOn, End] == [MoveOn] + [End];
    FirstAllowedOf([MoveOn], [End], allowed);
    OneAllowed(MoveOn, allowed);
    OneAllowed(End, allowed);
  }

  lemma FirstOfSubstitutes(wanted: Action, attempts: nat, last: bool, contract: Contract)
    ensures var allowed := contract.Allowed();
            FirstAllowed(Substitutes(wanted, attempts, last, contract), allowed) ==
            if wanted in allowed then Some(wanted)
            else if last && End in allowed then Some(End)
            else if wanted == GiveHint && attempts < contract.MaxFollowups() && AskFollowup in allowed then Some(AskFollowup)
            else if MoveOn in allowed then Some(MoveOn)
            else if End in allowed then Some(End)
            else None
  {
    var allowed := contract.Allowed();
    var ends, helps := EndInstead(last), HelpInstead(wanted, attempts, contract);
    FirstAllowedOf([wanted] + ends + helps, [MoveOn, End], allowed);
    FirstAllowedOf([wanted] + ends, helps, allowed);
    FirstAllowedOf([wanted], ends, allowed);
    OneAllowed(wanted, allowed);
    OneAllowed(End, allowed);
    OneAllowed(AskFollowup, allowed);
    LeavingAllowed(allowed);
  }

  /** The action taken is the first substitute the contract allows, and the record says what it replaced. */
  lemma TakenExactly(j: Judgement, attempts: nat, questionFollowups: seq<string>, last: bool, contract: Contract)
    ensures var d := Decide(j, attempts, questionFollowups, last, contract);
            var wanted := Requested(j, attempts, Candidates(j, questionFollowups), last, contract).action;
            match FirstAllowed(Substitutes(wanted, attempts, last, contract), contract.Allowed())
            case None => d == Failure(NoSafeAction)
            case Some(action) =>
              d.Success? && d.value.verdict.action == action && d.value.requested == wanted
              && d.value.fallback == if wanted in contract.Allowed() then None else Some(wanted)
  {
    FirstOfSubstitutes(Requested(j, attempts, Candidates(j, questionFollowups), last, contract).action, attempts, last, contract);
  }

  /**
   The text put with a follow-up is the candidate of the same number as the try, of those the analysis
   names or else of the question's own; the last one is put again when they run out.
   */
  lemma FollowupPutExactly(j: Judgement, attempts: nat, questionFollowups: seq<string>, last: bool, contract: Contract)
    requires Decide(j, attempts, questionFollowups, last, contract).Success?
    ensures var v := Decide(j, attempts, questionFollowups, last, contract).value.verdict;
            var texts := if |j.followups| > 0 then j.followups else questionFollowups;
            (v.action != AskFollowup ==> v.followup == None)
            && (v.action == AskFollowup && texts == [] ==> v.followup == None)
            && (v.action == AskFollowup && attempts < |texts| ==> v.followup == Some(texts[attempts]))
            && (v.action == AskFollowup && 0 < |texts| <= attempts ==> v.followup == Some(texts[|texts| - 1]))
  {}

  /** The conversation contract comes before the session's own settings, and those before the defaults. */
  lemma SettingsExactly(c: Contract)
    ensures c.allowedActions != [] ==> c.Allowed() == c.allowedActions
    ensures c.allowedActions == [] ==> forall a :: a in c.Allowed() <==> a in {AskFollowup, GiveHint, MoveOn, End}
    ensures c.maxFollowups.Some? ==> c.MaxFollowups() == c.maxFollowups.value
    ensures c.maxFollowups.None? && c.configMaxFollowups.Some? ==> c.MaxFollowups() == c.configMaxFollowups.value
    ensures c.maxFollowups.None? && c.configMaxFollowups.None? ==> c.MaxFollowups() == 2
    ensures c.hintsAllowed.Some? ==> c.HintsAllowed() == c.hintsAllowed.value
    ensures c.hintsAllowed.None? && c.configAllowHints.Some? ==> c.HintsAllowed() == c.configAllowHints.value
    ensures c.hintsAllowed.None? && c.configAllowHints.None? ==> c.HintsAllowed()
  {}

  /**
   An answer below the coverage bar, or with errors, while follow-ups are left: the examiner wants to
   stay on the question, and leaves it exactly when the contract forbids the help it wants.
   */
  lemma WeakAnswerStays(j: Judgement, attempts: nat, questionFollowups: seq<string>, last: bool, contract: Contract)
    requires j.coverage < 0.72 || j.errors != []
    requires attempts < contract.MaxFollowups()
    requires Decide(j, attempts, questionFollowups, last, contract).Success?
    ensures var d := Decide(j, attempts, questionFollowups, last, contract).value;
            var allowed := contract.Allowed();
            (d.requested == GiveHint || d.requested == AskFollowup)
            && (d.verdict.action == MoveOn || d.verdict.action == End <==>
                d.requested !in allowed
                && (AskFollowup !in allowed || (last && End in allowed)))
  {}

  /**
   An answer over the bar without errors, that is not an unanswered first try open to a hint, gets no
   further help; it ends the session exactly when this was the last question or moving on is not allowed.
   */
  lemma StrongAnswerLeaves(j: Judgement, attempts: nat, questionFollowups: seq<string>, last: bool, contract: Contract)
    requires j.coverage >= 0.72 && j.errors == []
    requires j.answered || attempts > 0 || !contract.HintsAllowed()
    requires Decide(j, attempts, questionFollowups, last, contract).Success?
    ensures var action := Decide(j, attempts, questionFollowups, last, contract).value.verdict.action;
            (action == MoveOn || action == End)
            && (action == End <==> End in contract.Allowed() && (last || MoveOn !in contract.Allowed()))
  {}

  /**
   Off-topic answers never pass: whenever the relevance guard capped the analysis, the policy wants a
   hint or a follow-up as long as follow-ups are left, and takes one if both are allowed.
   */
  lemma OffTopicNeverPasses(env: Surroundings, records: seq<Assessment.Record>, attempts: nat,
                            questionFollowups: seq<string>, last: bool, contract: Contract)
    requires Analyzed(env, records).Success? && Analyzed(env, records).value.scoreCap.Some?
    requires attempts < contract.MaxFollowups()
    ensures var a := Analyzed(env, records).value;
            a.coverage <= 0.5 && a.correctness != Assessment.Supported
            && Requested(JudgementOf(a), attempts, Candidates(JudgementOf(a), questionFollowups), last, contract).action
               in {GiveHint, AskFollowup}
            && (GiveHint in contract.Allowed() && AskFollowup in contract.Allowed() ==>
                  var d := Decide(JudgementOf(a), attempts, questionFollowups, last, contract);
                  d.Success? && d.value.verdict.action in {GiveHint, AskFollowup})
  {
    PipelineIsConsistent(env, records);
  }
}
