/** Greedy selection meets the template's objective coverage over whole adaptive runs. */
module Coverage {
  import opened Numbers
  import opened Wrappers
  import opened Questions
  import opened Policy
  import opened Selector
  import opened Exam
  import opened Runs
  import opened Guarantees

  type Rules = seq<(string, int)>

  /** Questions still missing, summed over the objectives. */
  function Deficit(questions: seq<Question>, rules: Rules, asked: set<string>): nat {
    if rules == [] then 0
    else MaxInt(0, rules[0].1 - CountServing(questions, asked, rules[0].0)) + Deficit(questions, rules[1..], asked)
  }

  function Minimums(rules: Rules): nat {
    if rules == [] then 0 else MaxInt(0, rules[0].1) + Minimums(rules[1..])
  }

  lemma {:induction false} NothingAsked(questions: seq<Question>, objective: string)
    ensures CountServing(questions, {}, objective) == 0
  {
    if questions != [] { NothingAsked(questions[..|questions| - 1], objective); }
  }

  lemma {:induction false} DeficitAtStart(questions: seq<Question>, rules: Rules)
    ensures Deficit(questions, rules, {}) == Minimums(rules)
  {
    if rules != [] {
      NothingAsked(questions, rules[0].0);
      DeficitAtStart(questions, rules[1..]);
    }
  }

  lemma {:induction false} DeficitZero(questions: seq<Question>, rules: Rules, asked: set<string>)
    ensures Deficit(questions, rules, asked) == 0 <==>
            forall i :: 0 <= i < |rules| ==> !Unmet(questions, asked, rules[i])
  {
    if rules != [] {
      var rest := rules[1..];
      DeficitZero(questions, rest, asked);
      assert forall i :: 1 <= i < |rules| ==> rules[i] == rest[i - 1];
      assert forall i :: 0 <= i < |rest| ==> rest[i] == rules[i + 1];
    }
  }

  /** Asking one more question never raises the deficit, and lowers it if it serves an unmet objective. */
  lemma {:induction false} DeficitStep(questions: seq<Question>, rules: Rules, asked: set<string>, q: Question)
    requires DistinctIds(questions) && q in questions && q.id !in asked
    ensures Deficit(questions, rules, asked + {q.id}) <= Deficit(questions, rules, asked)
    ensures (exists i :: 0 <= i < |rules| && rules[i].0 in q.objectives && Unmet(questions, asked, rules[i])) ==>
              Deficit(questions, rules, asked + {q.id}) < Deficit(questions, rules, asked)
  {
    if rules != [] {
      CountGrows(questions, asked, q, rules[0].0);
      DeficitStep(questions, rules[1..], asked, q);
      if i :| 1 <= i < |rules| && rules[i].0 in q.objectives && Unmet(questions, asked, rules[i]) {
        assert rules[i] == rules[1..][i - 1];
      }
    }
  }

  /** While some eligible question serves an unmet objective, the selection lowers the deficit. */
  lemma GreedyStep(s: Setting, q: Question)
    requires DistinctIds(s.questions) && Selected(s).question == Some(q)
    requires exists o :: o in s.questions && Eligible(o, s.k, s.p, s.asked) && ServesUnmet(o, s.questions, s.p, s.asked)
    ensures q in s.questions && q.id !in s.asked
    ensures Deficit(s.questions, s.p.coverage, s.asked + {q.id}) < Deficit(s.questions, s.p.coverage, s.asked)
  {
    SelectorIsExact(s);
    assert IsBest(q, s);
    var o :| o in s.questions && Eligible(o, s.k, s.p, s.asked) && ServesUnmet(o, s.questions, s.p, s.asked);
    assert Scored(q, s).priority by {
      if q != o { assert Before(Scored(q, s), Scored(o, s)); }
    }
    DeficitStep(s.questions, s.p.coverage, s.asked, q);
  }

  // ----- premises -----

  /** The template asks for no more than the blueprint and the limit can give. */
  ghost predicate Achievable(plan: Plan) {
    Minimums(plan.selection.coverage) <= plan.questionLimit
    && forall i :: 0 <= i < |plan.selection.coverage| ==>
         plan.selection.coverage[i].1 <= CountAll(plan.questions, plan.selection.coverage[i].0)
  }

  /** Every question the coverage could need may be put, whatever was asked before. */
  ghost predicate Servable(plan: Plan, k: Knowledge) {
    forall q, i :: q in plan.questions && 0 <= i < |plan.selection.coverage|
      && plan.selection.coverage[i].0 in q.objectives && plan.selection.coverage[i].1 > 0
      ==> Suitable(q, k, plan.selection)
  }

  ghost predicate Greedy(plan: Plan) {
    WellFormed(plan) && plan.adaptive && plan.target == ""
    && MoveOn in plan.contract.Allowed() && End in plan.contract.Allowed()
    && Achievable(plan)
  }

  ghost predicate AlwaysServable(plan: Plan, steps: seq<Step>) {
    forall i :: 0 <= i < |steps| ==>
      Servable(plan, match steps[i] case Begin(k) => k case Submit(input) => input.knowledge)
  }

  function DeficitOf(plan: Plan, asked: seq<string>): nat {
    Deficit(plan.questions, plan.selection.coverage, AskedSet(asked))
  }

  /** The questions left under the limit suffice for what is still missing. */
  ghost predicate CoverageInv(plan: Plan, s: Session) {
    (s.status == Active && DeficitOf(plan, s.asked) > 0 ==> |s.asked| + DeficitOf(plan, s.asked) <= plan.questionLimit)
    && (s.status == Completed ==> DeficitOf(plan, s.asked) == 0)
  }

  /** As long as something is missing, an eligible question serves an unmet objective. */
  lemma MissingIsServable(plan: Plan, s: Setting)
    requires Greedy(plan) && Servable(plan, s.k) && s.questions == plan.questions && s.p == plan.selection
    requires Deficit(plan.questions, plan.selection.coverage, s.asked) > 0
    ensures exists q :: q in s.questions && Eligible(q, s.k, s.p, s.asked) && ServesUnmet(q, s.questions, s.p, s.asked)
  {
    var rules := plan.selection.coverage;
    DeficitZero(plan.questions, rules, s.asked);
    var i :| 0 <= i < |rules| && Unmet(plan.questions, s.asked, rules[i]);
    ServingQuestionLeft(plan.questions, s.asked, Ids(plan.questions), rules[i].0);
    var q :| q in plan.questions && q.id !in s.asked && rules[i].0 in q.objectives;
    assert Eligible(q, s.k, s.p, s.asked) && ServesUnmet(q, s.questions, s.p, s.asked);
  }

  lemma AskedSetGrows(asked: seq<string>, id: string)
    ensures AskedSet(asked + [id]) == AskedSet(asked) + {id}
  {}

  /** What a selection over `s` does to the deficit of a growing list of asked questions. */
  lemma SelectionPays(plan: Plan, s: Setting, asked: seq<string>)
    requires Greedy(plan) && Servable(plan, s.k) && s.questions == plan.questions && s.p == plan.selection
    requires s.asked == AskedSet(asked)
    ensures Selected(s).question.None? ==> DeficitOf(plan, asked) == 0
    ensures Selected(s).question.Some? ==>
              var next := asked + [Selected(s).question.value.id];
              (DeficitOf(plan, asked) == 0 ==> DeficitOf(plan, next) == 0)
              && (DeficitOf(plan, asked) > 0 ==> DeficitOf(plan, next) < DeficitOf(plan, asked))
  {
    SelectorIsExact(s);
    if DeficitOf(plan, asked) > 0 {
      MissingIsServable(plan, s);
    }
    if Selected(s).question.Some? {
      var q := Selected(s).question.value;
      assert IsBest(q, s);
      AskedSetGrows(asked, q.id);
      if DeficitOf(plan, asked) > 0 { GreedyStep(s, q); }
      DeficitStep(plan.questions, plan.selection.coverage, s.asked, q);
    }
  }

  lemma BeginCovers(plan: Plan, k: Knowledge)
    requires Greedy(plan) && Servable(plan, k)
    ensures CoverageInv(plan, Apply(plan, FRESH, Begin(k)))
  {
    var s := Setting(plan.questions, k, plan.selection, {}, "");
    assert AskedSet([]) == {};
    DeficitAtStart(plan.questions, plan.selection.coverage);
    SelectionPays(plan, s, []);
    if plan.questions != [] {
      var q := FirstQuestion(plan, k);
      FirstQuestionIsMember(plan, k);
      assert [] + [q.id] == [q.id];
      AskedSetGrows([], q.id);
      DeficitStep(plan.questions, plan.selection.coverage, {}, q);
    }
  }

  /** Something missing means that neither the limit nor the blueprint is used up. */
  lemma MissingIsBelowLimit(plan: Plan, s: Session)
    requires Greedy(plan) && Underway(plan, s) && s.status == Active && CoverageInv(plan, s)
    requires DeficitOf(plan, s.asked) > 0
    ensures |s.asked| < QuestionLimit(plan)
  {
    AskedWithinBlueprint(plan, s);
    if |s.asked| >= |plan.questions| {
      DeficitZero(plan.questions, plan.selection.coverage, Ids(plan.questions));
      assert false;
    }
  }

  lemma SubmitCovers(plan: Plan, s: Session, input: Submission)
    requires Greedy(plan) && Servable(plan, input.knowledge)
    requires SessionInv(plan, s) && CoverageInv(plan, s) && Submitted(plan, s, input).Success?
    ensures CoverageInv(plan, Apply(plan, s, Submit(input)))
  {
    SubmissionSplit(plan, s, input);
    var j := input.outcome.judgement;
    DecisionIsAllowed(j, s.attempts, plan.questions[s.index].followups, |s.asked| >= QuestionLimit(plan), plan.contract);
    if DeficitOf(plan, s.asked) > 0 {
      MissingIsBelowLimit(plan, s);
    }
    if Decision(plan, s, j).value.verdict.action == MoveOn {
      var setting := Setting(plan.questions, input.knowledge, plan.selection, AskedSet(s.asked), plan.questions[s.index].id);
      SelectionPays(plan, setting, s.asked);
      assert NextQuestion(plan, Recorded(plan, s, input.content, input.outcome.evaluation), s.asked, input.knowledge)
             == Selected(setting).question;
    }
  }

  lemma {:induction false} CoverageHolds(plan: Plan, steps: seq<Step>)
    requires Greedy(plan) && AlwaysServable(plan, steps)
    ensures CoverageInv(plan, After(plan, steps))
  {
    if steps != [] {
      var n := |steps| - 1;
      var s := After(plan, steps[..n]);
      CoverageHolds(plan, steps[..n]);
      ReachableSessions(plan, steps[..n]);
      if steps[n].Submit? && Submitted(plan, s, steps[n].input).Success? {
        assert Servable(plan, steps[n].input.knowledge);
        SubmitCovers(plan, s, steps[n].input);
      } else if steps[n].Begin? && s == FRESH {
        assert Servable(plan, steps[n].knowledge);
        BeginCovers(plan, steps[n].knowledge);
      }
    }
  }

  /**
   Every completed adaptive run that may move on and may end, with no target question and with the
   questions that serve objectives always eligible, has asked the minimum for every objective.
   */
  lemma CompletedRunsCover(plan: Plan, steps: seq<Step>, i: nat)
    requires Greedy(plan) && AlwaysServable(plan, steps)
    requires After(plan, steps).status == Completed && i < |plan.selection.coverage|
    ensures var rule := plan.selection.coverage[i];
            CountServing(plan.questions, AskedSet(After(plan, steps).asked), rule.0) >= rule.1
  {
    CoverageHolds(plan, steps);
    DeficitZero(plan.questions, plan.selection.coverage, AskedSet(After(plan, steps).asked));
  }
}
