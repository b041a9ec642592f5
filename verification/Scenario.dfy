/** From a template's plan to covered runs: the planner's promise is what the selector needs. */
module Scenario {
  import opened Questions
  import opened Policy
  import opened Selector
  import opened Exam
  import opened Runs
  import opened Coverage
  import Planner

  /** The session examines the planned blueprint under the template it was planned for. */
  ghost predicate Examines(plan: Plan, t: Planner.Template, b: Planner.Blueprint) {
    plan.questions == b.questions
    && plan.selection.allowedTypes == t.allowedTypes && plan.selection.coverage == t.coverage
    && plan.selection.minimum == t.minimum && plan.selection.maximum == t.maximum
  }

  /** Every question is linked to knowledge units, none of which waits for a prerequisite. */
  ghost predicate Open(plan: Plan, k: Knowledge) {
    forall q :: q in plan.questions ==>
      LinkedUnits(k, Linked(k, q.id)) != [] && !Blocked(k, LinkedUnits(k, Linked(k, q.id)))
  }

  /**
   A blueprint planned with coverage met, examined adaptively with a limit for all the minimums and
   with no prerequisite in the way: every completed run has asked the minimum for every objective.
   */
  lemma PlannedRunsCover(plan: Plan, t: Planner.Template, b: Planner.Blueprint, steps: seq<Step>, i: nat)
    requires Planner.MeetsContract(t, b) && b.status.value == Planner.Met && 1 <= t.minimum && t.maximum <= 5
    requires Examines(plan, t, b) && WellFormed(plan) && plan.adaptive && plan.target == ""
    requires MoveOn in plan.contract.Allowed() && End in plan.contract.Allowed()
    requires Minimums(t.coverage) <= plan.questionLimit
    requires forall j :: 0 <= j < |steps| ==>
      Open(plan, match steps[j] case Begin(k) => k case Submit(input) => input.knowledge)
    requires After(plan, steps).status == Completed && i < |t.coverage|
    ensures CountServing(plan.questions, AskedSet(After(plan, steps).asked), t.coverage[i].0) >= t.coverage[i].1
  {
    forall j | 0 <= j < |steps|
      ensures Servable(plan, match steps[j] case Begin(k) => k case Submit(input) => input.knowledge)
    {
      var k := match steps[j] case Begin(k) => k case Submit(input) => input.knowledge;
      forall q | q in plan.questions ensures Suitable(q, k, plan.selection) {
        Planner.PlannedPassesFilters(t, b, plan.selection, k, q);
      }
    }
    CompletedRunsCover(plan, steps, i);
  }
}
