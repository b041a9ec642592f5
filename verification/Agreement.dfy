/** The report of a run says what happened in the run. */
module Agreement {
  import opened Numbers
  import opened Exam
  import opened Transcript
  import opened Runs
  import opened Reporter
  import opened Scoring

  /** The trajectory tells the story of the answers to `id`: the first, the last, and those to follow-up texts. */
  ghost predicate Tells(t: Trajectory, s: Session, id: string) {
    var answers := AnswersTo(s.turns, id);
    t.questionId == id && answers != []
    && t.independent == answers[0] && t.final == answers[|answers| - 1]
    && t.independentScore == RoundTo(ComputedScore(answers[0]), 100)
    && t.finalScore == RoundTo(ComputedScore(answers[|answers| - 1]), 100)
    && t.gain == RoundTo(ComputedScore(answers[|answers| - 1]) - ComputedScore(answers[0]), 100)
    && t.followups == AnswersToFollowups(s.turns, id)
    && id in s.mastery && t.final.Answer? && s.mastery[id] == MasteryFrom(t.final.evaluation)
  }

  lemma TrajectoryTells(plan: Plan, s: Session, id: string)
    requires TranscriptInv(plan, s) && id in AnsweredIds(s.turns)
    ensures AnswersTo(s.turns, id) != []
    ensures Tells(TrajectoryOf(id, AnswersTo(s.turns, id)), s, id)
  {
    AnsweredHaveAnswers(s.turns, id);
    assert AnswersInv(s.turns, s.mastery, id);
  }

  /**
   For every reachable session the report has one trajectory per settled question, in asked order:
   its independent turn is the learner's first answer, its final turn the last, which is also the
   one on the mastery record, and it counts the answers given to follow-up texts.
   */
  lemma ReportTellsTheRun(plan: Plan, steps: seq<Step>, objectives: seq<Objective>, blend: bool)
    requires WellFormed(plan)
    ensures var s := After(plan, steps);
            var r := ReportOf(s.turns, plan.questions, objectives, blend);
            |r.trajectories| == |Settled(s)|
            && (forall i :: 0 <= i < |Settled(s)| ==> Tells(r.trajectories[i], s, Settled(s)[i]))
            && SumOfSizes(s.turns, Settled(s)) == r.evaluatedTurns
  {
    var s := After(plan, steps);
    ReachableTranscripts(plan, steps);
    var ts := Trajectories(s.turns);
    forall i | 0 <= i < |Settled(s)| ensures Tells(ts[i], s, Settled(s)[i]) {
      TrajectoryTells(plan, s, Settled(s)[i]);
    }
    EveryAnswerInOneTrajectory(s.turns);
  }

  /** For a completed run the settled questions are exactly the asked ones, each asked once. */
  lemma CompletedRunIsFullyReported(plan: Plan, steps: seq<Step>, objectives: seq<Objective>, blend: bool)
    requires WellFormed(plan) && After(plan, steps).status == Completed
    ensures var s := After(plan, steps);
            var r := ReportOf(s.turns, plan.questions, objectives, blend);
            Distinct(s.asked) && |r.trajectories| == |s.asked|
            && forall i :: 0 <= i < |s.asked| ==> Tells(r.trajectories[i], s, s.asked[i])
  {
    ReachableSessions(plan, steps);
    ReportTellsTheRun(plan, steps, objectives, blend);
    assert Settled(After(plan, steps)) == After(plan, steps).asked;
  }

  /**
   Without blending, the score selected for each settled question of any reachable session is its first
   answer's, in cents, however well it was answered after help.
   */
  lemma FirstAnswersScore(plan: Plan, steps: seq<Step>, objectives: seq<Objective>, i: nat)
    requires WellFormed(plan) && i < |Settled(After(plan, steps))|
    ensures var s := After(plan, steps);
            var r, answers := ReportOf(s.turns, plan.questions, objectives, false), AnswersTo(s.turns, Settled(s)[i]);
            i < |r.selected| && answers != [] && answers[0].Answer?
            && r.selected[i] == RoundTo(answers[0].evaluation.computed, 100)
  {
    var s := After(plan, steps);
    ReachableTranscripts(plan, steps);
    UnblendedExactly(s.turns, plan.questions, objectives, i);
    FirstIsIndependent(s, Settled(s)[i]);
  }

  lemma FirstIsIndependent(s: Session, id: string)
    requires AnswersInv(s.turns, s.mastery, id) && AnswersTo(s.turns, id) != []
    ensures IndependentOf(AnswersTo(s.turns, id)) == AnswersTo(s.turns, id)[0] && AnswersTo(s.turns, id)[0].Answer?
  {}
}
