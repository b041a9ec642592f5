/** `reporter.py`: reading a finished run back from its flat list of turns, and the scores. */
module Reporter {
  import opened Numbers
  import opened Wrappers
  import opened Questions
  import opened Exam
  import opened Transcript

  /** What the report says about one question. */
  datatype Trajectory = Trajectory(
    questionId: string,
    independent: Turn,
    final: Turn,
    independentScore: real,
    finalScore: real,
    followups: nat,
    gain: real)

  /** A template objective and the evidence it requires. */
  datatype Objective = Objective(id: string, weight: real, needsQuote: bool, needsExcerpt: bool)

  datatype Evidence = Evidence(questionId: string, score: real, quote: string, excerpt: string)

  datatype ObjectiveScore = ObjectiveScore(id: string, weight: real, score: Option<real>, evidence: nat)

  datatype Report = Report(
    trajectories: seq<Trajectory>,
    selected: seq<real>,
    evaluatedTurns: nat,
    objectives: seq<ObjectiveScore>,
    overall: real)

  // ----- averages -----

  function Average(values: seq<real>): real {
    if values == [] then 0.0 else RoundTo(Mean(values), 100)
  }

  function WeightedAverage(items: seq<Weighted>): real {
    if TotalWeight(items) <= 0.0 then 0.0 else RoundTo(WeightedSum(items) / TotalWeight(items), 10000)
  }

  /** The score of a question: the independent one, or 70 to 30 with the assisted one. */
  function AttemptScore(t: Trajectory, blend: bool): real {
    if blend then RoundTo(0.7 * t.independentScore + 0.3 * t.finalScore, 10000) else t.independentScore
  }

  // ----- trajectories -----

  function FirstMain(answers: seq<Turn>): Option<Turn> {
    if answers == [] then None
    else if answers[0].Answer? && answers[0].context == Main then Some(answers[0])
    else FirstMain(answers[1..])
  }

  /** The first answer judged on the question itself, if there is one. */
  function IndependentOf(answers: seq<Turn>): Turn
    requires answers != []
  {
    var main := FirstMain(answers);
    if main.Some? then main.value else answers[0]
  }

  function ComputedScore(t: Turn): real {
    if t.Answer? then t.evaluation.computed else 0.0
  }

  function TrajectoryOf(id: string, answers: seq<Turn>): Trajectory
    requires answers != []
  {
    var independent := IndependentOf(answers);
    var final := answers[|answers| - 1];
    Trajectory(id, independent, final,
               RoundTo(ComputedScore(independent), 100), RoundTo(ComputedScore(final), 100),
               CountFollowups(answers),
               RoundTo(ComputedScore(final) - ComputedScore(independent), 100))
  }

  function Trajectories(turns: seq<Turn>): seq<Trajectory> {
    var ids := AnsweredIds(turns);
    seq(|ids|, i requires 0 <= i < |ids| =>
      AnsweredHaveAnswers(turns, ids[i]); TrajectoryOf(ids[i], AnswersTo(turns, ids[i])))
  }

  function SelectedScores(trajectories: seq<Trajectory>, blend: bool): seq<real> {
    seq(|trajectories|, i requires 0 <= i < |trajectories| => AttemptScore(trajectories[i], blend))
  }

  // ----- objectives -----

  /** `question_map[id]`: the last question with the identifier. */
  function LastWithId(questions: seq<Question>, id: string): Option<Question> {
    if questions == [] then None
    else
      var last := questions[|questions| - 1];
      if last.id == id then Some(last) else LastWithId(questions[..|questions| - 1], id)
  }

  /** The objectives a question counts for: its own, else those stored with the evaluation. */
  function ObjectivesOf(questions: seq<Question>, t: Trajectory): seq<string> {
    var q := LastWithId(questions, t.questionId);
    if q.Some? && q.value.objectives != [] then q.value.objectives
    else if t.independent.Answer? then t.independent.evaluation.objectives
    else []
  }

  function EvidenceFrom(questions: seq<Question>, t: Trajectory, score: real): Evidence {
    var q := LastWithId(questions, t.questionId);
    Evidence(t.questionId, score, if t.independent.Answer? then t.independent.evaluation.quote else "",
             if q.Some? then q.value.excerpt else "")
  }

  function Repeat(e: Evidence, ids: seq<string>, objective: string): seq<Evidence> {
    if ids == [] then []
    else Repeat(e, ids[..|ids| - 1], objective) + if ids[|ids| - 1] == objective then [e] else []
  }

  /** Every question's evidence for an objective, in the order of the trajectories. */
  function EvidenceFor(questions: seq<Question>, ts: seq<Trajectory>, blend: bool, objective: string): seq<Evidence> {
    if ts == [] then []
    else
      var last := ts[|ts| - 1];
      EvidenceFor(questions, ts[..|ts| - 1], blend, objective)
      + Repeat(EvidenceFrom(questions, last, AttemptScore(last, blend)), ObjectivesOf(questions, last), objective)
  }

  predicate Counts(o: Objective, e: Evidence) {
    (o.needsQuote ==> e.quote != "") && (o.needsExcerpt ==> e.excerpt != "")
  }

  function CountedScores(o: Objective, evidence: seq<Evidence>): seq<real> {
    if evidence == [] then []
    else (if Counts(o, evidence[0]) then [evidence[0].score] else []) + CountedScores(o, evidence[1..])
  }

  function ScoreObjective(o: Objective, evidence: seq<Evidence>): ObjectiveScore {
    var values := CountedScores(o, evidence);
    ObjectiveScore(o.id, o.weight, if values == [] then None else Some(Average(values)), |values|)
  }

  function ScoreObjectives(objectives: seq<Objective>, questions: seq<Question>, ts: seq<Trajectory>, blend: bool)
    : seq<ObjectiveScore>
  {
    seq(|objectives|, i requires 0 <= i < |objectives| =>
      ScoreObjective(objectives[i], EvidenceFor(questions, ts, blend, objectives[i].id)))
  }

  function Assessed(scores: seq<ObjectiveScore>): seq<Weighted> {
    if scores == [] then []
    else (if scores[0].score.Some? then [Weighted(scores[0].score.value, scores[0].weight)] else []) + Assessed(scores[1..])
  }

  function Overall(scores: seq<ObjectiveScore>, selected: seq<real>): real {
    if Assessed(scores) != [] then WeightedAverage(Assessed(scores)) else Average(selected)
  }

  function ReportOf(turns: seq<Turn>, questions: seq<Question>, objectives: seq<Objective>, blend: bool): Report {
    var ts := Trajectories(turns);
    var selected := SelectedScores(ts, blend);
    var scores := ScoreObjectives(objectives, questions, ts, blend);
    Report(ts, selected, CountAnswers(turns), scores, Overall(scores, selected))
  }

  // ----- generate -----

  /** The loop that groups the evaluated turns by question, remembering the order of first answers. */
  method GroupAnswers(turns: seq<Turn>) returns (order: seq<string>, grouped: map<string, seq<Turn>>, evaluated: nat)
    ensures order == AnsweredIds(turns) && evaluated == CountAnswers(turns)
    ensures forall id :: id in grouped <==> id in order
    ensures forall id :: id in grouped ==> grouped[id] == AnswersTo(turns, id) && grouped[id] != []
  {
    order, grouped, evaluated := [], map[], 0;
    for i := 0 to |turns|
      invariant order == AnsweredIds(turns[..i]) && evaluated == CountAnswers(turns[..i])
      invariant forall id :: id in grouped <==> id in order
      invariant forall id :: id in grouped ==> grouped[id] == AnswersTo(turns[..i], id)
    {
      var turn := turns[i];
      assert turns[..i + 1] == turns[..i] + [turn];
      ReadOneMore(turns[..i], turn);
      forall id ensures AnswersTo(turns[..i] + [turn], id) ==
        if turn.Answer? && turn.questionId == id then AnswersTo(turns[..i], id) + [turn] else AnswersTo(turns[..i], id)
      {
        AnswersOneMore(turns[..i], turn, id);
      }
      if turn.Answer? {
        evaluated := evaluated + 1;
        var id := turn.questionId;
        if id !in grouped {
          AnsweredHaveAnswers(turns[..i], id);
          order := order + [id];
          grouped := grouped[id := [turn]];
        } else {
          grouped := grouped[id := grouped[id] + [turn]];
        }
      }
    }
    assert turns[..|turns|] == turns;
    forall id | id in grouped ensures AnswersTo(turns, id) != [] { AnsweredHaveAnswers(turns, id); }
  }

  function Filed(filed: map<string, seq<Evidence>>, objective: string): seq<Evidence> {
    if objective in filed then filed[objective] else []
  }

  /** Filing `e` under `ids` on top of `filed` gives `result`, as far as objective `o` is concerned. */
  ghost predicate FiledUnder(result: map<string, seq<Evidence>>, filed: map<string, seq<Evidence>>, e: Evidence,
                             ids: seq<string>, o: string)
  {
    Filed(result, o) == Filed(filed, o) + Repeat(e, ids, o)
  }

  lemma FileOneMore(before: map<string, seq<Evidence>>, filed: map<string, seq<Evidence>>, e: Evidence,
                    ids: seq<string>, id: string, o: string)
    requires FiledUnder(before, filed, e, ids, o)
    ensures FiledUnder(before[id := Filed(before, id) + [e]], filed, e, ids + [id], o)
  {
    assert (ids + [id])[..|ids|] == ids;
    var more := if id == o then [e] else [];
    assert Repeat(e, ids + [id], o) == Repeat(e, ids, o) + more;
    assert Filed(before[id := Filed(before, id) + [e]], o) == Filed(before, o) + more;
  }

  /** One question's evidence is filed under each of its objectives. */
  method FileEvidence(filed: map<string, seq<Evidence>>, e: Evidence, ids: seq<string>)
    returns (result: map<string, seq<Evidence>>)
    ensures forall o :: FiledUnder(result, filed, e, ids, o)
  {
    result := filed;
    for i := 0 to |ids|
      invariant forall o :: FiledUnder(result, filed, e, ids[..i], o)
    {
      ghost var before := result;
      result := result[ids[i] := Filed(result, ids[i]) + [e]];
      assert ids[..i + 1] == ids[..i] + [ids[i]];
      forall o ensures FiledUnder(result, filed, e, ids[..i] + [ids[i]], o) {
        FileOneMore(before, filed, e, ids[..i], ids[i], o);
      }
    }
    assert ids[..|ids|] == ids;
  }

  /** The loop over the trajectories that collects the evidence of every objective. */
  method FileAll(questions: seq<Question>, ts: seq<Trajectory>, blend: bool)
    returns (filed: map<string, seq<Evidence>>)
    ensures forall o :: Filed(filed, o) == EvidenceFor(questions, ts, blend, o)
  {
    filed := map[];
    for i := 0 to |ts|
      invariant forall o :: Filed(filed, o) == EvidenceFor(questions, ts[..i], blend, o)
    {
      assert ts[..i + 1][..i] == ts[..i];
      ghost var before := filed;
      var e := EvidenceFrom(questions, ts[i], AttemptScore(ts[i], blend));
      filed := FileEvidence(filed, e, ObjectivesOf(questions, ts[i]));
      forall o ensures Filed(filed, o) == EvidenceFor(questions, ts[..i + 1], blend, o) {
        assert FiledUnder(filed, before, e, ObjectivesOf(questions, ts[i]), o);
      }
    }
    assert ts[..|ts|] == ts;
  }

  method ScoreAll(objectives: seq<Objective>, filed: map<string, seq<Evidence>>) returns (scores: seq<ObjectiveScore>)
    ensures |scores| == |objectives|
    ensures forall j :: 0 <= j < |objectives| ==> scores[j] == ScoreObjective(objectives[j], Filed(filed, objectives[j].id))
  {
    scores := [];
    for i := 0 to |objectives|
      invariant |scores| == i
      invariant forall j :: 0 <= j < i ==> scores[j] == ScoreObjective(objectives[j], Filed(filed, objectives[j].id))
    {
      scores := scores + [ScoreObjective(objectives[i], Filed(filed, objectives[i].id))];
    }
  }

  method Generate(turns: seq<Turn>, questions: seq<Question>, objectives: seq<Objective>, blend: bool)
    returns (report: Report)
    ensures report == ReportOf(turns, questions, objectives, blend)
  {
    var order, grouped, evaluated := GroupAnswers(turns);
    var trajectories := seq(|order|, i requires 0 <= i < |order| => TrajectoryOf(order[i], grouped[order[i]]));
    assert trajectories == Trajectories(turns);
    var selected := SelectedScores(trajectories, blend);
    var filed := FileAll(questions, trajectories, blend);
    var scores := ScoreAll(objectives, filed);
    assert scores == ScoreObjectives(objectives, questions, trajectories, blend);
    report := Report(trajectories, selected, evaluated, scores, Overall(scores, selected));
  }

  // ----- score bounds -----

  lemma BlendBetween(t: Trajectory)
    requires OnGrid(t.independentScore, 100) && OnGrid(t.finalScore, 100)
    ensures MinReal(t.independentScore, t.finalScore) <= AttemptScore(t, true) <= MaxReal(t.independentScore, t.finalScore)
  {
    GridRefines(t.independentScore, 100, 100);
    GridRefines(t.finalScore, 100, 100);
    RoundBetween(MinReal(t.independentScore, t.finalScore), 0.7 * t.independentScore + 0.3 * t.finalScore,
                 MaxReal(t.independentScore, t.finalScore), 10000);
  }

  /** A blended score lies between the independent and the assisted score it blends. */
  lemma BlendedScoresBetween(turns: seq<Turn>, questions: seq<Question>, objectives: seq<Objective>, i: nat)
    requires i < |ReportOf(turns, questions, objectives, true).trajectories|
    ensures var r := ReportOf(turns, questions, objectives, true);
            var t := r.trajectories[i];
            MinReal(t.independentScore, t.finalScore) <= r.selected[i] <= MaxReal(t.independentScore, t.finalScore)
  {
    var t := Trajectories(turns)[i];
    RoundOnGrid(ComputedScore(t.independent), 100);
    RoundOnGrid(ComputedScore(t.final), 100);
    BlendBetween(t);
  }

  /** Averages are cents, so no later rounding can push a mean of them past them. */
  lemma AveragesAreCents(values: seq<real>)
    ensures OnGrid(Average(values), 100)
  {
    if values == [] { IntegersOnGrid(0, 100); } else { RoundOnGrid(Mean(values), 100); }
  }

  lemma {:induction false} AssessedItems(scores: seq<ObjectiveScore>)
    ensures forall w :: w in Assessed(scores) <==>
              exists i :: 0 <= i < |scores| && scores[i].score.Some? && w == Weighted(scores[i].score.value, scores[i].weight)
  {
    if scores != [] {
      var rest := scores[1..];
      AssessedItems(rest);
      forall w | w in Assessed(scores)
        ensures exists i :: 0 <= i < |scores| && scores[i].score.Some? && w == Weighted(scores[i].score.value, scores[i].weight)
      {
        if w in Assessed(rest) {
          var i :| 0 <= i < |rest| && rest[i].score.Some? && w == Weighted(rest[i].score.value, rest[i].weight);
          assert scores[i + 1] == rest[i];
        }
      }
      forall i | 0 <= i < |scores| && scores[i].score.Some?
        ensures Weighted(scores[i].score.value, scores[i].weight) in Assessed(scores)
      {
        if i > 0 { assert rest[i - 1] == scores[i]; }
      }
    }
  }

  lemma WeightedAverageExactly(scores: seq<ObjectiveScore>, lo: real, hi: real, assessed: nat)
    requires OnGrid(lo, 100) && OnGrid(hi, 100) && assessed < |scores| && scores[assessed].score.Some?
    requires forall i :: 0 <= i < |scores| && scores[i].score.Some? ==>
      scores[i].weight >= 0.0 && lo <= scores[i].score.value <= hi
    ensures Assessed(scores) != []
    ensures lo <= WeightedAverage(Assessed(scores)) <= hi <==>
            (exists i :: 0 <= i < |scores| && scores[i].score.Some? && scores[i].weight > 0.0) || lo <= 0.0 <= hi
  {
    var items := Assessed(scores);
    AssessedItems(scores);
    assert Weighted(scores[assessed].score.value, scores[assessed].weight) in items;
    WeightedAverageWithin(items, lo, hi);
    PositiveWeight(items);
    if w :| w in items && w.weight > 0.0 {
      assert exists i :: 0 <= i < |scores| && scores[i].score.Some? && scores[i].weight > 0.0;
    }
    if i :| 0 <= i < |scores| && scores[i].score.Some? && scores[i].weight > 0.0 {
      assert Weighted(scores[i].score.value, scores[i].weight) in items;
    }
  }

  /**
   An answered question counts for the objective: it is one of the question's objectives or, if it has
   none, of those judged with the independent answer; and the required quote and excerpt are there.
   */
  ghost predicate AnswerCounts(turns: seq<Turn>, questions: seq<Question>, o: Objective, id: string)
    requires AnswersTo(turns, id) != []
  {
    var answer, q := IndependentOf(AnswersTo(turns, id)), LastWithId(questions, id);
    answer.Answer?
    && o.id in (if q.Some? && q.value.objectives != [] then q.value.objectives else answer.evaluation.objectives)
    && (o.needsQuote ==> answer.evaluation.quote != "")
    && (o.needsExcerpt ==> q.Some? && q.value.excerpt != "")
  }

  /** Some answered question counts for the objective. */
  ghost predicate CountsFor(turns: seq<Turn>, questions: seq<Question>, o: Objective) {
    exists id :: id in AnsweredIds(turns) && AnswersTo(turns, id) != [] && AnswerCounts(turns, questions, o, id)
  }

  lemma {:induction false} CountedExactly(o: Objective, evidence: seq<Evidence>)
    ensures CountedScores(o, evidence) != [] <==> exists e :: e in evidence && Counts(o, e)
  {
    if evidence != [] {
      CountedExactly(o, evidence[1..]);
      assert evidence == [evidence[0]] + evidence[1..];
    }
  }

  /** The same of a trajectory. */
  ghost predicate TrajectoryCounts(questions: seq<Question>, t: Trajectory, o: Objective) {
    o.id in ObjectivesOf(questions, t) && Counts(o, EvidenceFrom(questions, t, 0.0))
  }

  lemma AnswerIsTrajectory(turns: seq<Turn>, questions: seq<Question>, o: Objective, id: string)
    requires AnswersTo(turns, id) != []
    ensures AnswerCounts(turns, questions, o, id) <==>
            TrajectoryCounts(questions, TrajectoryOf(id, AnswersTo(turns, id)), o)
  {
    AnsweredHaveAnswers(turns, id);
    FirstMainIsOne(AnswersTo(turns, id));
    assert IndependentOf(AnswersTo(turns, id)) in AnswersTo(turns, id);
  }

  lemma EvidenceIsTrajectory(questions: seq<Question>, ts: seq<Trajectory>, blend: bool, o: Objective)
    ensures CountedScores(o, EvidenceFor(questions, ts, blend, o.id)) != [] <==>
            exists i :: 0 <= i < |ts| && TrajectoryCounts(questions, ts[i], o)
  {
    var evidence := EvidenceFor(questions, ts, blend, o.id);
    CountedExactly(o, evidence);
    if e :| e in evidence && Counts(o, e) {
      EvidenceExactly(questions, ts, blend, o.id, e);
      var t :| t in ts && Evidences(questions, t, blend, o.id, e);
      assert TrajectoryCounts(questions, t, o);
    }
    if i :| 0 <= i < |ts| && TrajectoryCounts(questions, ts[i], o) {
      var e := EvidenceFrom(questions, ts[i], AttemptScore(ts[i], blend));
      EvidenceExactly(questions, ts, blend, o.id, e);
      assert ts[i] in ts && Evidences(questions, ts[i], blend, o.id, e);
    }
  }

  /** An objective is assessed exactly when some answered question counts for it. */
  lemma AssessedExactly(turns: seq<Turn>, questions: seq<Question>, blend: bool, o: Objective)
    ensures ScoreObjective(o, EvidenceFor(questions, Trajectories(turns), blend, o.id)).score.Some? <==>
            CountsFor(turns, questions, o)
  {
    var ids, ts := AnsweredIds(turns), Trajectories(turns);
    EvidenceIsTrajectory(questions, ts, blend, o);
    forall i | 0 <= i < |ids|
      ensures AnswersTo(turns, ids[i]) != []
      ensures TrajectoryCounts(questions, ts[i], o) <==> AnswerCounts(turns, questions, o, ids[i])
    {
      AnsweredHaveAnswers(turns, ids[i]);
      AnswerIsTrajectory(turns, questions, o, ids[i]);
    }
  }

  /** Some objective with weight has an answered question that counts for it. */
  ghost predicate SomeWeightCounts(turns: seq<Turn>, questions: seq<Question>, objectives: seq<Objective>) {
    exists i :: 0 <= i < |objectives| && objectives[i].weight > 0.0 && CountsFor(turns, questions, objectives[i])
  }

  lemma WeightAssessed(turns: seq<Turn>, questions: seq<Question>, objectives: seq<Objective>, blend: bool)
    ensures var scores := ReportOf(turns, questions, objectives, blend).objectives;
            (exists i :: 0 <= i < |scores| && scores[i].score.Some? && scores[i].weight > 0.0) <==>
            SomeWeightCounts(turns, questions, objectives)
  {
    var scores := ReportOf(turns, questions, objectives, blend).objectives;
    forall i | 0 <= i < |objectives|
      ensures scores[i].weight == objectives[i].weight
      ensures scores[i].score.Some? <==> CountsFor(turns, questions, objectives[i])
    {
      AssessedExactly(turns, questions, blend, objectives[i]);
    }
  }

  /**
   With non-negative weights, the overall score lies between the least and the greatest assessed
   objective score exactly when some objective with weight has an answered question that counts for it,
   or else when zero lies there.
   */
  lemma OverallWithinObjectives(turns: seq<Turn>, questions: seq<Question>, objectives: seq<Objective>, blend: bool,
                                low: nat, high: nat)
    requires var scores := ReportOf(turns, questions, objectives, blend).objectives;
             low < |scores| && high < |scores| && scores[low].score.Some? && scores[high].score.Some?
             && forall i :: 0 <= i < |scores| && scores[i].score.Some? ==>
                  scores[i].weight >= 0.0
                  && scores[low].score.value <= scores[i].score.value <= scores[high].score.value
    ensures var r := ReportOf(turns, questions, objectives, blend);
            var lo, hi := r.objectives[low].score.value, r.objectives[high].score.value;
            lo <= r.overall <= hi <==> SomeWeightCounts(turns, questions, objectives) || lo <= 0.0 <= hi
  {
    var scores := ReportOf(turns, questions, objectives, blend).objectives;
    var ts := Trajectories(turns);
    forall i | 0 <= i < |scores| && scores[i].score.Some? ensures OnGrid(scores[i].score.value, 100) {
      AveragesAreCents(CountedScores(objectives[i], EvidenceFor(questions, ts, blend, objectives[i].id)));
    }
    WeightedAverageExactly(scores, scores[low].score.value, scores[high].score.value, low);
    WeightAssessed(turns, questions, objectives, blend);
  }

  lemma {:induction false} PositiveWeight(items: seq<Weighted>)
    requires NonNegativeWeights(items)
    ensures TotalWeight(items) > 0.0 <==> exists w :: w in items && w.weight > 0.0
  {
    TotalWeightNonNegative(items);
    if items != [] {
      PositiveWeight(items[1..]);
      assert items == [items[0]] + items[1..];
    }
  }

  lemma WeightedAverageWithin(items: seq<Weighted>, lo: real, hi: real)
    requires forall w :: w in items ==> w.weight >= 0.0 && lo <= w.value <= hi
    requires OnGrid(lo, 100) && OnGrid(hi, 100)
    ensures NonNegativeWeights(items)
    ensures TotalWeight(items) > 0.0 ==> lo <= WeightedAverage(items) <= hi
  {
    assert ValuesWithin(items, lo, hi);
    if TotalWeight(items) > 0.0 {
      MeanWithin(items, lo, hi);
      GridRefines(lo, 100, 100);
      GridRefines(hi, 100, 100);
      RoundBetween(lo, WeightedSum(items) / TotalWeight(items), hi, 10000);
    }
  }

  // ----- evidence -----

  lemma {:induction false} RepeatedExactly(e: Evidence, ids: seq<string>, objective: string, x: Evidence)
    ensures x in Repeat(e, ids, objective) <==> x == e && objective in ids
  {
    if ids != [] {
      RepeatedExactly(e, ids[..|ids| - 1], objective, x);
      assert ids == ids[..|ids| - 1] + [ids[|ids| - 1]];
    }
  }

  /** `e` is the evidence of trajectory `t`, which counts for the objective. */
  ghost predicate Evidences(questions: seq<Question>, t: Trajectory, blend: bool, objective: string, e: Evidence) {
    objective in ObjectivesOf(questions, t) && e == EvidenceFrom(questions, t, AttemptScore(t, blend))
  }

  lemma EvidenceOneMore(questions: seq<Question>, ts: seq<Trajectory>, t: Trajectory, blend: bool, objective: string, e: Evidence)
    ensures e in EvidenceFor(questions, ts + [t], blend, objective) <==>
            e in EvidenceFor(questions, ts, blend, objective) || Evidences(questions, t, blend, objective, e)
  {
    var own := EvidenceFrom(questions, t, AttemptScore(t, blend));
    RepeatedExactly(own, ObjectivesOf(questions, t), objective, e);
    assert (ts + [t])[..|ts|] == ts;
    assert EvidenceFor(questions, ts + [t], blend, objective) ==
           EvidenceFor(questions, ts, blend, objective) + Repeat(own, ObjectivesOf(questions, t), objective);
  }

  ghost predicate SomeEvidences(questions: seq<Question>, ts: seq<Trajectory>, blend: bool, objective: string, e: Evidence) {
    exists t :: t in ts && Evidences(questions, t, blend, objective, e)
  }

  lemma SomeEvidencesOneMore(questions: seq<Question>, ts: seq<Trajectory>, t: Trajectory, blend: bool, objective: string, e: Evidence)
    ensures SomeEvidences(questions, ts + [t], blend, objective, e) <==>
            SomeEvidences(questions, ts, blend, objective, e) || Evidences(questions, t, blend, objective, e)
  {
    assert forall u :: u in ts + [t] <==> u in ts || u == t;
  }

  /** The evidence of an objective is exactly that of the questions that count for it, each with its own score. */
  lemma {:induction false} EvidenceExactly(questions: seq<Question>, ts: seq<Trajectory>, blend: bool, objective: string, e: Evidence)
    ensures e in EvidenceFor(questions, ts, blend, objective) <==> SomeEvidences(questions, ts, blend, objective, e)
  {
    if ts != [] {
      var n := |ts| - 1;
      EvidenceExactly(questions, ts[..n], blend, objective, e);
      EvidenceOneMore(questions, ts[..n], ts[n], blend, objective, e);
      SomeEvidencesOneMore(questions, ts[..n], ts[n], blend, objective, e);
      assert ts[..n] + [ts[n]] == ts;
    }
  }

  // ----- the scale -----

  ghost predicate OnScale(score: real, lo: real, hi: real) {
    lo <= score <= hi
  }

  lemma TrajectoryOnScale(id: string, answers: seq<Turn>, lo: real, hi: real, blend: bool)
    requires answers != [] && OnGrid(lo, 100) && OnGrid(hi, 100)
    requires forall t :: t in answers ==> OnScale(ComputedScore(t), lo, hi)
    ensures var t := TrajectoryOf(id, answers);
            OnScale(t.independentScore, lo, hi) && OnScale(t.finalScore, lo, hi) && OnScale(AttemptScore(t, blend), lo, hi)
  {
    var t := TrajectoryOf(id, answers);
    FirstMainIsOne(answers);
    RoundBetween(lo, ComputedScore(t.independent), hi, 100);
    RoundBetween(lo, ComputedScore(t.final), hi, 100);
    RoundOnGrid(ComputedScore(t.independent), 100);
    RoundOnGrid(ComputedScore(t.final), 100);
    BlendBetween(t);
  }

  lemma {:induction false} FirstMainIsOne(answers: seq<Turn>)
    ensures FirstMain(answers).Some? ==> FirstMain(answers).value in answers
  {
    if answers != [] { FirstMainIsOne(answers[1..]); }
  }

  lemma {:induction false} CountedOnes(o: Objective, evidence: seq<Evidence>, v: real)
    ensures v in CountedScores(o, evidence) ==> exists e :: e in evidence && Counts(o, e) && e.score == v
  {
    if evidence != [] {
      CountedOnes(o, evidence[1..], v);
      if v in CountedScores(o, evidence[1..]) {
        var e :| e in evidence[1..] && Counts(o, e) && e.score == v;
        assert e in evidence;
      } else if v in CountedScores(o, evidence) {
        assert evidence[0] in evidence;
      }
    }
  }

  lemma ObjectiveOnScale(o: Objective, evidence: seq<Evidence>, lo: real, hi: real)
    requires OnGrid(lo, 100) && OnGrid(hi, 100)
    requires forall e :: e in evidence ==> OnScale(e.score, lo, hi)
    ensures var s := ScoreObjective(o, evidence);
            s.score.Some? ==> OnScale(s.score.value, lo, hi)
  {
    var values := CountedScores(o, evidence);
    if values != [] {
      forall i | 0 <= i < |values| ensures lo <= values[i] <= hi {
        CountedOnes(o, evidence, values[i]);
      }
      AverageWithin(values, lo, hi);
      RoundBetween(lo, Mean(values), hi, 100);
    }
  }

  lemma SelectedOnScale(turns: seq<Turn>, lo: real, hi: real, blend: bool, i: nat)
    requires OnGrid(lo, 100) && OnGrid(hi, 100) && i < |Trajectories(turns)|
    requires forall t :: t in turns && t.Answer? ==> OnScale(t.evaluation.computed, lo, hi)
    ensures OnScale(AttemptScore(Trajectories(turns)[i], blend), lo, hi)
  {
    var id := AnsweredIds(turns)[i];
    AnsweredHaveAnswers(turns, id);
    AnswersAreTurns(turns, id);
    TrajectoryOnScale(id, AnswersTo(turns, id), lo, hi, blend);
  }

  lemma {:induction false} AnswersAreTurns(turns: seq<Turn>, id: string)
    ensures forall t :: t in AnswersTo(turns, id) ==> t in turns && t.Answer?
  {
    if turns != [] {
      AnswersAreTurns(turns[..|turns| - 1], id);
      assert turns == turns[..|turns| - 1] + [turns[|turns| - 1]];
    }
  }

  /**
   No averaging, blending or rounding leaves the scale: if every answer scores between two cent values,
   so do all selected scores and all objective scores.
   */
  lemma ReportStaysOnScale(turns: seq<Turn>, questions: seq<Question>, objectives: seq<Objective>, blend: bool,
                           lo: real, hi: real)
    requires OnGrid(lo, 100) && OnGrid(hi, 100)
    requires forall t :: t in turns && t.Answer? ==> OnScale(t.evaluation.computed, lo, hi)
    ensures var r := ReportOf(turns, questions, objectives, blend);
            (forall i :: 0 <= i < |r.selected| ==> OnScale(r.selected[i], lo, hi))
            && (forall i :: 0 <= i < |r.objectives| && r.objectives[i].score.Some? ==>
                  OnScale(r.objectives[i].score.value, lo, hi))
  {
    var ts := Trajectories(turns);
    var selected := SelectedScores(ts, blend);
    var scores := ScoreObjectives(objectives, questions, ts, blend);
    forall i | 0 <= i < |ts| ensures OnScale(AttemptScore(ts[i], blend), lo, hi) {
      SelectedOnScale(turns, lo, hi, blend, i);
    }
    forall i | 0 <= i < |scores| && scores[i].score.Some? ensures OnScale(scores[i].score.value, lo, hi) {
      var evidence := EvidenceFor(questions, ts, blend, objectives[i].id);
      forall e | e in evidence ensures OnScale(e.score, lo, hi) {
        EvidenceExactly(questions, ts, blend, objectives[i].id, e);
        var t :| t in ts && Evidences(questions, t, blend, objectives[i].id, e);
      }
      ObjectiveOnScale(objectives[i], evidence, lo, hi);
    }
  }

  /**
   There is something to average: an objective with weight for which an answered question counts or, if
   none counts for any, an answered question at all.
   */
  ghost predicate Weighs(turns: seq<Turn>, questions: seq<Question>, objectives: seq<Objective>) {
    if forall i :: 0 <= i < |objectives| ==> !CountsFor(turns, questions, objectives[i])
    then AnsweredIds(turns) != []
    else SomeWeightCounts(turns, questions, objectives)
  }

  /** The overall score stays on the scale exactly when something weighs, or the scale includes zero. */
  lemma OverallStaysOnScale(turns: seq<Turn>, questions: seq<Question>, objectives: seq<Objective>, blend: bool,
                            lo: real, hi: real)
    requires OnGrid(lo, 100) && OnGrid(hi, 100)
    requires forall t :: t in turns && t.Answer? ==> OnScale(t.evaluation.computed, lo, hi)
    requires forall o :: o in objectives ==> o.weight >= 0.0
    ensures OnScale(ReportOf(turns, questions, objectives, blend).overall, lo, hi) <==>
            Weighs(turns, questions, objectives) || OnScale(0.0, lo, hi)
  {
    var r := ReportOf(turns, questions, objectives, blend);
    ReportStaysOnScale(turns, questions, objectives, blend, lo, hi);
    WeightAssessed(turns, questions, objectives, blend);
    forall i | 0 <= i < |objectives| ensures r.objectives[i].score.Some? <==> CountsFor(turns, questions, objectives[i]) {
      AssessedExactly(turns, questions, blend, objectives[i]);
    }
    if i :| 0 <= i < |objectives| && CountsFor(turns, questions, objectives[i]) {
      WeightedAverageExactly(r.objectives, lo, hi, i);
    } else {
      NoneAssessed(r.objectives);
      AverageOnScale(r.selected, lo, hi);
    }
  }

  lemma {:induction false} NoneAssessed(scores: seq<ObjectiveScore>)
    requires forall i :: 0 <= i < |scores| ==> scores[i].score.None?
    ensures Assessed(scores) == []
  {
    if scores != [] { NoneAssessed(scores[1..]); }
  }

  lemma AverageOnScale(selected: seq<real>, lo: real, hi: real)
    requires OnGrid(lo, 100) && OnGrid(hi, 100)
    requires forall i :: 0 <= i < |selected| ==> OnScale(selected[i], lo, hi)
    ensures OnScale(Average(selected), lo, hi) <==> selected != [] || OnScale(0.0, lo, hi)
  {
    if selected != [] {
      AverageWithin(selected, lo, hi);
      RoundBetween(lo, Mean(selected), hi, 100);
    }
  }

  /** An instance: weights that sum to one, and only the objective of weight zero is assessed. */
  lemma OnlyZeroWeightAssessed(answer: Turn, q: Question, blend: bool)
    requires answer.Answer? && answer.questionId == q.id && answer.context == Main
    requires answer.evaluation.computed == 3.0 && answer.evaluation.quote != ""
    requires q.objectives == ["second"] && q.excerpt != ""
    ensures var r := ReportOf([answer], [q], [Objective("first", 1.0, true, true), Objective("second", 0.0, true, true)], blend);
            |r.objectives| == 2 && r.objectives[0].score == None
            && r.objectives[1].score == Some(3.0) && r.overall == 0.0
  {
    var first, second := Objective("first", 1.0, true, true), Objective("second", 0.0, true, true);
    OnlySecondCounts(answer, q, first, second);
    assert 3.0 * 100 as real == 300.0;
    OnlyWeightlessCounts([answer], [q], first, second, blend, 3.0);
  }

  lemma OnlyWeightlessCounts(turns: seq<Turn>, questions: seq<Question>, first: Objective, second: Objective, blend: bool,
                            score: real)
    requires !CountsFor(turns, questions, first) && CountsFor(turns, questions, second) && second.weight == 0.0
    requires OnGrid(score, 100) && forall t :: t in turns && t.Answer? ==> t.evaluation.computed == score
    ensures var r := ReportOf(turns, questions, [first, second], blend);
            |r.objectives| == 2 && r.objectives[0].score == None && r.objectives[1].score == Some(score) && r.overall == 0.0
  {
    ReportStaysOnScale(turns, questions, [first, second], blend, score, score);
    AssessedExactly(turns, questions, blend, first);
    AssessedExactly(turns, questions, blend, second);
    ZeroWeight(ScoreObjectives([first, second], questions, Trajectories(turns), blend));
  }

  lemma OnlySecondCounts(answer: Turn, q: Question, first: Objective, second: Objective)
    requires answer.Answer? && answer.questionId == q.id && answer.context == Main && answer.evaluation.quote != ""
    requires first.id == "first" && second.id == "second" && q.objectives == ["second"] && q.excerpt != ""
    ensures !CountsFor([answer], [q], first) && CountsFor([answer], [q], second)
  {
    OneAnswer(answer, q);
    assert AnswerCounts([answer], [q], second, q.id);
    assert !AnswerCounts([answer], [q], first, q.id);
  }

  lemma OneAnswer(answer: Turn, q: Question)
    requires answer.Answer? && answer.questionId == q.id
    ensures AnsweredIds([answer]) == [q.id] && AnswersTo([answer], q.id) == [answer] && LastWithId([q], q.id) == Some(q)
  {
    assert [answer][..0] == [];
    assert AnsweredIds([answer]) == AnsweredIds([]) + [q.id];
    assert AnswersTo([answer], q.id) == AnswersTo([], q.id) + [answer];
  }

  lemma ZeroWeight(scores: seq<ObjectiveScore>)
    requires |scores| == 2 && scores[0].score.None? && scores[1].score.Some? && scores[1].weight == 0.0
    ensures Assessed(scores) != [] && WeightedAverage(Assessed(scores)) == 0.0
  {
    assert scores[1..][1..] == [] && Assessed(scores[1..]) == [Weighted(scores[1].score.value, 0.0)] + [];
    var items := [Weighted(scores[1].score.value, 0.0)];
    assert Assessed(scores) == [] + items == items && items[1..] == [];
    assert TotalWeight(items) == 0.0;
  }

  // ----- conservation -----

  function SumOfSizes(turns: seq<Turn>, ids: seq<string>): nat {
    if ids == [] then 0 else SumOfSizes(turns, ids[..|ids| - 1]) + |AnswersTo(turns, ids[|ids| - 1])|
  }

  lemma {:induction false} SizesGrow(turns: seq<Turn>, t: Turn, ids: seq<string>)
    requires forall i, j :: 0 <= i < j < |ids| ==> ids[i] != ids[j]
    ensures SumOfSizes(turns + [t], ids) == SumOfSizes(turns, ids) + if t.Answer? && t.questionId in ids then 1 else 0
  {
    if ids != [] {
      var n := |ids| - 1;
      SizesGrow(turns, t, ids[..n]);
      AnswersOneMore(turns, t, ids[n]);
      assert ids == ids[..n] + [ids[n]];
    }
  }

  lemma FirstAnswerSize(turns: seq<Turn>, t: Turn, ids: seq<string>)
    requires t.Answer? && AnswersTo(turns, t.questionId) == []
    ensures SumOfSizes(turns + [t], ids + [t.questionId]) == SumOfSizes(turns + [t], ids) + 1
  {
    AnswersOneMore(turns, t, t.questionId);
    assert (ids + [t.questionId])[..|ids|] == ids;
  }

  lemma SizesStep(turns: seq<Turn>, t: Turn)
    requires SumOfSizes(turns, AnsweredIds(turns)) == CountAnswers(turns)
    ensures SumOfSizes(turns + [t], AnsweredIds(turns + [t])) == CountAnswers(turns + [t])
  {
    var ids := AnsweredIds(turns);
    ReadOneMore(turns, t);
    AnsweredHaveAnswers(turns, t.questionId);
    SizesGrow(turns, t, ids);
    if t.Answer? && t.questionId !in ids {
      FirstAnswerSize(turns, t, ids);
    }
  }

  /** The turns counted per question add up to the evaluated turns: none is lost and none counted twice. */
  lemma {:induction false} EveryAnswerInOneTrajectory(turns: seq<Turn>)
    ensures SumOfSizes(turns, AnsweredIds(turns)) == CountAnswers(turns)
  {
    if turns != [] {
      var n := |turns| - 1;
      EveryAnswerInOneTrajectory(turns[..n]);
      SizesStep(turns[..n], turns[n]);
      assert turns == turns[..n] + [turns[n]];
    }
  }
}
