/** What the report's scores are made of, told from the answers and the questions themselves. */
module Scoring {
  import opened Numbers
  import opened Wrappers
  import opened Questions
  import opened Exam
  import opened Transcript
  import opened Runs
  import opened Reporter

  // ----- the independent answer -----

  /** `answer` is the first of the answers judged on the question itself. */
  ghost predicate FirstOnQuestion(answers: seq<Turn>, answer: Turn) {
    exists i :: FirstOnQuestionAt(answers, answer, i)
  }

  ghost predicate FirstOnQuestionAt(answers: seq<Turn>, answer: Turn, i: int) {
    0 <= i < |answers| && answers[i] == answer && OnQuestion(answer) && forall m :: 0 <= m < i ==> !OnQuestion(answers[m])
  }

  predicate OnQuestion(t: Turn) {
    t.Answer? && t.context == Main
  }

  lemma {:induction false} FirstMainExactly(answers: seq<Turn>, answer: Turn)
    ensures FirstMain(answers) == Some(answer) <==> FirstOnQuestion(answers, answer)
  {
    if answers != [] {
      var rest := answers[1..];
      FirstMainExactly(rest, answer);
      if OnQuestion(answers[0]) {
        if answers[0] == answer { assert FirstOnQuestionAt(answers, answer, 0); }
      } else {
        if i :| FirstOnQuestionAt(answers, answer, i) {
          forall m | 0 <= m < i - 1 ensures !OnQuestion(rest[m]) { assert rest[m] == answers[m + 1]; }
          assert FirstOnQuestionAt(rest, answer, i - 1);
        }
        if i :| FirstOnQuestionAt(rest, answer, i) {
          forall m | 0 <= m < i + 1 ensures !OnQuestion(answers[m]) { assert m > 0 ==> answers[m] == rest[m - 1]; }
          assert FirstOnQuestionAt(answers, answer, i + 1);
        }
      }
    }
  }

  /** The independent answer is the first one on the question itself, or the first of all if there is none. */
  lemma IndependentExactly(answers: seq<Turn>)
    requires answers != []
    ensures forall answer :: FirstOnQuestion(answers, answer) ==> IndependentOf(answers) == answer
    ensures (forall answer :: !FirstOnQuestion(answers, answer)) ==> IndependentOf(answers) == answers[0]
  {
    forall answer ensures FirstMain(answers) == Some(answer) <==> FirstOnQuestion(answers, answer) {
      FirstMainExactly(answers, answer);
    }
  }

  // ----- selected scores -----

  /** A turn's score, in cents. */
  function InCents(t: Turn): real {
    if t.Answer? then RoundTo(t.evaluation.computed, 100) else 0.0
  }

  /** Without blending, a question's score is its independent answer's, whatever was answered after help. */
  lemma UnblendedExactly(turns: seq<Turn>, questions: seq<Question>, objectives: seq<Objective>, i: nat)
    requires i < |AnsweredIds(turns)|
    ensures var r := ReportOf(turns, questions, objectives, false);
            var answers := AnswersTo(turns, AnsweredIds(turns)[i]);
            |r.selected| == |AnsweredIds(turns)| && answers != []
            && r.selected[i] == InCents(IndependentOf(answers))
  {
    AnsweredHaveAnswers(turns, AnsweredIds(turns)[i]);
    IntegersOnGrid(0, 100);
    RoundFixesGrid(0.0, 100);
  }

  /** Blended, it lies three tenths of the way from the independent answer's score to the last answer's, to four decimals. */
  lemma BlendedExactly(turns: seq<Turn>, questions: seq<Question>, objectives: seq<Objective>, i: nat)
    requires i < |AnsweredIds(turns)|
    ensures var r := ReportOf(turns, questions, objectives, true);
            var answers := AnswersTo(turns, AnsweredIds(turns)[i]);
            |r.selected| == |AnsweredIds(turns)| && answers != []
            && var first, last := InCents(IndependentOf(answers)), InCents(answers[|answers| - 1]);
               -0.00005 <= r.selected[i] - (first + 0.3 * (last - first)) <= 0.00005
  {
    var id := AnsweredIds(turns)[i];
    AnsweredHaveAnswers(turns, id);
    IntegersOnGrid(0, 100);
    RoundFixesGrid(0.0, 100);
    var t := TrajectoryOf(id, AnswersTo(turns, id));
    RoundingError(0.7 * t.independentScore + 0.3 * t.finalScore);
  }

  lemma RoundingError(x: real)
    ensures -0.00005 <= RoundTo(x, 10000) - x <= 0.00005
  {
    var n := RoundHalfEven(x * 10000.0) as real;
    assert -0.5 <= n - x * 10000.0 <= 0.5;
    assert RoundTo(x, 10000) == n / 10000.0;
  }

  // ----- answers after help do not count -----

  /** The same questions were answered, each with the same independent answer. */
  ghost predicate SameFirstAnswers(a: seq<Turn>, b: seq<Turn>) {
    AnsweredIds(a) == AnsweredIds(b)
    && forall id :: id in AnsweredIds(a) && AnswersTo(a, id) != [] && AnswersTo(b, id) != [] ==>
         IndependentOf(AnswersTo(a, id)) == IndependentOf(AnswersTo(b, id))
  }

  /** Trajectories the scores cannot tell apart. */
  ghost predicate ScoreAlike(t: Trajectory, u: Trajectory, blend: bool) {
    t.questionId == u.questionId && t.independent == u.independent && AttemptScore(t, blend) == AttemptScore(u, blend)
  }

  lemma {:induction false} SameEvidence(questions: seq<Question>, ts: seq<Trajectory>, us: seq<Trajectory>, blend: bool, o: string)
    requires |ts| == |us| && forall i :: 0 <= i < |ts| ==> ScoreAlike(ts[i], us[i], blend)
    ensures EvidenceFor(questions, ts, blend, o) == EvidenceFor(questions, us, blend, o)
  {
    if ts != [] {
      var n := |ts| - 1;
      SameEvidence(questions, ts[..n], us[..n], blend, o);
      assert ScoreAlike(ts[n], us[n], blend);
    }
  }

  lemma AlikeTrajectories(a: seq<Turn>, b: seq<Turn>)
    requires SameFirstAnswers(a, b)
    ensures |Trajectories(a)| == |Trajectories(b)|
    ensures forall i :: 0 <= i < |Trajectories(a)| ==> ScoreAlike(Trajectories(a)[i], Trajectories(b)[i], false)
  {
    forall i | 0 <= i < |AnsweredIds(a)| ensures ScoreAlike(Trajectories(a)[i], Trajectories(b)[i], false) {
      var id := AnsweredIds(a)[i];
      AnsweredHaveAnswers(a, id);
      AnsweredHaveAnswers(b, id);
      assert id in AnsweredIds(a);
    }
  }

  /** Without blending no score depends on what is answered after help: not a question's, an objective's or the overall one. */
  lemma HelpDoesNotScore(a: seq<Turn>, b: seq<Turn>, questions: seq<Question>, objectives: seq<Objective>)
    requires SameFirstAnswers(a, b)
    ensures var r, s := ReportOf(a, questions, objectives, false), ReportOf(b, questions, objectives, false);
            r.selected == s.selected && r.objectives == s.objectives && r.overall == s.overall
  {
    var ts, us := Trajectories(a), Trajectories(b);
    AlikeTrajectories(a, b);
    assert SelectedScores(ts, false) == SelectedScores(us, false) by {
      forall i | 0 <= i < |ts| ensures AttemptScore(ts[i], false) == AttemptScore(us[i], false) {
        assert ScoreAlike(ts[i], us[i], false);
      }
    }
    forall i | 0 <= i < |objectives|
      ensures EvidenceFor(questions, ts, false, objectives[i].id) == EvidenceFor(questions, us, false, objectives[i].id)
    {
      SameEvidence(questions, ts, us, false, objectives[i].id);
    }
    assert ScoreObjectives(objectives, questions, ts, false) == ScoreObjectives(objectives, questions, us, false);
  }

  // ----- objective scores -----

  /** The objectives an answered question is listed under: its own or, if it has none, those judged with the answer. */
  function ListedFor(turns: seq<Turn>, questions: seq<Question>, id: string): seq<string>
    requires AnswersTo(turns, id) != []
  {
    var q, answer := LastWithId(questions, id), IndependentOf(AnswersTo(turns, id));
    if q.Some? && |q.value.objectives| > 0 then q.value.objectives
    else if answer.Answer? then answer.evaluation.objectives else []
  }

  /** A report looks up a question by its identifier, the last one if several share it. */
  lemma {:induction false} LookedUpExactly(questions: seq<Question>, id: string, q: Question)
    ensures LastWithId(questions, id) == Some(q) <==>
            exists i :: 0 <= i < |questions| && LastAt(questions, id, q, i)
  {
    if questions != [] {
      var n := |questions| - 1;
      var front := questions[..n];
      LookedUpExactly(front, id, q);
      if questions[n].id == id {
        if questions[n] == q { assert LastAt(questions, id, q, n); }
      } else {
        forall i | 0 <= i < n ensures LastAt(questions, id, q, i) <==> LastAt(front, id, q, i) {
          if LastAt(front, id, q, i) {
            forall m | i < m < |questions| ensures questions[m].id != id { assert m < n ==> questions[m] == front[m]; }
          }
          if LastAt(questions, id, q, i) {
            forall m | i < m < n ensures front[m].id != id { assert front[m] == questions[m]; }
          }
        }
      }
    }
  }

  ghost predicate LastAt(questions: seq<Question>, id: string, q: Question, i: int) {
    0 <= i < |questions| && questions[i] == q && q.id == id && forall m :: i < m < |questions| ==> questions[m].id != id
  }

  /** How often an answered question counts for the objective. */
  ghost function Counting(turns: seq<Turn>, questions: seq<Question>, o: Objective, id: string): nat {
    if AnswersTo(turns, id) != [] && AnswerCounts(turns, questions, o, id) then multiset(ListedFor(turns, questions, id))[o.id] else 0
  }

  /** How often each answered question counts for the objective. */
  ghost function Countings(turns: seq<Turn>, questions: seq<Question>, o: Objective): seq<nat> {
    seq(|AnsweredIds(turns)|, i requires 0 <= i < |AnsweredIds(turns)| => Counting(turns, questions, o, AnsweredIds(turns)[i]))
  }

  function Total(counts: seq<nat>): nat {
    if counts == [] then 0 else Total(counts[..|counts| - 1]) + counts[|counts| - 1]
  }

  /** `x` added up `n` times. */
  function Times(n: nat, x: real): real {
    if n == 0 then 0.0 else Times(n - 1, x) + x
  }

  /** The scores, each as often as it counts. */
  function Tally(counts: seq<nat>, scores: seq<real>): real
    requires |counts| == |scores|
  {
    if counts == [] then 0.0
    else
      var n := |counts| - 1;
      Tally(counts[..n], scores[..n]) + Times(counts[n], scores[n])
  }

  lemma {:induction false} SumSplit(a: seq<real>, b: seq<real>)
    ensures Sum(a + b) == Sum(a) + Sum(b)
  {
    if a == [] {
      assert a + b == b;
    } else {
      assert (a + b)[1..] == a[1..] + b;
      SumSplit(a[1..], b);
    }
  }

  lemma {:induction false} CountedSplit(o: Objective, a: seq<Evidence>, b: seq<Evidence>)
    ensures CountedScores(o, a + b) == CountedScores(o, a) + CountedScores(o, b)
  {
    if a == [] {
      assert a + b == b;
    } else {
      assert (a + b)[1..] == a[1..] + b;
      CountedSplit(o, a[1..], b);
    }
  }

  /** `n` scores that are all `x`. */
  ghost predicate AddsUp(scores: seq<real>, n: nat, x: real) {
    |scores| == n && Sum(scores) == Times(n, x)
  }

  lemma AddsNone(x: real)
    ensures AddsUp([], 0, x)
  {}

  lemma AddsOne(x: real)
    ensures AddsUp([x], 1, x)
  {
    assert [x][1..] == [] && Sum([x]) == x + Sum([]);
    assert Times(1, x) == Times(0, x) + x;
  }

  lemma AddsBoth(a: seq<real>, n: nat, b: seq<real>, m: nat, x: real)
    requires AddsUp(a, n, x) && AddsUp(b, m, x)
    ensures AddsUp(a + b, n + m, x)
  {
    SumSplit(a, b);
    TimesSum(n, m, x);
  }

  lemma {:induction false} TimesSum(n: nat, m: nat, x: real)
    ensures Times(n + m, x) == Times(n, x) + Times(m, x)
  {
    if m > 0 {
      TimesSum(n, m - 1, x);
      assert Times(n + m, x) == Times(n + m - 1, x) + x;
    }
  }

  lemma OneCounted(o: Objective, e: Evidence)
    ensures CountedScores(o, [e]) == if Counts(o, e) then [e.score] else []
  {
    assert [e][1..] == [] && CountedScores(o, []) == [];
  }

  /** How often the evidence is filed under the objective and counts. */
  function Filings(o: Objective, e: Evidence, ids: seq<string>): nat {
    if Counts(o, e) then multiset(ids)[o.id] else 0
  }

  lemma FilingsOneMore(o: Objective, e: Evidence, ids: seq<string>, id: string)
    ensures Filings(o, e, ids + [id]) == Filings(o, e, ids) + if Counts(o, e) && id == o.id then 1 else 0
  {}

  lemma {:induction false} RepeatedCounts(o: Objective, e: Evidence, ids: seq<string>)
    ensures AddsUp(CountedScores(o, Repeat(e, ids, o.id)), Filings(o, e, ids), e.score)
  {
    if ids == [] {
      AddsNone(e.score);
    } else {
      var front, id := ids[..|ids| - 1], ids[|ids| - 1];
      RepeatedCounts(o, e, front);
      FilingsOneMore(o, e, front, id);
      assert ids == front + [id];
      RepeatOneMore(o, e, front, id);
    }
  }

  lemma RepeatGrows(o: Objective, e: Evidence, ids: seq<string>, id: string)
    ensures CountedScores(o, Repeat(e, ids + [id], o.id)) ==
            CountedScores(o, Repeat(e, ids, o.id)) + if Counts(o, e) && id == o.id then [e.score] else []
  {
    var more := if id == o.id then [e] else [];
    assert (ids + [id])[..|ids|] == ids;
    assert Repeat(e, ids + [id], o.id) == Repeat(e, ids, o.id) + more;
    CountedSplit(o, Repeat(e, ids, o.id), more);
    OneCounted(o, e);
  }

  lemma RepeatOneMore(o: Objective, e: Evidence, ids: seq<string>, id: string)
    requires AddsUp(CountedScores(o, Repeat(e, ids, o.id)), Filings(o, e, ids), e.score)
    ensures AddsUp(CountedScores(o, Repeat(e, ids + [id], o.id)), Filings(o, e, ids + [id]), e.score)
  {
    FilingsOneMore(o, e, ids, id);
    RepeatGrows(o, e, ids, id);
    AddsOneMore(CountedScores(o, Repeat(e, ids, o.id)), Filings(o, e, ids), e.score, Counts(o, e) && id == o.id);
  }

  lemma AddsOneMore(scores: seq<real>, n: nat, x: real, more: bool)
    requires AddsUp(scores, n, x)
    ensures AddsUp(scores + (if more then [x] else []), n + (if more then 1 else 0), x)
  {
    if more {
      AddsOne(x);
      AddsBoth(scores, n, [x], 1, x);
    } else {
      assert scores + [] == scores;
    }
  }

  lemma QuestionCounts(turns: seq<Turn>, questions: seq<Question>, o: Objective, blend: bool, id: string)
    requires id in AnsweredIds(turns) && AnswersTo(turns, id) != []
    ensures var t := TrajectoryOf(id, AnswersTo(turns, id));
            var e := EvidenceFrom(questions, t, AttemptScore(t, blend));
            AddsUp(CountedScores(o, Repeat(e, ObjectivesOf(questions, t), o.id)), Counting(turns, questions, o, id), e.score)
  {
    var t := TrajectoryOf(id, AnswersTo(turns, id));
    var e := EvidenceFrom(questions, t, AttemptScore(t, blend));
    RepeatedCounts(o, e, ObjectivesOf(questions, t));
    CountingIsFilings(turns, questions, o, e, id);
  }

  lemma CountingIsFilings(turns: seq<Turn>, questions: seq<Question>, o: Objective, e: Evidence, id: string)
    requires AnswersTo(turns, id) != []
    requires e == EvidenceFrom(questions, TrajectoryOf(id, AnswersTo(turns, id)), e.score)
    ensures Counting(turns, questions, o, id) == Filings(o, e, ObjectivesOf(questions, TrajectoryOf(id, AnswersTo(turns, id))))
  {
    var ids := ObjectivesOf(questions, TrajectoryOf(id, AnswersTo(turns, id)));
    AnswerIsTrajectory(turns, questions, o, id);
    assert ListedFor(turns, questions, id) == ids;
    assert o.id in ids <==> multiset(ids)[o.id] > 0;
  }

  /** The evidence the trajectory files under the objective. */
  function Own(questions: seq<Question>, t: Trajectory, blend: bool, o: Objective): seq<Evidence> {
    Repeat(EvidenceFrom(questions, t, AttemptScore(t, blend)), ObjectivesOf(questions, t), o.id)
  }

  /** Each trajectory's evidence counts so often, with such a score. */
  ghost predicate CountsLike(questions: seq<Question>, ts: seq<Trajectory>, blend: bool, o: Objective,
                             counts: seq<nat>, scores: seq<real>)
  {
    |counts| == |scores| == |ts|
    && forall i :: 0 <= i < |ts| ==> AddsUp(CountedScores(o, Own(questions, ts[i], blend, o)), counts[i], scores[i])
  }

  /** The counted scores of the evidence add up to the tally. */
  ghost predicate Tallied(counted: seq<real>, counts: seq<nat>, scores: seq<real>) {
    |counts| == |scores| && |counted| == Total(counts) && Sum(counted) == Tally(counts, scores)
  }

  lemma TallyOneMore(a: seq<real>, counts: seq<nat>, scores: seq<real>, b: seq<real>, n: nat, x: real)
    requires Tallied(a, counts, scores) && AddsUp(b, n, x)
    ensures Tallied(a + b, counts + [n], scores + [x])
  {
    SumSplit(a, b);
    assert (counts + [n])[..|counts|] == counts && (scores + [x])[..|scores|] == scores;
  }

  lemma EvidenceGrows(questions: seq<Question>, ts: seq<Trajectory>, t: Trajectory, blend: bool, o: Objective)
    ensures CountedScores(o, EvidenceFor(questions, ts + [t], blend, o.id)) ==
            CountedScores(o, EvidenceFor(questions, ts, blend, o.id)) + CountedScores(o, Own(questions, t, blend, o))
  {
    assert (ts + [t])[..|ts|] == ts;
    CountedSplit(o, EvidenceFor(questions, ts, blend, o.id), Own(questions, t, blend, o));
  }

  /** The counted scores of the trajectories' evidence add up to the tally. */
  ghost predicate EvidenceTallied(questions: seq<Question>, ts: seq<Trajectory>, blend: bool, o: Objective,
                                  counts: seq<nat>, scores: seq<real>)
  {
    Tallied(CountedScores(o, EvidenceFor(questions, ts, blend, o.id)), counts, scores)
  }

  lemma TalliesOneMore(questions: seq<Question>, ts: seq<Trajectory>, t: Trajectory, blend: bool, o: Objective,
                       counts: seq<nat>, n: nat, scores: seq<real>, x: real)
    requires EvidenceTallied(questions, ts, blend, o, counts, scores)
    requires AddsUp(CountedScores(o, Own(questions, t, blend, o)), n, x)
    ensures EvidenceTallied(questions, ts + [t], blend, o, counts + [n], scores + [x])
  {
    EvidenceGrows(questions, ts, t, blend, o);
    TallyOneMore(CountedScores(o, EvidenceFor(questions, ts, blend, o.id)), counts, scores,
                 CountedScores(o, Own(questions, t, blend, o)), n, x);
  }

  lemma NothingTallies(questions: seq<Question>, blend: bool, o: Objective)
    ensures EvidenceTallied(questions, [], blend, o, [], [])
  {}

  lemma {:induction false} EvidenceTallies(questions: seq<Question>, ts: seq<Trajectory>, blend: bool, o: Objective,
                                           counts: seq<nat>, scores: seq<real>, m: nat)
    requires CountsLike(questions, ts, blend, o, counts, scores) && m <= |ts|
    ensures EvidenceTallied(questions, ts[..m], blend, o, counts[..m], scores[..m])
  {
    if m == 0 {
      NothingTallies(questions, blend, o);
    } else {
      EvidenceTallies(questions, ts, blend, o, counts, scores, m - 1);
      TalliesOneMore(questions, ts[..m - 1], ts[m - 1], blend, o, counts[..m - 1], counts[m - 1], scores[..m - 1], scores[m - 1]);
      LastOf(ts, m);
      LastOf(counts, m);
      LastOf(scores, m);
    }
  }

  lemma LastOf<T>(xs: seq<T>, m: nat)
    requires 0 < m <= |xs|
    ensures xs[..m - 1] + [xs[m - 1]] == xs[..m]
  {}

  lemma CountedLikeThat(turns: seq<Turn>, questions: seq<Question>, o: Objective, blend: bool)
    ensures CountsLike(questions, Trajectories(turns), blend, o, Countings(turns, questions, o),
                       SelectedScores(Trajectories(turns), blend))
  {
    var ids, ts := AnsweredIds(turns), Trajectories(turns);
    forall i | 0 <= i < |ids|
      ensures AddsUp(CountedScores(o, Own(questions, ts[i], blend, o)), Counting(turns, questions, o, ids[i]),
                     AttemptScore(ts[i], blend))
    {
      AnsweredHaveAnswers(turns, ids[i]);
      QuestionCounts(turns, questions, o, blend, ids[i]);
    }
  }

  /** An objective's score is the mean of the selected scores of the questions that count for it, in cents. */
  lemma ObjectiveScoreExactly(turns: seq<Turn>, questions: seq<Question>, objectives: seq<Objective>, blend: bool, i: nat)
    requires i < |objectives|
    ensures var r, counts := ReportOf(turns, questions, objectives, blend), Countings(turns, questions, objectives[i]);
            |r.objectives| == |objectives| && |r.selected| == |counts|
            && r.objectives[i].id == objectives[i].id && r.objectives[i].weight == objectives[i].weight
            && r.objectives[i].evidence == Total(counts)
            && r.objectives[i].score ==
               if Total(counts) == 0 then None else Some(RoundTo(Tally(counts, r.selected) / Total(counts) as real, 100))
  {
    var ts := Trajectories(turns);
    CountedLikeThat(turns, questions, objectives[i], blend);
    var counts, selected := Countings(turns, questions, objectives[i]), SelectedScores(ts, blend);
    EvidenceTallies(questions, ts, blend, objectives[i], counts, selected, |ts|);
    assert ts[..|ts|] == ts && counts[..|ts|] == counts && selected[..|ts|] == selected;
  }

  // ----- the overall score -----

  /** The weights of the assessed objectives. */
  function AssessedWeight(scores: seq<ObjectiveScore>): real {
    if scores == [] then 0.0 else (if scores[0].score.Some? then scores[0].weight else 0.0) + AssessedWeight(scores[1..])
  }

  /** Their scores, each times its weight. */
  function AssessedSum(scores: seq<ObjectiveScore>): real {
    if scores == [] then 0.0
    else (if scores[0].score.Some? then scores[0].score.value * scores[0].weight else 0.0) + AssessedSum(scores[1..])
  }

  lemma {:induction false} AssessedIs(scores: seq<ObjectiveScore>)
    ensures TotalWeight(Assessed(scores)) == AssessedWeight(scores) && WeightedSum(Assessed(scores)) == AssessedSum(scores)
    ensures Assessed(scores) != [] <==> exists i :: 0 <= i < |scores| && scores[i].score.Some?
  {
    if scores != [] {
      var rest := scores[1..];
      AssessedIs(rest);
      if scores[0].score.Some? {
        var first := Weighted(scores[0].score.value, scores[0].weight);
        assert Assessed(scores) == [first] + Assessed(rest) && ([first] + Assessed(rest))[1..] == Assessed(rest);
      } else {
        assert Assessed(scores) == [] + Assessed(rest) == Assessed(rest);
        SomeLater(scores);
      }
    }
  }

  lemma SomeLater(scores: seq<ObjectiveScore>)
    requires scores != [] && scores[0].score.None?
    ensures (exists i :: 0 <= i < |scores| && scores[i].score.Some?) <==>
            exists i :: 0 <= i < |scores[1..]| && scores[1..][i].score.Some?
  {
    var rest := scores[1..];
    if i :| 0 <= i < |scores| && scores[i].score.Some? { assert rest[i - 1] == scores[i]; }
    if i :| 0 <= i < |rest| && rest[i].score.Some? { assert scores[i + 1] == rest[i]; }
  }

  /**
   The overall score is the weighted mean of the assessed objective scores to four decimals, zero if they
   weigh nothing; if none is assessed, the mean of the selected scores in cents, zero if there is none.
   */
  lemma OverallExactly(turns: seq<Turn>, questions: seq<Question>, objectives: seq<Objective>, blend: bool)
    ensures var r := ReportOf(turns, questions, objectives, blend);
            var weight := AssessedWeight(r.objectives);
            ((exists i :: 0 <= i < |r.objectives| && r.objectives[i].score.Some?) ==>
               r.overall == if weight > 0.0 then RoundTo(AssessedSum(r.objectives) / weight, 10000) else 0.0)
            && ((forall i :: 0 <= i < |r.objectives| ==> r.objectives[i].score.None?) ==>
                  r.overall == if |r.selected| == 0 then 0.0 else RoundTo(Sum(r.selected) / |r.selected| as real, 100))
  {
    AssessedIs(ReportOf(turns, questions, objectives, blend).objectives);
  }
}
