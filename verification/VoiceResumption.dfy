/** What a series of finalisation runs comes to, each cut anywhere, over a transcript that may grow between them. */
module VoiceResumption {
  import opened Numbers
  import opened Questions
  import opened VoiceFinalization
  import Exam

  function Unrecorded(asked: seq<string>): Recording {
    Recording(map[], map[], asked, [])
  }

  /** A run that read the first `seen` turns of the transcript at its start, and was cut. */
  datatype Attempt = Attempt(seen: nat, cut: nat)

  /** The transcript as it was when it had `n` turns. */
  function Upto(v: Voice, n: nat): Voice {
    if n < |v.transcript| then v.(transcript := v.transcript[..n]) else v
  }

  /** The transcript only grows; the runs read more and more of it. */
  ghost predicate Growing(v: Voice, runs: seq<Attempt>) {
    (forall i :: 0 <= i < |runs| ==> runs[i].seen <= |v.transcript|)
    && forall i, j :: 0 <= i < j < |runs| ==> runs[i].seen <= runs[j].seen
  }

  /** Runs one after the other, each over what it read and cut at its own position. */
  function Series(v: Voice, start: Recording, runs: seq<Attempt>): Recording
    requires v.questions != []
  {
    if runs == [] then start
    else
      var last := runs[|runs| - 1];
      Run(Upto(v, last.seen), Series(v, start, runs[..|runs| - 1]), last.cut)
  }

  /** A single run that is never cut. */
  function Uncut(v: Voice, asked: seq<string>): Recording
    requires v.questions != []
  {
    Run(v, Unrecorded(asked), |v.transcript| + 1)
  }

  // ----- a growing transcript -----

  lemma {:induction false} SamePositions(v: Voice, n: nat, i: nat)
    requires i <= n <= |v.transcript|
    ensures AnswerPositions(Upto(v, n), i) == AnswerPositions(v, i)
  {
    if i > 0 { SamePositions(v, n, i - 1); }
  }

  lemma {:induction false} SameText(v: Voice, n: nat, i: nat)
    requires i <= n <= |v.transcript|
    ensures TextBefore(Upto(v, n), i) == TextBefore(v, i)
  {
    if i > 0 { SameText(v, n, i - 1); }
  }

  lemma {:induction false} SameBest(v: Voice, n: nat, text: string, m: nat)
    requires 0 < m <= |v.questions|
    ensures BestOf(Upto(v, n), text, m) == BestOf(v, text, m)
  {
    if m > 1 { SameBest(v, n, text, m - 1); }
  }

  lemma SameMatch(v: Voice, n: nat, text: string, k: nat)
    requires v.questions != []
    ensures MatchQuestion(Upto(v, n), text, k) == MatchQuestion(v, text, k)
  {
    SameBest(v, n, text, |v.questions|);
  }

  /** What was recorded from the transcript as it was then is in order for what it has become. */
  lemma ResumableLater(v: Voice, n: nat, m: nat, r: Recording)
    requires n <= m <= |v.transcript| && Resumable(Upto(v, n), r)
    ensures Resumable(Upto(v, m), r)
  {
    SamePositions(v, n, n);
    SamePositions(v, m, m);
    PositionsPrefix(v, n, m);
    forall j: nat ensures Logged(Upto(v, m), r, j) { assert Logged(Upto(v, n), r, j); }
    forall p: nat ensures LoggedOnce(Upto(v, m), r, p) { assert LoggedOnce(Upto(v, n), r, p); }
    forall j: nat ensures EvaluatedAt(Upto(v, m), r.log, j) { assert EvaluatedAt(Upto(v, n), r.log, j); }
  }

  lemma NothingRecordedIsResumable(v: Voice, asked: seq<string>)
    ensures Resumable(v, Unrecorded(asked))
  {
    forall j: nat ensures Logged(v, Unrecorded(asked), j) {}
    forall p: nat ensures LoggedOnce(v, Unrecorded(asked), p) {}
    forall j: nat ensures EvaluatedAt(v, Unrecorded(asked).log, j) {}
  }

  lemma FrontGrows(v: Voice, runs: seq<Attempt>)
    requires Growing(v, runs) && runs != []
    ensures Growing(v, runs[..|runs| - 1])
  {}

  /** What a run over the transcript as it was comes to: how far the log reaches, and the asked ids. */
  lemma RunUpto(v: Voice, before: Recording, run: Attempt)
    requires v.questions != [] && run.seen <= |v.transcript| && Resumable(Upto(v, run.seen), before)
    ensures var u := Upto(v, run.seen);
            Resumable(u, Run(u, before, run.cut)) && RunsTo(u, before, Run(u, before, run.cut), run.cut)
    ensures |Run(Upto(v, run.seen), before, run.cut).log| ==
            MaxInt(|before.log|, |AnswerPositions(v, MinInt(run.cut, run.seen))|)
  {
    RunIsResumable(Upto(v, run.seen), before, run.cut);
    SamePositions(v, run.seen, MinInt(run.cut, run.seen));
  }

  lemma {:induction false} SeriesIsResumable(v: Voice, asked: seq<string>, runs: seq<Attempt>, n: nat)
    requires v.questions != [] && Growing(v, runs) && n <= |v.transcript|
    requires runs != [] ==> runs[|runs| - 1].seen <= n
    ensures Resumable(Upto(v, n), Series(v, Unrecorded(asked), runs))
  {
    if runs == [] {
      NothingRecordedIsResumable(Upto(v, n), asked);
    } else {
      var last, front := runs[|runs| - 1], runs[..|runs| - 1];
      FrontGrows(v, runs);
      SeriesIsResumable(v, asked, front, last.seen);
      RunUpto(v, Series(v, Unrecorded(asked), front), last);
      ResumableLater(v, last.seen, n, Series(v, Unrecorded(asked), runs));
    }
  }

  // ----- at most once, and in the end exactly once -----

  ghost predicate RecordedAt(log: seq<Entry>, j: int, p: nat) {
    0 <= j < |log| && log[j].position == p
  }

  /** Evidence is in transcript order, for answers only, and so at most one for each. */
  ghost predicate InOrder(v: Voice, log: seq<Entry>) {
    (forall i, j :: 0 <= i < j < |log| ==> log[i].position < log[j].position)
    && forall j :: 0 <= j < |log| ==>
         log[j].position < |v.transcript|
         && v.transcript[log[j].position].role == User && !v.blank(v.transcript[log[j].position].content)
  }

  /** Some run had read the turn at its start and was not cut before it. */
  ghost predicate Reaches(runs: seq<Attempt>, p: nat) {
    exists i :: 0 <= i < |runs| && ReachesIn(runs[i], p)
  }

  predicate ReachesIn(run: Attempt, p: nat) {
    p < run.seen && p < run.cut
  }

  /**
   However the runs are cut and the transcript grows: evidence is recorded in transcript order, for
   answers only, and for each at most once; and it is recorded exactly when some run had read the answer
   at its start and got past it. A turn added after the last run read the transcript is never recorded.
   */
  lemma RecordedOnce(v: Voice, asked: seq<string>, runs: seq<Attempt>, p: nat)
    requires v.questions != [] && Growing(v, runs)
    requires p < |v.transcript| && v.transcript[p].role == User && !v.blank(v.transcript[p].content)
    ensures InOrder(v, Series(v, Unrecorded(asked), runs).log)
    ensures (exists j :: RecordedAt(Series(v, Unrecorded(asked), runs).log, j, p)) <==> Reaches(runs, p)
  {
    SeriesIsResumable(v, asked, runs, |v.transcript|);
    ResumableInOrder(v, Series(v, Unrecorded(asked), runs));
    RankOf(v, Series(v, Unrecorded(asked), runs), p);
    LogReaches(v, asked, runs, p);
  }

  lemma ResumableInOrder(v: Voice, r: Recording)
    requires Resumable(v, r)
    ensures InOrder(v, r.log)
  {
    PositionsExact(v, |v.transcript|);
    forall j: nat | j < |r.log| ensures r.log[j].position == AllAnswers(v)[j] && AllAnswers(v)[j] in AllAnswers(v) {
      assert Logged(v, r, j);
    }
  }

  /** An answer is on the log exactly when its rank among the answers is within the log. */
  lemma RankOf(v: Voice, r: Recording, p: nat)
    requires Resumable(v, r) && p < |v.transcript| && IsAnswer(v, v.transcript[p])
    ensures (exists j :: RecordedAt(r.log, j, p)) <==> |AnswerPositions(v, p)| < |r.log|
  {
    var rank := |AnswerPositions(v, p)|;
    RecordedExactly(v, r, p);
    if rank < |r.log| {
      assert Logged(v, r, rank);
      assert RecordedAt(r.log, rank, p);
    }
    if j :| RecordedAt(r.log, j, p) {
      assert Logged(v, r, j);
    }
  }

  lemma RankBelow(v: Voice, p: nat, i: nat)
    requires p < |v.transcript| && IsAnswer(v, v.transcript[p]) && i <= |v.transcript|
    ensures |AnswerPositions(v, p)| < |AnswerPositions(v, i)| <==> p < i
  {
    if p < i { PositionsPrefix(v, p + 1, i); } else { PositionsPrefix(v, i, p); }
  }

  /** How far one run takes the log. */
  lemma RunReaches(v: Voice, before: Recording, run: Attempt, p: nat)
    requires v.questions != [] && run.seen <= |v.transcript| && Resumable(Upto(v, run.seen), before)
    requires p < |v.transcript| && IsAnswer(v, v.transcript[p])
    ensures |AnswerPositions(v, p)| < |Run(Upto(v, run.seen), before, run.cut).log| <==>
            |AnswerPositions(v, p)| < |before.log| || ReachesIn(run, p)
  {
    RunUpto(v, before, run);
    RankBelow(v, p, MinInt(run.cut, run.seen));
  }

  lemma {:induction false} LogReaches(v: Voice, asked: seq<string>, runs: seq<Attempt>, p: nat)
    requires v.questions != [] && Growing(v, runs)
    requires p < |v.transcript| && IsAnswer(v, v.transcript[p])
    ensures |AnswerPositions(v, p)| < |Series(v, Unrecorded(asked), runs).log| <==> Reaches(runs, p)
  {
    if runs != [] {
      var last, front := runs[|runs| - 1], runs[..|runs| - 1];
      FrontGrows(v, runs);
      LogReaches(v, asked, front, p);
      SeriesIsResumable(v, asked, front, last.seen);
      RunReaches(v, Series(v, Unrecorded(asked), front), last, p);
      ReachesOneMore(front, last, p);
      assert runs == front + [last];
    }
  }

  lemma ReachesOneMore(runs: seq<Attempt>, last: Attempt, p: nat)
    ensures Reaches(runs + [last], p) <==> Reaches(runs, p) || ReachesIn(last, p)
  {
    var all := runs + [last];
    if i :| 0 <= i < |runs| && ReachesIn(runs[i], p) { assert ReachesIn(all[i], p); }
    if ReachesIn(last, p) { assert ReachesIn(all[|runs|], p); }
    if i :| 0 <= i < |all| && ReachesIn(all[i], p) { assert i < |runs| ==> runs[i] == all[i]; }
  }

  /** However the runs are cut, each answer is evaluated for its question on what was recorded before it. */
  lemma EvaluatedExactly(v: Voice, asked: seq<string>, runs: seq<Attempt>, j: nat)
    requires v.questions != [] && Growing(v, runs) && j < |Series(v, Unrecorded(asked), runs).log|
    ensures var log := Series(v, Unrecorded(asked), runs).log;
            log[j].evaluation == v.evaluate(log[j].position, log[j].question, QuestionsOn(log[..j]))
  {
    SeriesIsResumable(v, asked, runs, |v.transcript|);
    assert EvaluatedAt(v, Series(v, Unrecorded(asked), runs).log, j);
  }

  // ----- the mastery record -----

  /** Entry `j` is the last one about the question. */
  ghost predicate LatestFor(log: seq<Entry>, id: string, j: int) {
    0 <= j < |log| && log[j].question == id && forall i :: j < i < |log| ==> log[i].question != id
  }

  lemma {:induction false} ReplayIsLatest(log: seq<Entry>, id: string)
    ensures id in Replayed(log) <==> exists j :: LatestFor(log, id, j)
    ensures forall j :: LatestFor(log, id, j) ==> Replayed(log)[id] == Exam.MasteryFrom(log[j].evaluation)
  {
    if log != [] {
      var n := |log| - 1;
      ReplayIsLatest(log[..n], id);
      if log[n].question == id {
        assert LatestFor(log, id, n);
      } else {
        forall j ensures LatestFor(log, id, j) <==> LatestFor(log[..n], id, j) {
          if LatestFor(log[..n], id, j) {
            forall i | j < i < |log| ensures log[i].question != id { assert i < n ==> log[i] == log[..n][i]; }
          }
          if LatestFor(log, id, j) {
            forall i | j < i < n ensures log[..n][i].question != id {}
          }
        }
      }
    }
  }

  /** However the runs are cut, mastery is on record for just the recorded questions, each with its latest evaluation. */
  lemma MasteryIsLatest(v: Voice, asked: seq<string>, runs: seq<Attempt>, id: string)
    requires v.questions != [] && Growing(v, runs)
    ensures var r := Series(v, Unrecorded(asked), runs);
            (id in r.mastery <==> exists j :: LatestFor(r.log, id, j))
            && (forall j :: LatestFor(r.log, id, j) ==> r.mastery[id] == Exam.MasteryFrom(r.log[j].evaluation))
  {
    SeriesIsResumable(v, asked, runs, |v.transcript|);
    ReplayIsLatest(Series(v, Unrecorded(asked), runs).log, id);
  }

  // ----- the question an answer is recorded for -----

  /** In an uncut run the answer of rank `j` is matched as answer number `j`. */
  lemma UncutMatches(v: Voice, asked: seq<string>, j: nat)
    requires v.questions != [] && j < |AllAnswers(v)|
    ensures |Uncut(v, asked).log| == |AllAnswers(v)| && AllAnswers(v)[j] <= |v.transcript|
    ensures Uncut(v, asked).log[j].question ==
            v.questions[MatchQuestion(v, TextBefore(v, AllAnswers(v)[j]), j)].id
  {
    NothingRecordedIsResumable(v, asked);
    RunIsResumable(v, Unrecorded(asked), |v.transcript| + 1);
    assert Matched(v, 0, Uncut(v, asked).log, j);
  }

  /**
   A resumed run counts answers from the first one it records itself. An answer it records gets the
   question an uncut run gives it exactly when the assistant's text decides, or nothing had been
   recorded before, or both counts run past the last question.
   */
  lemma SameQuestionExactly(v: Voice, asked: seq<string>, runs: seq<Attempt>, cut: nat, j: nat)
    requires v.questions != [] && DistinctIds(v.questions) && Growing(v, runs)
    requires var before := Series(v, Unrecorded(asked), runs);
             |before.log| <= j < |Run(v, before, cut).log|
    ensures var before := Series(v, Unrecorded(asked), runs);
            j < |AllAnswers(v)| && j < |Uncut(v, asked).log| && AllAnswers(v)[j] <= |v.transcript|
            && (Run(v, before, cut).log[j].question == Uncut(v, asked).log[j].question <==>
                TextDecides(v, TextBefore(v, AllAnswers(v)[j]))
                || |before.log| == 0
                || j - |before.log| >= |v.questions| - 1)
  {
    var before := Series(v, Unrecorded(asked), runs);
    SeriesIsResumable(v, asked, runs, |v.transcript|);
    RunIsResumable(v, before, cut);
    assert Matched(v, |before.log|, Run(v, before, cut).log, j);
    UncutMatches(v, asked, j);
    SameMatchExactly(v, TextBefore(v, AllAnswers(v)[j]), j, |before.log|);
  }

  lemma SameMatchExactly(v: Voice, text: string, j: nat, n: nat)
    requires v.questions != [] && DistinctIds(v.questions) && n <= j
    ensures v.questions[MatchQuestion(v, text, j - n)].id == v.questions[MatchQuestion(v, text, j)].id <==>
            TextDecides(v, text) || n == 0 || j - n >= |v.questions| - 1
  {
    MatchByTextOrPosition(v, text, j);
    MatchByTextOrPosition(v, text, j - n);
    var a, b := MatchQuestion(v, text, j - n), MatchQuestion(v, text, j);
    assert v.questions[a].id == v.questions[b].id <==> a == b;
  }

  // ----- the asked questions -----

  lemma {:induction false} NotedExactly(asked: seq<string>, entries: seq<Entry>, id: string)
    ensures id in NoteAll(asked, entries) <==>
            id in asked || exists i :: 0 <= i < |entries| && entries[i].question == id
  {
    if entries != [] {
      var n := |entries| - 1;
      NotedExactly(asked, entries[..n], id);
      if i :| 0 <= i < n && entries[i].question == id {
        assert entries[..n][i].question == id;
      }
      if i :| 0 <= i < n && entries[..n][i].question == id {
        assert entries[i].question == id;
      }
    }
  }

  /** No run came to its end. */
  ghost predicate AllCut(runs: seq<Attempt>) {
    forall i :: 0 <= i < |runs| ==> runs[i].cut <= runs[i].seen
  }

  lemma {:induction false} CutRunsKeepAsked(v: Voice, asked: seq<string>, runs: seq<Attempt>)
    requires v.questions != [] && Growing(v, runs) && AllCut(runs)
    ensures Series(v, Unrecorded(asked), runs).asked == asked
  {
    if runs != [] {
      var last, front := runs[|runs| - 1], runs[..|runs| - 1];
      FrontGrows(v, runs);
      CutRunsKeepAsked(v, asked, front);
      SeriesIsResumable(v, asked, front, last.seen);
      RunUpto(v, Series(v, Unrecorded(asked), front), last);
    }
  }

  ghost predicate AllAsked(r: Recording) {
    forall j :: 0 <= j < |r.log| ==> r.log[j].question in r.asked
  }

  /** The question the last run gives the answer of rank `i`, when `n` answers were recorded before it. */
  function LateQuestion(v: Voice, n: nat, i: nat): string
    requires v.questions != [] && n <= i < |AllAnswers(v)| && AllAnswers(v)[i] <= |v.transcript|
  {
    v.questions[MatchQuestion(v, TextBefore(v, AllAnswers(v)[i]), i - n)].id
  }

  ghost predicate ComesUpAt(v: Voice, n: nat, id: string, i: int)
    requires v.questions != []
  {
    n <= i < |AllAnswers(v)| && AllAnswers(v)[i] <= |v.transcript| && LateQuestion(v, n, i) == id
  }

  /** An answer not recorded yet will bring up the question again. */
  ghost predicate ComesUp(v: Voice, n: nat, id: string)
    requires v.questions != []
  {
    exists i :: ComesUpAt(v, n, id, i)
  }

  /**
   Asked ids are stored only by the run that ends, from the turns that run recorded itself: after
   cut runs, every recorded question will count as asked exactly when each one recorded so far was
   asked before or comes up again among the answers that are left.
   */
  lemma AskedAfterResumingExactly(v: Voice, asked: seq<string>, runs: seq<Attempt>)
    requires v.questions != [] && Growing(v, runs) && AllCut(runs)
    ensures var before := Series(v, Unrecorded(asked), runs);
            AllAsked(Run(v, before, |v.transcript| + 1)) <==>
              forall e :: e in before.log ==> e.question in asked || ComesUp(v, |before.log|, e.question)
  {
    var before := Series(v, Unrecorded(asked), runs);
    var after := Run(v, before, |v.transcript| + 1);
    SeriesIsResumable(v, asked, runs, |v.transcript|);
    CutRunsKeepAsked(v, asked, runs);
    RunIsResumable(v, before, |v.transcript| + 1);
    var n := |before.log|;
    forall j | 0 <= j < |after.log| ensures KnownAfter(v, n, asked, after.log[j].question, j) == (after.log[j].question in after.asked) {
      AskedWhenEnded(v, before, after, j);
    }
    assert before.log == after.log[..n];
    forall j | 0 <= j < n ensures after.log[j] in before.log && after.log[j] == before.log[j] {}
  }

  /** The last run records the question itself, or it was asked before, or it comes up again. */
  ghost predicate KnownAfter(v: Voice, n: nat, asked: seq<string>, id: string, j: int)
    requires v.questions != []
  {
    j >= n || id in asked || ComesUp(v, n, id)
  }

  lemma AskedWhenEnded(v: Voice, before: Recording, after: Recording, j: nat)
    requires v.questions != [] && RunsTo(v, before, after, |v.transcript| + 1) && j < |after.log|
    ensures after.log[j].question in after.asked <==>
            KnownAfter(v, |before.log|, before.asked, after.log[j].question, j)
  {
    var n := |before.log|;
    LateEntries(v, before, after, after.log[j].question);
    NotedExactly(before.asked, after.log[n..], after.log[j].question);
    if j >= n { assert after.log[n..][j - n] == after.log[j]; }
  }

  /** The entries a run that ends adds are those of the answers that were left. */
  lemma LateEntry(v: Voice, before: Recording, after: Recording, i: nat)
    requires v.questions != [] && RunsTo(v, before, after, |v.transcript| + 1) && |before.log| <= i < |after.log|
    ensures ComesUpAt(v, |before.log|, after.log[i].question, i)
  {
    assert Matched(v, |before.log|, after.log, i);
  }

  lemma LateEntries(v: Voice, before: Recording, after: Recording, id: string)
    requires v.questions != [] && RunsTo(v, before, after, |v.transcript| + 1)
    ensures ComesUp(v, |before.log|, id) <==>
            exists i :: 0 <= i < |after.log[|before.log|..]| && after.log[|before.log|..][i].question == id
  {
    var n := |before.log|;
    var late := after.log[n..];
    assert |after.log| == |AllAnswers(v)|;
    if i :| ComesUpAt(v, n, id, i) {
      LateEntry(v, before, after, i);
      assert late[i - n] == after.log[i];
    }
    if i :| 0 <= i < |late| && late[i].question == id {
      assert late[i] == after.log[n + i];
      LateEntry(v, before, after, n + i);
    }
  }

  /** In an uncut run every recorded question counts as asked. */
  lemma UncutRunAsksAll(v: Voice, asked: seq<string>)
    requires v.questions != []
    ensures AllAsked(Uncut(v, asked))
  {
    AskedAfterResumingExactly(v, asked, []);
  }

  lemma TwoRuns(v: Voice, start: Recording, first: Attempt, second: Attempt)
    requires v.questions != [] && first.seen == second.seen == |v.transcript|
    ensures Series(v, start, [first]) == Run(v, start, first.cut)
    ensures Series(v, start, [first, second]) == Run(v, Run(v, start, first.cut), second.cut)
  {
    var both := [first, second];
    assert both[..1] == [first] && [first][..0] == [];
    assert Series(v, start, [first]) == Run(v, Series(v, start, []), first.cut);
    assert Series(v, start, both) == Run(v, Series(v, start, both[..1]), second.cut);
  }

  lemma TwoAnswers(v: Voice)
    requires v.transcript == [Utterance(User, "a"), Utterance(User, "b")] && !v.blank("a") && !v.blank("b")
    ensures AnswerPositions(v, 1) == [0] && AllAnswers(v) == [0, 1]
  {
    assert IsAnswer(v, v.transcript[0]) && IsAnswer(v, v.transcript[1]);
    assert AnswerPositions(v, 0) == [];
    assert AnswerPositions(v, 1) == AnswerPositions(v, 0) + [0] == [0];
    assert AnswerPositions(v, 2) == AnswerPositions(v, 1) + [1] == [0, 1];
  }

  lemma LengthsAfterResuming(v: Voice)
    requires v.questions != [] && |v.transcript| == 2 && AnswerPositions(v, 1) == [0] && AllAnswers(v) == [0, 1]
    ensures |Run(v, Unrecorded([]), 1).log| == 1
    ensures |Run(v, Run(v, Unrecorded([]), 1), 3).log| == 2
  {
    NothingRecordedIsResumable(v, []);
    RunIsResumable(v, Unrecorded([]), 1);
    RunIsResumable(v, Run(v, Unrecorded([]), 1), 3);
  }

  /**
   Two spoken answers, two questions no text resembles, and a run cut between the answers: the
   resumed run records the second answer for the first question, and the uncut one does not.
   */
  lemma ResumedRunMismatches(v: Voice)
    requires |v.questions| == 2 && DistinctIds(v.questions)
    requires v.transcript == [Utterance(User, "a"), Utterance(User, "b")] && !v.blank("a") && !v.blank("b")
    requires forall text, i :: 0 <= i < 2 ==> v.ratio(text, v.questions[i].text) == 0.0
    ensures var resumed := Series(v, Unrecorded([]), [Attempt(2, 1), Attempt(2, 3)]);
            |resumed.log| == 2 && |Uncut(v, []).log| == 2
            && resumed.log[1].question != Uncut(v, []).log[1].question
  {
    TwoAnswers(v);
    TwoRuns(v, Unrecorded([]), Attempt(2, 1), Attempt(2, 3));
    LengthsAfterResuming(v);
    SameQuestionExactly(v, [], [Attempt(2, 1)], 3, 1);
    UncutMatches(v, [], 1);
    assert !TextDecides(v, TextBefore(v, 1));
  }

  lemma ThreeAnswers(v: Voice)
    requires v.transcript == [Utterance(User, "a"), Utterance(User, "b"), Utterance(User, "c")]
    requires !v.blank("a") && !v.blank("b") && !v.blank("c")
    ensures AnswerPositions(v, 2) == [0, 1] && AllAnswers(v) == [0, 1, 2]
  {
    assert IsAnswer(v, v.transcript[0]) && IsAnswer(v, v.transcript[1]) && IsAnswer(v, v.transcript[2]);
    assert AnswerPositions(v, 0) == [];
    assert AnswerPositions(v, 1) == AnswerPositions(v, 0) + [0] == [0];
    assert AnswerPositions(v, 2) == AnswerPositions(v, 1) + [1] == [0, 1];
    assert AnswerPositions(v, 3) == AnswerPositions(v, 2) + [2] == [0, 1, 2];
  }

  /** The second answer of a first run over such texts is recorded for the second question. */
  lemma SecondAnswer(v: Voice)
    requires |v.questions| == 2 && |v.transcript| == 3
    requires AnswerPositions(v, 2) == [0, 1] && AllAnswers(v) == [0, 1, 2]
    requires forall text, i :: 0 <= i < 2 ==> v.ratio(text, v.questions[i].text) == 0.0
    ensures var log := Run(v, Unrecorded([]), 2).log;
            |log| == 2 && log[1].question == v.questions[1].id
  {
    var after := Run(v, Unrecorded([]), 2);
    NothingRecordedIsResumable(v, []);
    RunIsResumable(v, Unrecorded([]), 2);
    assert Matched(v, 0, after.log, 1);
    assert !TextDecides(v, TextBefore(v, 1));
    MatchByTextOrPosition(v, TextBefore(v, 1), 1);
  }

  /**
   Three spoken answers, two questions no text resembles, and a run cut after the second answer: the
   run that ends counts from one again, and the second question never counts as asked.
   */
  lemma ResumedRunForgets(v: Voice)
    requires |v.questions| == 2 && DistinctIds(v.questions)
    requires v.transcript == [Utterance(User, "a"), Utterance(User, "b"), Utterance(User, "c")]
    requires !v.blank("a") && !v.blank("b") && !v.blank("c")
    requires forall text, i :: 0 <= i < 2 ==> v.ratio(text, v.questions[i].text) == 0.0
    ensures var resumed := Series(v, Unrecorded([]), [Attempt(3, 2), Attempt(3, 4)]);
            |resumed.log| == 3 && resumed.log[1].question == v.questions[1].id
            && v.questions[1].id !in resumed.asked && !AllAsked(resumed)
  {
    var before := Run(v, Unrecorded([]), 2);
    var after := Run(v, before, 4);
    ThreeAnswers(v);
    SecondAnswer(v);
    TwoRuns(v, Unrecorded([]), Attempt(3, 2), Attempt(3, 4));
    SeriesIsResumable(v, [], [Attempt(3, 2)], 3);
    CutRunsKeepAsked(v, [], [Attempt(3, 2)]);
    RunIsResumable(v, before, 4);
    assert after.log[1] == after.log[..2][1];
    assert Matched(v, 2, after.log, 2);
    assert !TextDecides(v, TextBefore(v, 2));
    MatchByTextOrPosition(v, TextBefore(v, 2), 0);
    NotedExactly([], after.log[2..], v.questions[1].id);
  }

  /** An answer heard after the only run read the transcript is never recorded, though the run ended. */
  lemma LateAnswerLost(v: Voice)
    requires v.questions != []
    requires v.transcript == [Utterance(User, "a"), Utterance(User, "b")] && !v.blank("a") && !v.blank("b")
    ensures var log := Series(v, Unrecorded([]), [Attempt(1, 2)]).log;
            (exists j :: RecordedAt(log, j, 0)) && !exists j :: RecordedAt(log, j, 1)
  {
    var runs := [Attempt(1, 2)];
    assert IsAnswer(v, v.transcript[0]) && IsAnswer(v, v.transcript[1]);
    RecordedOnce(v, [], runs, 0);
    RecordedOnce(v, [], runs, 1);
    assert ReachesIn(runs[0], 0) && !ReachesIn(runs[0], 1);
  }
}
