/**
 The questions a voice session counts as asked. Nothing on that way reads the question limit: the
 finalisation adds every question an answer is matched with.
 */
module VoiceLimit {
  import opened Wrappers
  import opened Questions
  import Exam
  import Runs
  import opened Guarantees
  import opened Contracts
  import opened VoiceFinalization
  import opened VoiceResumption

  /** The questions the answers from rank `n` on are matched with. */
  function MatchedQuestions(v: Voice, n: nat): set<string>
    requires v.questions != []
  {
    set i | n <= i < |AllAnswers(v)| && AllAnswers(v)[i] <= |v.transcript| :: LateQuestion(v, n, i)
  }

  lemma {:induction false} NotedDistinct(asked: seq<string>, entries: seq<Entry>)
    requires Runs.Distinct(asked)
    ensures Runs.Distinct(NoteAll(asked, entries))
  {
    if entries != [] { NotedDistinct(asked, entries[..|entries| - 1]); }
  }

  /** The run that ends counts as asked, each once, what was asked before and what its answers are matched with. */
  lemma AskedByEnding(v: Voice, before: Recording, after: Recording)
    requires v.questions != [] && RunsTo(v, before, after, |v.transcript| + 1) && Runs.Distinct(before.asked)
    ensures Runs.Distinct(after.asked)
    ensures Exam.AskedSet(after.asked) == Exam.AskedSet(before.asked) + MatchedQuestions(v, |before.log|)
  {
    var late := after.log[|before.log|..];
    NotedDistinct(before.asked, late);
    forall id ensures id in after.asked <==> id in before.asked || id in MatchedQuestions(v, |before.log|) {
      NotedExactly(before.asked, late, id);
      LateEntries(v, before, after, id);
      assert ComesUp(v, |before.log|, id) <==> id in MatchedQuestions(v, |before.log|) by {
        if i :| ComesUpAt(v, |before.log|, id, i) { assert LateQuestion(v, |before.log|, i) in MatchedQuestions(v, |before.log|); }
        if id in MatchedQuestions(v, |before.log|) {
          var i :| |before.log| <= i < |AllAnswers(v)| && AllAnswers(v)[i] <= |v.transcript| && LateQuestion(v, |before.log|, i) == id;
          assert ComesUpAt(v, |before.log|, id, i);
        }
      }
    }
  }

  lemma MatchedAreQuestions(v: Voice, n: nat)
    requires v.questions != []
    ensures MatchedQuestions(v, n) <= Ids(v.questions) && |MatchedQuestions(v, n)| <= |v.questions|
  {
    forall id | id in MatchedQuestions(v, n) ensures id in Ids(v.questions) {
      var i :| n <= i < |AllAnswers(v)| && AllAnswers(v)[i] <= |v.transcript| && LateQuestion(v, n, i) == id;
      assert v.questions[MatchQuestion(v, TextBefore(v, AllAnswers(v)[i]), i - n)] in v.questions;
    }
    IdsCardinality(v.questions);
    SubsetCardinality(MatchedQuestions(v, n), Ids(v.questions));
  }

  /** A voice session over a transcript, once its last run has ended. */
  function Finalised(v: Voice, runs: seq<Attempt>): Recording
    requires v.questions != []
  {
    Run(v, Series(v, Unrecorded([]), runs), |v.transcript| + 1)
  }

  /**
   The asked questions of a voice session stay within its limit exactly when the answers its last run
   records are matched with no more questions than that; they never are more than the blueprint has.
   */
  lemma VoiceLimitExactly(c: Creation, v: Voice, runs: seq<Attempt>)
    requires c.VoiceSession? && Created(c).Success? && v.questions == Created(c).value.questions != []
    requires Growing(v, runs) && AllCut(runs)
    ensures var asked, n := Finalised(v, runs).asked, |Series(v, Unrecorded([]), runs).log|;
            (|asked| <= Exam.QuestionLimit(Created(c).value) <==> |MatchedQuestions(v, n)| <= Exam.QuestionLimit(Created(c).value))
            && |asked| <= |v.questions|
  {
    var before := Series(v, Unrecorded([]), runs);
    SeriesIsResumable(v, [], runs, |v.transcript|);
    CutRunsKeepAsked(v, [], runs);
    RunIsResumable(v, before, |v.transcript| + 1);
    AskedByEnding(v, before, Finalised(v, runs));
    AskedCardinality(Finalised(v, runs).asked);
    MatchedAreQuestions(v, |before.log|);
    assert Exam.AskedSet(before.asked) == {};
  }

  /** A voice session limited to one question: two answers no text resembles are matched with two. */
  lemma VoicePassesLimit(v: Voice) returns (c: Creation)
    requires |v.questions| == 2 && DistinctIds(v.questions)
    requires v.transcript == [Utterance(User, "a"), Utterance(User, "b")] && !v.blank("a") && !v.blank("b")
    requires forall text, i :: 0 <= i < 2 ==> v.ratio(text, v.questions[i].text) == 0.0
    ensures c.VoiceSession? && Created(c).Success? && Created(c).value.questions == v.questions && Created(c).value.adaptive
    ensures Exam.QuestionLimit(Created(c).value) == 1 && |Finalised(v, []).asked| == 2
  {
    c := VoiceSession(Request(v.questions, None, true, 1, 2, true), false);
    TwoAnswers(v);
    BothMatched(v);
    VoiceLimitExactly(c, v, []);
  }

  lemma BothMatched(v: Voice)
    requires |v.questions| == 2 && DistinctIds(v.questions) && |v.transcript| == 2 && AllAnswers(v) == [0, 1]
    requires forall text, i :: 0 <= i < 2 ==> v.ratio(text, v.questions[i].text) == 0.0
    ensures |MatchedQuestions(v, 0)| == 2
  {
    assert !TextDecides(v, TextBefore(v, 0)) && !TextDecides(v, TextBefore(v, 1));
    assert LateQuestion(v, 0, 0) == v.questions[0].id && LateQuestion(v, 0, 1) == v.questions[1].id;
    assert MatchedQuestions(v, 0) == {v.questions[0].id, v.questions[1].id};
  }
}
