/** Reference readings of a session's flat list of turns. */
module Transcript {
  import opened Exam
  import opened Policy

  /** The answers given to one question, in order. */
  function AnswersTo(turns: seq<Turn>, id: string): seq<Turn> {
    if turns == [] then []
    else
      var last := turns[|turns| - 1];
      AnswersTo(turns[..|turns| - 1], id) + if last.Answer? && last.questionId == id then [last] else []
  }

  /** The questions that were answered, in the order of their first answers. */
  function AnsweredIds(turns: seq<Turn>): seq<string> {
    if turns == [] then []
    else
      var last := turns[|turns| - 1];
      var ids := AnsweredIds(turns[..|turns| - 1]);
      if last.Answer? && last.questionId !in ids then ids + [last.questionId] else ids
  }

  function CountAnswers(turns: seq<Turn>): nat {
    if turns == [] then 0
    else CountAnswers(turns[..|turns| - 1]) + if turns[|turns| - 1].Answer? then 1 else 0
  }

  predicate Helps(t: Turn) {
    t.Asked? && t.decision.Some? && (t.decision.value.verdict.action in {GiveHint, AskFollowup})
  }

  /** How many hints and follow-ups were given since a question was last put. */
  function TrailingHelp(turns: seq<Turn>): nat {
    if turns == [] then 0
    else
      var last := turns[|turns| - 1];
      if last.Answer? then TrailingHelp(turns[..|turns| - 1])
      else if Helps(last) then TrailingHelp(turns[..|turns| - 1]) + 1
      else 0
  }

  /** Answers to `id` that directly follow a turn putting a follow-up text. */
  function AnswersToFollowups(turns: seq<Turn>, id: string): nat {
    if turns == [] then 0
    else
      var n := |turns| - 1;
      AnswersToFollowups(turns[..n], id)
      + if turns[n].Answer? && turns[n].questionId == id && n > 0 && PutsFollowup(turns[n - 1]) then 1 else 0
  }

  /** Answers marked as judged against a follow-up text. */
  function CountFollowups(answers: seq<Turn>): nat {
    if answers == [] then 0
    else
      var last := answers[|answers| - 1];
      CountFollowups(answers[..|answers| - 1]) + if last.Answer? && last.context == Followup then 1 else 0
  }

  /** What one more turn does to the answers to a question. */
  lemma AnswersOneMore(turns: seq<Turn>, t: Turn, id: string)
    ensures AnswersTo(turns + [t], id) ==
            if t.Answer? && t.questionId == id then AnswersTo(turns, id) + [t] else AnswersTo(turns, id)
    ensures CountFollowups(AnswersTo(turns + [t], id)) == CountFollowups(AnswersTo(turns, id))
            + if t.Answer? && t.questionId == id && t.context == Followup then 1 else 0
    ensures AnswersToFollowups(turns + [t], id) == AnswersToFollowups(turns, id)
            + if t.Answer? && t.questionId == id && turns != [] && PutsFollowup(turns[|turns| - 1]) then 1 else 0
  {
    assert (turns + [t])[..|turns|] == turns;
    var before := AnswersTo(turns, id);
    assert before + [] == before && (before + [t])[..|before|] == before;
  }

  /** What one more turn does to the other readings. */
  lemma ReadOneMore(turns: seq<Turn>, t: Turn)
    ensures CountAnswers(turns + [t]) == CountAnswers(turns) + if t.Answer? then 1 else 0
    ensures AnsweredIds(turns + [t]) ==
            var ids := AnsweredIds(turns);
            if t.Answer? && t.questionId !in ids then ids + [t.questionId] else ids
    ensures TrailingHelp(turns + [t]) ==
            if t.Answer? then TrailingHelp(turns) else if Helps(t) then TrailingHelp(turns) + 1 else 0
  {
    assert (turns + [t])[..|turns|] == turns;
  }

  /** A question is listed as answered exactly when it has answers. */
  lemma {:induction false} AnsweredHaveAnswers(turns: seq<Turn>, id: string)
    ensures id in AnsweredIds(turns) <==> AnswersTo(turns, id) != []
    ensures forall i, j :: 0 <= i < j < |AnsweredIds(turns)| ==> AnsweredIds(turns)[i] != AnsweredIds(turns)[j]
    ensures forall t :: t in AnswersTo(turns, id) ==> t.Answer? && t.questionId == id
  {
    if turns != [] { AnsweredHaveAnswers(turns[..|turns| - 1], id); }
  }
}
