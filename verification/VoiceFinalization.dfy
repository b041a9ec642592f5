/**
 `finalize_voice_transcripts`: recording the answers of a finished voice session turn by turn, with
 a commit after each, so that a run cut by an exception can be resumed by another.
 */
module VoiceFinalization {
  import opened Numbers
  import opened Questions
  import Exam

  datatype Role = User | Assistant | OtherRole

  datatype Utterance = Utterance(role: Role, content: string)

  /**
   The blueprint, the two text measures (similarity of texts, and whether a text is blank), and the
   evaluation of a turn as an answer to a question, given the questions of the turns recorded before.
   */
  datatype Voice = Voice(
    questions: seq<Question>,
    transcript: seq<Utterance>,
    ratio: (string, string) -> real,
    blank: string -> bool,
    evaluate: (nat, string, map<nat, string>) -> Exam.Evaluation)

  /** One evidence record: which turn was recorded, as an answer to which question, with what evaluation. */
  datatype Entry = Entry(position: nat, question: string, evaluation: Exam.Evaluation)

  /** The committed state: recorded turns with their questions, mastery, asked ids, and the evidence log. */
  datatype Recording = Recording(
    recorded: map<nat, string>,
    mastery: map<string, Exam.Mastery>,
    asked: seq<string>,
    log: seq<Entry>)

  // ----- matching -----

  /** `max(scored)` over the first `n` questions: the first of the best matches. */
  function BestOf(v: Voice, text: string, n: nat): nat
    requires 0 < n <= |v.questions|
    ensures BestOf(v, text, n) < n
    ensures forall i :: 0 <= i < n ==> v.ratio(text, v.questions[i].text) <= v.ratio(text, v.questions[BestOf(v, text, n)].text)
    ensures forall i :: 0 <= i < BestOf(v, text, n) ==>
              v.ratio(text, v.questions[i].text) < v.ratio(text, v.questions[BestOf(v, text, n)].text)
  {
    if n == 1 then 0
    else
      var best := BestOf(v, text, n - 1);
      if v.ratio(text, v.questions[n - 1].text) > v.ratio(text, v.questions[best].text) then n - 1 else best
  }

  /** The assistant's text settles the question: it is not blank and close enough to some question. */
  predicate TextDecides(v: Voice, text: string) {
    !v.blank(text) && exists i :: 0 <= i < |v.questions| && v.ratio(text, v.questions[i].text) >= 0.20
  }

  function MatchQuestion(v: Voice, text: string, answerIndex: nat): nat
    requires v.questions != []
    ensures MatchQuestion(v, text, answerIndex) < |v.questions|
  {
    var best := BestOf(v, text, |v.questions|);
    if !v.blank(text) && v.ratio(text, v.questions[best].text) >= 0.20 then best
    else MinInt(answerIndex, |v.questions| - 1)
  }

  lemma MatchByTextOrPosition(v: Voice, text: string, k: nat)
    requires v.questions != []
    ensures MatchQuestion(v, text, k) == if TextDecides(v, text) then BestOf(v, text, |v.questions|) else MinInt(k, |v.questions| - 1)
  {}

  // ----- reading the transcript -----

  predicate IsAnswer(v: Voice, u: Utterance) {
    u.role == User && !v.blank(u.content)
  }

  /** The positions of the non-blank user turns before `i`. */
  function AnswerPositions(v: Voice, i: nat): seq<nat>
    requires i <= |v.transcript|
  {
    if i == 0 then []
    else AnswerPositions(v, i - 1) + if IsAnswer(v, v.transcript[i - 1]) then [i - 1] else []
  }

  function AllAnswers(v: Voice): seq<nat> {
    AnswerPositions(v, |v.transcript|)
  }

  /** The last assistant text before `i`; empty if there is none. */
  function TextBefore(v: Voice, i: nat): string
    requires i <= |v.transcript|
  {
    if i == 0 then ""
    else if v.transcript[i - 1].role == Assistant then v.transcript[i - 1].content
    else TextBefore(v, i - 1)
  }

  lemma {:induction false} PositionsPrefix(v: Voice, i: nat, j: nat)
    requires i <= j <= |v.transcript|
    ensures AnswerPositions(v, i) <= AnswerPositions(v, j)
    decreases j - i
  {
    if i < j { PositionsPrefix(v, i, j - 1); }
  }

  lemma {:induction false} PositionsExact(v: Voice, i: nat)
    requires i <= |v.transcript|
    ensures forall p :: p in AnswerPositions(v, i) <==> 0 <= p < i && IsAnswer(v, v.transcript[p])
    ensures forall a, b :: 0 <= a < b < |AnswerPositions(v, i)| ==> AnswerPositions(v, i)[a] < AnswerPositions(v, i)[b]
  {
    if i > 0 {
      PositionsExact(v, i - 1);
      var front := AnswerPositions(v, i - 1);
      forall a | 0 <= a < |front| ensures front[a] < i - 1 { assert front[a] in front; }
    }
  }

  // ----- one run -----

  function Note(asked: seq<string>, id: string): seq<string> {
    if id in asked then asked else asked + [id]
  }

  function NoteAll(asked: seq<string>, entries: seq<Entry>): seq<string> {
    if entries == [] then asked
    else Note(NoteAll(asked, entries[..|entries| - 1]), entries[|entries| - 1].question)
  }

  /**
   The class holds what is committed after each turn. `cut` is the position at which the run raises
   an exception, or past the end if it never does; the asked ids are stored only by a run that ends.
   */
  class VoiceExam {
    const voice: Voice
    var recorded: map<nat, string>
    var mastery: map<string, Exam.Mastery>
    var asked: seq<string>
    var log: seq<Entry>

    constructor (voice: Voice, asked: seq<string>)
      ensures this.voice == voice && View() == Recording(map[], map[], asked, [])
    {
      this.voice, this.asked := voice, asked;
      recorded, mastery, log := map[], map[], [];
    }

    function View(): Recording
      reads this
    {
      Recording(recorded, mastery, asked, log)
    }

    method FinalizeVoiceTranscripts(cut: nat) returns (finished: bool)
      modifies this
      ensures finished <==> cut > |voice.transcript| || voice.questions == []
      ensures View() == if voice.questions == [] then old(View()) else Run(voice, old(View()), cut)
    {
      if voice.questions == [] {
        return true;
      }
      var lastAssistantText := "";
      var answerIndex := 0;
      var noted := asked;
      var i := 0;
      while i < |voice.transcript|
        invariant i <= cut && i <= |voice.transcript|
        invariant RunFrom(voice, View(), i, lastAssistantText, answerIndex, noted, cut) == Run(voice, old(View()), cut)
      {
        if i == cut {
          return false;
        }
        var turn := voice.transcript[i];
        if turn.role == Assistant {
          lastAssistantText := turn.content;
        } else if turn.role == User && !voice.blank(turn.content) && i !in recorded {
          var question := voice.questions[MatchQuestion(voice, lastAssistantText, answerIndex)];
          Record(i, question.id, voice.evaluate(i, question.id, recorded));
          answerIndex := answerIndex + 1;
          noted := Note(noted, question.id);
        }
        i := i + 1;
      }
      if cut == |voice.transcript| {
        return false;
      }
      asked := noted;
      finished := true;
    }

    /** Stores one turn's question, evaluation and evidence, committed on its own. */
    method Record(position: nat, questionId: string, evaluation: Exam.Evaluation)
      modifies `recorded, `mastery, `log
      ensures View() == Recorded(old(View()), Entry(position, questionId, evaluation))
    {
      recorded := recorded[position := questionId];
      mastery := mastery[questionId := Exam.MasteryFrom(evaluation)];
      log := log + [Entry(position, questionId, evaluation)];
    }
  }

  /** The rest of a run from turn `i` on, with the locals it has built up. */
  function RunFrom(v: Voice, r: Recording, i: nat, text: string, k: nat, noted: seq<string>, cut: nat): Recording
    requires v.questions != [] && i <= |v.transcript|
    decreases |v.transcript| - i
  {
    if i == cut then r
    else if i == |v.transcript| then r.(asked := noted)
    else
      var turn := v.transcript[i];
      if turn.role == Assistant then RunFrom(v, r, i + 1, turn.content, k, noted, cut)
      else if !IsAnswer(v, turn) || i in r.recorded then RunFrom(v, r, i + 1, text, k, noted, cut)
      else
        var e := EntryFor(v, r, i, text, k);
        RunFrom(v, Recorded(r, e), i + 1, text, k + 1, Note(noted, e.question), cut)
  }

  /** What is recorded for the answer at `i`, matched as answer number `k` behind the assistant's text. */
  function EntryFor(v: Voice, r: Recording, i: nat, text: string, k: nat): Entry
    requires v.questions != []
  {
    var id := v.questions[MatchQuestion(v, text, k)].id;
    Entry(i, id, v.evaluate(i, id, r.recorded))
  }

  function Run(v: Voice, r: Recording, cut: nat): Recording
    requires v.questions != []
  {
    RunFrom(v, r, 0, "", 0, r.asked, cut)
  }

  function Recorded(r: Recording, e: Entry): Recording {
    r.(recorded := r.recorded[e.position := e.question],
       mastery := r.mastery[e.question := Exam.MasteryFrom(e.evaluation)],
       log := r.log + [e])
  }

  /** The mastery record that evidence builds up, entry by entry. */
  function Replayed(log: seq<Entry>): map<string, Exam.Mastery> {
    if log == [] then map[]
    else
      var last := log[|log| - 1];
      Replayed(log[..|log| - 1])[last.question := Exam.MasteryFrom(last.evaluation)]
  }

  lemma NoteOne(asked: seq<string>, log: seq<Entry>, from: nat, e: Entry)
    requires from <= |log|
    ensures NoteAll(asked, (log + [e])[from..]) == Note(NoteAll(asked, log[from..]), e.question)
  {
    assert (log + [e])[from..] == log[from..] + [e];
    assert (log[from..] + [e])[..|log[from..]|] == log[from..];
  }

  /** The state of a run before it looks at turn `i`. */
  ghost predicate Reached(v: Voice, start: Recording, r: Recording, i: nat, text: string, k: nat, noted: seq<string>)
    requires v.questions != []
  {
    i <= |v.transcript| && text == TextBefore(v, i)
    && Resumable(v, r) && r.asked == start.asked && Continues(v, start, r)
    && |r.log| == MaxInt(|start.log|, |AnswerPositions(v, i)|)
    && k == |r.log| - |start.log|
    && noted == NoteAll(start.asked, r.log[|start.log|..])
  }

  lemma Skips(v: Voice, start: Recording, r: Recording, i: nat, text: string, k: nat, noted: seq<string>)
    requires v.questions != [] && Reached(v, start, r, i, text, k, noted) && i < |v.transcript|
    requires !IsAnswer(v, v.transcript[i]) || i in r.recorded
    ensures var next := if v.transcript[i].role == Assistant then v.transcript[i].content else text;
            Reached(v, start, r, i + 1, next, k, noted)
  {
    if IsAnswer(v, v.transcript[i]) { RecordedExactly(v, r, i); }
  }

  lemma Records(v: Voice, start: Recording, r: Recording, i: nat, text: string, k: nat, noted: seq<string>)
    requires v.questions != [] && Reached(v, start, r, i, text, k, noted) && i < |v.transcript|
    requires IsAnswer(v, v.transcript[i]) && i !in r.recorded
    ensures var e := EntryFor(v, r, i, text, k);
            Reached(v, start, Recorded(r, e), i + 1, text, k + 1, Note(noted, e.question))
  {
    var e := EntryFor(v, r, i, text, k);
    RecordedExactly(v, r, i);
    RecordKeepsResumable(v, r, e);
    RecordContinues(v, start, r, e);
    NoteOne(start.asked, r.log, |start.log|, e);
  }

  lemma RecordKeepsResumable(v: Voice, r: Recording, e: Entry)
    requires Resumable(v, r) && |r.log| < |AllAnswers(v)| && AllAnswers(v)[|r.log|] == e.position
    requires e.position !in r.recorded && e.evaluation == v.evaluate(e.position, e.question, r.recorded)
    ensures Resumable(v, Recorded(r, e))
  {
    var after := Recorded(r, e);
    assert after.log[..|r.log|] == r.log;
    forall j: nat ensures EvaluatedAt(v, after.log, j) {
      assert EvaluatedAt(v, r.log, j);
      if j < |r.log| { assert after.log[..j] == r.log[..j]; }
    }
    forall j: nat ensures Logged(v, after, j) {
      assert Logged(v, r, j);
    }
    forall p: nat ensures LoggedOnce(v, after, p) {
      assert LoggedOnce(v, r, p);
      if p == e.position {
        assert after.log[|r.log|].position == p;
      } else if p in r.recorded {
        var j :| 0 <= j < |r.log| && r.log[j].position == p;
        assert after.log[j].position == p;
      }
    }
  }

  lemma RecordContinues(v: Voice, start: Recording, r: Recording, e: Entry)
    requires v.questions != [] && Continues(v, start, r)
    requires e.position < |v.transcript| && |r.log| < |AllAnswers(v)| && AllAnswers(v)[|r.log|] == e.position
    requires e.question == v.questions[MatchQuestion(v, TextBefore(v, e.position), |r.log| - |start.log|)].id
    ensures Continues(v, start, Recorded(r, e))
  {
    var after := Recorded(r, e);
    forall j: nat ensures Matched(v, |start.log|, after.log, j) {
      assert Matched(v, |start.log|, r.log, j);
    }
    assert after.log[..|start.log|] == r.log[..|start.log|];
  }

  /** Entry `j` of the log is about the `j`-th answer of the transcript, which is recorded with its question. */
  ghost predicate Logged(v: Voice, r: Recording, j: nat) {
    j < |r.log| && j < |AllAnswers(v)| ==>
      r.log[j].position == AllAnswers(v)[j]
      && r.log[j].position in r.recorded && r.recorded[r.log[j].position] == r.log[j].question
  }

  ghost predicate LoggedOnce(v: Voice, r: Recording, p: nat) {
    p in r.recorded ==> exists j :: 0 <= j < |r.log| && r.log[j].position == p
  }

  /**
   The log records the first answers of the transcript in order, each evaluated on those before it, the
   recorded turns are just those, and the mastery record is what the log builds up.
   */
  ghost predicate Resumable(v: Voice, r: Recording) {
    |r.log| <= |AllAnswers(v)|
    && (forall j: nat :: Logged(v, r, j))
    && (forall p: nat :: LoggedOnce(v, r, p))
    && r.mastery == Replayed(r.log)
    && r.recorded == QuestionsOn(r.log) && (forall j: nat :: EvaluatedAt(v, r.log, j))
  }

  /** The questions of the turns on the log. */
  function QuestionsOn(log: seq<Entry>): map<nat, string> {
    if log == [] then map[]
    else
      var last := log[|log| - 1];
      QuestionsOn(log[..|log| - 1])[last.position := last.question]
  }

  /** Entry `j` is evaluated on what was recorded before it. */
  ghost predicate EvaluatedAt(v: Voice, log: seq<Entry>, j: nat) {
    j < |log| ==> log[j].evaluation == v.evaluate(log[j].position, log[j].question, QuestionsOn(log[..j]))
  }

  /** Entry `j` was matched as the answer number `j - from`. */
  ghost predicate Matched(v: Voice, from: nat, log: seq<Entry>, j: nat)
    requires v.questions != []
  {
    from <= j < |log| && j < |AllAnswers(v)| ==>
      AllAnswers(v)[j] <= |v.transcript|
      && log[j].question == v.questions[MatchQuestion(v, TextBefore(v, AllAnswers(v)[j]), j - from)].id
  }

  /** `after` extends the log of `before`, counting answers from the first one `before` had not recorded. */
  ghost predicate Continues(v: Voice, before: Recording, after: Recording)
    requires v.questions != []
  {
    |before.log| <= |after.log| <= |AllAnswers(v)| && after.log[..|before.log|] == before.log
    && forall j: nat :: Matched(v, |before.log|, after.log, j)
  }

  /** What one run does: it records the unrecorded answers before the cut, and stores the asked ids if it ends. */
  ghost predicate RunsTo(v: Voice, before: Recording, after: Recording, cut: nat)
    requires v.questions != []
  {
    Continues(v, before, after)
    && |after.log| == MaxInt(|before.log|, |AnswerPositions(v, MinInt(cut, |v.transcript|))|)
    && after.asked == if cut > |v.transcript| then NoteAll(before.asked, after.log[|before.log|..]) else before.asked
  }

  /** A non-blank user turn is recorded already exactly when its rank is within the log. */
  lemma RecordedExactly(v: Voice, r: Recording, i: nat)
    requires Resumable(v, r) && i < |v.transcript| && IsAnswer(v, v.transcript[i])
    ensures var rank := |AnswerPositions(v, i)|;
            rank < |AllAnswers(v)| && AllAnswers(v)[rank] == i
            && (i in r.recorded <==> rank < |r.log|)
  {
    var rank := |AnswerPositions(v, i)|;
    PositionsPrefix(v, i + 1, |v.transcript|);
    PositionsExact(v, |v.transcript|);
    assert AnswerPositions(v, i + 1)[rank] == i;
    assert Logged(v, r, rank);
    assert LoggedOnce(v, r, i);
    if i in r.recorded {
      var j :| 0 <= j < |r.log| && r.log[j].position == i;
      assert Logged(v, r, j);
      assert j == rank;
    }
  }

  /** A run that started on `start` has left `after`. */
  ghost predicate LeftBy(v: Voice, start: Recording, after: Recording, cut: nat)
    requires v.questions != []
  {
    Resumable(v, after) && RunsTo(v, start, after, cut)
  }

  lemma RunEnds(v: Voice, start: Recording, r: Recording, i: nat, text: string, k: nat, noted: seq<string>, cut: nat)
    requires v.questions != [] && Reached(v, start, r, i, text, k, noted) && i <= cut
    requires i == cut || i == |v.transcript|
    ensures LeftBy(v, start, RunFrom(v, r, i, text, k, noted, cut), cut)
  {
    if i != cut { StoringKeeps(v, start, r, noted); }
  }

  lemma {:induction false} RunFromRunsTo(v: Voice, start: Recording, r: Recording, i: nat, text: string, k: nat,
                                         noted: seq<string>, cut: nat)
    requires v.questions != [] && Reached(v, start, r, i, text, k, noted) && i <= cut
    ensures LeftBy(v, start, RunFrom(v, r, i, text, k, noted, cut), cut)
    decreases |v.transcript| - i
  {
    if i == cut || i == |v.transcript| {
      RunEnds(v, start, r, i, text, k, noted, cut);
    } else {
      var turn := v.transcript[i];
      if turn.role == Assistant {
        Skips(v, start, r, i, text, k, noted);
        RunFromRunsTo(v, start, r, i + 1, turn.content, k, noted, cut);
      } else if !IsAnswer(v, turn) || i in r.recorded {
        Skips(v, start, r, i, text, k, noted);
        RunFromRunsTo(v, start, r, i + 1, text, k, noted, cut);
      } else {
        var e := EntryFor(v, r, i, text, k);
        Records(v, start, r, i, text, k, noted);
        RunFromRunsTo(v, start, Recorded(r, e), i + 1, text, k + 1, Note(noted, e.question), cut);
      }
    }
  }

  lemma StoringKeeps(v: Voice, start: Recording, r: Recording, asked: seq<string>)
    requires v.questions != [] && Resumable(v, r) && Continues(v, start, r)
    ensures Resumable(v, r.(asked := asked)) && Continues(v, start, r.(asked := asked))
  {
    var after := r.(asked := asked);
    forall j: nat ensures Logged(v, after, j) { assert Logged(v, r, j); }
    forall p: nat ensures LoggedOnce(v, after, p) { assert LoggedOnce(v, r, p); }
    forall j: nat ensures EvaluatedAt(v, after.log, j) { assert EvaluatedAt(v, r.log, j); }
  }

  /** A run started on a resumable recording leaves one. */
  lemma RunIsResumable(v: Voice, start: Recording, cut: nat)
    requires v.questions != [] && Resumable(v, start)
    ensures Resumable(v, Run(v, start, cut)) && RunsTo(v, start, Run(v, start, cut), cut)
  {
    assert start.log[|start.log|..] == [];
    forall j: nat ensures Matched(v, |start.log|, start.log, j) {}
    RunFromRunsTo(v, start, start, 0, "", 0, start.asked, cut);
  }
}
