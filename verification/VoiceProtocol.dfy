/**
 The two halves of `complete_voice_session` together: interleaved callers that claim, and the
 transcript each claimant records turn by turn until it ends, fails, or dies. A session in fixed order
 is completed in the same way, with no turns taken.
 */
module VoiceProtocol {
  import opened Numbers
  import opened VoiceCompletion
  import opened VoiceFinalization
  import opened VoiceResumption

  /**
   A claimant's run. It reads the session at its start and never again: `seen` turns of the transcript,
   and in `own` the session's rows as it knows them, which its own commits keep up to date.
   */
  datatype Local = Local(next: nat, text: string, answers: nat, noted: seq<string>, own: Recording, seen: nat)

  /** The committed rows, the runs, and how many turns the transcript has by now. */
  datatype Work = Work(recording: Recording, locals: map<nat, Local>, heard: nat)

  function Begun(w: Work): Local {
    Local(0, "", 0, w.recording.asked, w.recording, w.heard)
  }

  predicate Takes(v: Voice, l: Local) {
    l.next < |v.transcript| && IsAnswer(v, v.transcript[l.next]) && l.next !in l.own.recorded
  }

  /** What a run has built up once it has looked at its next turn. */
  function Looked(v: Voice, l: Local): Local
    requires v.questions != [] && l.next < |v.transcript|
  {
    var turn := v.transcript[l.next];
    if turn.role == Assistant then l.(next := l.next + 1, text := turn.content)
    else if !Takes(v, l) then l.(next := l.next + 1)
    else
      var e := EntryFor(v, l.own, l.next, l.text, l.answers);
      l.(next := l.next + 1, answers := l.answers + 1, noted := Note(l.noted, e.question), own := Recorded(l.own, e))
  }

  /** A column set to the value it was read with is not written. */
  function Written<T(==)>(now: T, read: T, value: T): T {
    if value == read then now else value
  }

  /** The commit of one turn: the turn's own columns, its evidence, and the mastery column as a whole. */
  function Committed(v: Voice, r: Recording, l: Local): Recording
    requires v.questions != [] && l.next < |v.transcript|
  {
    if v.transcript[l.next].role == Assistant || !Takes(v, l) then r
    else
      var e := EntryFor(v, l.own, l.next, l.text, l.answers);
      Recording(r.recorded[e.position := e.question], Written(r.mastery, l.own.mastery, Recorded(l.own, e).mastery),
                r.asked, r.log + [e])
  }

  function TakeTurn(v: Voice, w: Work, c: nat): Work
    requires v.questions != [] && c in w.locals && w.locals[c].next < |v.transcript|
  {
    var l := w.locals[c];
    w.(recording := Committed(v, w.recording, l), locals := w.locals[c := Looked(v, l)])
  }

  predicate CanTurn(v: Voice, s: State, w: Work, c: nat) {
    At(s, c, Working) && c in w.locals && w.locals[c].next < w.locals[c].seen && w.locals[c].seen <= |v.transcript|
  }

  predicate CanStore(s: State, w: Work, c: nat) {
    At(s, c, Working) && c in w.locals && w.locals[c].next == w.locals[c].seen
  }

  /** What an event does to the recorded transcript; `s` is the state it happens in. */
  function Advance(v: Voice, s: State, w: Work, e: Event): Work
    requires v.questions != []
  {
    match e
    case Mark(c) => if At(s, c, Claimed) then w.(locals := w.locals[c := Begun(w)]) else w
    case Turn(c) => if CanTurn(v, s, w, c) then TakeTurn(v, w, c) else w
    case Store(c) =>
      if CanStore(s, w, c) then
        var l := w.locals[c];
        w.(recording := w.recording.(asked := Written(w.recording.asked, l.own.asked, l.noted)),
           locals := w.locals[c := l.(next := l.next + 1, own := l.own.(asked := l.noted))])
      else w
    case Hear => if w.heard < |v.transcript| then w.(heard := w.heard + 1) else w
    case _ => w
  }

  /** The recorded transcript before event `i` of a history; `v` holds all the turns that are ever heard. */
  function WorkBefore(v: Voice, s: State, w: Work, events: seq<Event>, i: nat): Work
    requires v.questions != [] && i <= |events|
  {
    if i == 0 then w
    else Advance(v, Before(s, events, i - 1), WorkBefore(v, s, w, events, i - 1), events[i - 1])
  }

  function CountHeard(events: seq<Event>, j: nat): nat
    requires j <= |events|
  {
    if j == 0 then 0 else CountHeard(events, j - 1) + if events[j - 1] == Hear then 1 else 0
  }

  /** The transcript has the turns heard so far, and a run goes by those heard when it began. */
  lemma {:induction false} HeardExactly(v: Voice, s: State, w: Work, events: seq<Event>, j: nat)
    requires v.questions != [] && j <= |events| && w.heard <= |v.transcript|
    ensures WorkBefore(v, s, w, events, j).heard == MinInt(|v.transcript|, w.heard + CountHeard(events, j))
    ensures j < |events| && events[j].Mark? && At(Before(s, events, j), events[j].c, Claimed) ==>
              var locals := WorkBefore(v, s, w, events, j + 1).locals;
              events[j].c in locals && locals[events[j].c].next == 0
              && locals[events[j].c].seen == MinInt(|v.transcript|, w.heard + CountHeard(events, j))
    decreases j
  {
    if j > 0 { HeardExactly(v, s, w, events, j - 1); }
  }

  // ----- a claimant's turns are a run -----

  /** `l` is where a run on `base` stands, over the turns it read. */
  ghost predicate RunsAlong(v: Voice, base: Recording, l: Local)
    requires v.questions != []
  {
    l.seen <= |v.transcript| && l.next <= l.seen + 1
    && l.own == Run(Upto(v, l.seen), base, l.next)
    && (l.next <= l.seen ==> forall cut: nat :: cut >= l.next ==> EndsAlike(v, base, l, cut))
  }

  ghost predicate EndsAlike(v: Voice, base: Recording, l: Local, cut: nat)
    requires v.questions != [] && l.next <= l.seen <= |v.transcript|
  {
    Run(Upto(v, l.seen), base, cut) == RunFrom(Upto(v, l.seen), l.own, l.next, l.text, l.answers, l.noted, cut)
  }

  lemma RunStarts(v: Voice, w: Work)
    requires v.questions != [] && w.heard <= |v.transcript|
    ensures RunsAlong(v, w.recording, Begun(w))
  {}

  lemma SameEntry(v: Voice, n: nat, r: Recording, i: nat, text: string, k: nat)
    requires v.questions != []
    ensures EntryFor(Upto(v, n), r, i, text, k) == EntryFor(v, r, i, text, k)
  {
    SameMatch(v, n, text, k);
  }

  lemma TurnRunsAlong(v: Voice, base: Recording, l: Local)
    requires v.questions != [] && RunsAlong(v, base, l) && l.next < l.seen
    ensures RunsAlong(v, base, Looked(v, l))
  {
    var t := Looked(v, l);
    SameEntry(v, l.seen, l.own, l.next, l.text, l.answers);
    forall cut: nat | cut >= t.next ensures EndsAlike(v, base, t, cut) {
      assert EndsAlike(v, base, l, cut);
    }
    assert EndsAlike(v, base, t, t.next);
  }

  lemma StoreRunsAlong(v: Voice, base: Recording, l: Local)
    requires v.questions != [] && RunsAlong(v, base, l) && l.next == l.seen
    ensures RunsAlong(v, base, l.(next := l.next + 1, own := l.own.(asked := l.noted)))
  {
    assert EndsAlike(v, base, l, l.seen + 1);
  }

  // ----- histories without overlap are series of runs -----

  /** At most one caller finalises, and then nobody else can claim. */
  ghost predicate Orderly(s: State) {
    (forall c, d :: Finalises(s, c) && Finalises(s, d) ==> c == d)
    && (forall c :: Finalises(s, c) ==> s.voice == Finalizing)
  }

  ghost predicate Quiet(s: State) {
    forall c :: !Finalises(s, c)
  }

  /** No connect write takes effect while somebody finalises. */
  ghost predicate WritesBetweenRuns(s: State, events: seq<Event>, j: nat)
    requires j <= |events|
  {
    forall m :: 0 <= m < j && OverwritesAt(s, events, m) ==> Quiet(Before(s, events, m))
  }

  function CountOverwrites(s: State, events: seq<Event>, j: nat): nat
    requires j <= |events|
  {
    if j == 0 then 0 else CountOverwrites(s, events, j - 1) + if OverwritesAt(s, events, j - 1) then 1 else 0
  }

  lemma OrderlyStep(s: State, e: Event)
    requires Orderly(s) && (Overwrites(s, e) ==> Quiet(s))
    ensures Orderly(Step(s, e))
  {
    var t := Step(s, e);
    if Overwrites(s, e) {
      forall c ensures !Finalises(t, c) { assert !Finalises(s, c); }
    } else if e.Finish? && At(s, e.c, Working) {
      assert Finalises(s, e.c);
      forall c ensures !Finalises(t, c) { assert c != e.c && Finalises(t, c) ==> Finalises(s, c); }
    } else {
      forall c | Finalises(t, c) ensures t.voice == Finalizing && (Finalises(s, c) || (e == Claim(c) && Claimable(s))) {
        if Finalises(s, c) { assert s.voice == Finalizing; }
      }
    }
  }

  /** A claimant at work is in the middle of a run on the committed rows. */
  ghost predicate InRun(v: Voice, base: Recording, w: Work, c: nat, atLeast: nat)
    requires v.questions != []
  {
    c in w.locals && RunsAlong(v, base, w.locals[c]) && w.locals[c].own == w.recording
    && atLeast <= w.locals[c].seen <= w.heard
  }

  function LastSeen(runs: seq<Attempt>): nat {
    if runs == [] then 0 else runs[|runs| - 1].seen
  }

  /** After the given runs, the claimant at work, if any, is in the middle of one more. */
  ghost predicate InSeries(v: Voice, start: Recording, s: State, w: Work, runs: seq<Attempt>)
    requires v.questions != []
  {
    var base := Series(v, start, runs);
    Growing(v, runs) && LastSeen(runs) <= w.heard <= |v.transcript|
    && (forall c :: At(s, c, Working) ==> InRun(v, base, w, c, LastSeen(runs)))
    && ((forall c :: !At(s, c, Working)) ==> w.recording == base)
  }

  /** Runs that ended, the one going on, and the one still possible: no more than effective connect writes allow. */
  ghost predicate WithinWrites(s: State, runs: seq<Attempt>, writes: nat) {
    |runs| + (if Quiet(s) then 0 else 1) + (if Claimable(s) then 1 else 0) <= writes + 1
  }

  lemma SeriesOneMore(v: Voice, start: Recording, runs: seq<Attempt>, run: Attempt)
    requires v.questions != [] && Growing(v, runs) && LastSeen(runs) <= run.seen <= |v.transcript|
    ensures Series(v, start, runs + [run]) == Run(Upto(v, run.seen), Series(v, start, runs), run.cut)
    ensures Growing(v, runs + [run]) && LastSeen(runs + [run]) == run.seen
  {
    assert (runs + [run])[..|runs|] == runs;
    if runs != [] {
      forall i | 0 <= i < |runs| ensures runs[i].seen <= run.seen {
        assert runs[i].seen <= runs[|runs| - 1].seen;
      }
    }
  }

  /** The runs that ended, after one more event. */
  function RunsAfter(s: State, w: Work, e: Event, runs: seq<Attempt>): seq<Attempt> {
    if (e.Finish? || e.Crash?) && At(s, e.c, Working) && e.c in w.locals
    then runs + [Attempt(w.locals[e.c].seen, w.locals[e.c].next)]
    else runs
  }

  lemma MarkStep(v: Voice, start: Recording, s: State, w: Work, runs: seq<Attempt>, e: Event)
    requires v.questions != [] && Orderly(s) && InSeries(v, start, s, w, runs) && e.Mark?
    ensures InSeries(v, start, Step(s, e), Advance(v, s, w, e), runs)
  {
    if At(s, e.c, Claimed) {
      assert Finalises(s, e.c);
      forall c ensures !At(s, c, Working) { assert Finalises(s, c) ==> c == e.c; }
      RunStarts(v, w);
      var t := Step(s, e);
      forall c ensures At(t, c, Working) <==> c == e.c || At(s, c, Working) {}
    }
  }

  lemma TurnInRun(v: Voice, base: Recording, w: Work, c: nat, atLeast: nat)
    requires v.questions != [] && InRun(v, base, w, c, atLeast) && w.locals[c].next < w.locals[c].seen
    ensures InRun(v, base, TakeTurn(v, w, c), c, atLeast)
  {
    TurnRunsAlong(v, base, w.locals[c]);
  }

  lemma WorkerStep(v: Voice, start: Recording, s: State, w: Work, runs: seq<Attempt>, e: Event)
    requires v.questions != [] && Orderly(s) && InSeries(v, start, s, w, runs)
    requires e.Turn? || e.Store?
    ensures InSeries(v, start, Step(s, e), Advance(v, s, w, e), runs)
  {
    if At(s, e.c, Working) {
      forall c | At(s, c, Working) ensures c == e.c {
        assert Finalises(s, c) && Finalises(s, e.c);
      }
      var base := Series(v, start, runs);
      assert InRun(v, base, w, e.c, LastSeen(runs));
      if e.Turn? && CanTurn(v, s, w, e.c) {
        TurnInRun(v, base, w, e.c, LastSeen(runs));
      } else if e.Store? && CanStore(s, w, e.c) {
        StoreRunsAlong(v, base, w.locals[e.c]);
      }
    }
  }

  lemma LeavingStep(v: Voice, start: Recording, s: State, w: Work, runs: seq<Attempt>, e: Event)
    requires v.questions != [] && Orderly(s) && InSeries(v, start, s, w, runs)
    requires e.Finish? || e.Crash?
    ensures InSeries(v, start, Step(s, e), w, RunsAfter(s, w, e, runs))
  {
    var t := Step(s, e);
    if At(s, e.c, Working) {
      forall c ensures !At(t, c, Working) {
        assert At(s, c, Working) ==> Finalises(s, c) && Finalises(s, e.c);
      }
      assert InRun(v, Series(v, start, runs), w, e.c, LastSeen(runs));
      SeriesOneMore(v, start, runs, Attempt(w.locals[e.c].seen, w.locals[e.c].next));
    } else {
      forall c ensures At(t, c, Working) <==> At(s, c, Working) {}
    }
  }

  lemma OtherStep(v: Voice, start: Recording, s: State, w: Work, runs: seq<Attempt>, e: Event)
    requires v.questions != [] && InSeries(v, start, s, w, runs)
    requires e.Arrive? || e.Claim? || e.Read? || e.Write? || e.Hear?
    ensures InSeries(v, start, Step(s, e), Advance(v, s, w, e), runs)
  {
    var t, after := Step(s, e), Advance(v, s, w, e);
    var base := Series(v, start, runs);
    forall c ensures At(t, c, Working) <==> At(s, c, Working) {}
    forall c | At(t, c, Working) ensures InRun(v, base, after, c, LastSeen(runs)) {
      assert InRun(v, base, w, c, LastSeen(runs));
    }
  }

  lemma WritesStep(s: State, w: Work, runs: seq<Attempt>, writes: nat, e: Event)
    requires Orderly(s) && (Overwrites(s, e) ==> Quiet(s)) && WithinWrites(s, runs, writes)
    ensures WithinWrites(Step(s, e), RunsAfter(s, w, e, runs), writes + if Overwrites(s, e) then 1 else 0)
  {
    var t := Step(s, e);
    if e.Claim? && At(s, e.c, Prepared) && Claimable(s) {
      assert Quiet(s);
    } else if (e.Finish? || e.Crash?) && At(s, e.c, Working) {
      assert Finalises(s, e.c);
      forall c ensures !Finalises(t, c) {
        if Finalises(t, c) { assert c != e.c && Finalises(s, c); }
      }
    } else {
      forall c ensures Finalises(t, c) ==> Finalises(s, c) {}
    }
  }

  lemma SeriesStep(v: Voice, start: Recording, s: State, w: Work, runs: seq<Attempt>, e: Event)
    requires v.questions != [] && Orderly(s) && InSeries(v, start, s, w, runs)
    ensures InSeries(v, start, Step(s, e), Advance(v, s, w, e), RunsAfter(s, w, e, runs))
  {
    if e.Mark? {
      MarkStep(v, start, s, w, runs, e);
    } else if e.Turn? || e.Store? {
      WorkerStep(v, start, s, w, runs, e);
    } else if e.Finish? || e.Crash? {
      LeavingStep(v, start, s, w, runs, e);
    } else {
      OtherStep(v, start, s, w, runs, e);
    }
  }

  /** What holds throughout a history without overlap. */
  ghost predicate RunsSoFar(v: Voice, start: Recording, s: State, w: Work, runs: seq<Attempt>, writes: nat)
    requires v.questions != []
  {
    Orderly(s) && InSeries(v, start, s, w, runs) && WithinWrites(s, runs, writes)
  }

  lemma RunsStep(v: Voice, start: Recording, s: State, w: Work, runs: seq<Attempt>, writes: nat, e: Event)
    requires v.questions != [] && RunsSoFar(v, start, s, w, runs, writes) && (Overwrites(s, e) ==> Quiet(s))
    ensures RunsSoFar(v, start, Step(s, e), Advance(v, s, w, e), RunsAfter(s, w, e, runs),
                      writes + if Overwrites(s, e) then 1 else 0)
  {
    OrderlyStep(s, e);
    SeriesStep(v, start, s, w, runs, e);
    WritesStep(s, w, runs, writes, e);
  }

  lemma RunsStart(v: Voice, s: State, w: Work)
    requires v.questions != [] && Quiet(s) && w.heard <= |v.transcript|
    ensures RunsSoFar(v, w.recording, s, w, [], 0)
  {
    forall c ensures !At(s, c, Working) { assert !Finalises(s, c); }
  }

  lemma {:induction false} SeriesSoFar(v: Voice, s: State, w: Work, events: seq<Event>, j: nat) returns (runs: seq<Attempt>)
    requires v.questions != [] && j <= |events| && w.heard <= |v.transcript|
    requires Quiet(s) && WritesBetweenRuns(s, events, j)
    ensures RunsSoFar(v, w.recording, Before(s, events, j), WorkBefore(v, s, w, events, j), runs,
                      CountOverwrites(s, events, j))
    decreases j
  {
    if j == 0 {
      runs := [];
      RunsStart(v, s, w);
    } else {
      var before, e, work := Before(s, events, j - 1), events[j - 1], WorkBefore(v, s, w, events, j - 1);
      var earlier := SeriesSoFar(v, s, w, events, j - 1);
      assert Overwrites(before, e) == OverwritesAt(s, events, j - 1);
      runs := RunsAfter(before, work, e, earlier);
      RunsStep(v, w.recording, before, work, earlier, CountOverwrites(s, events, j - 1), e);
    }
  }

  /** The rows are those a series of runs leaves. */
  ghost predicate IsSeries(v: Voice, start: Recording, r: Recording, runs: seq<Attempt>, most: nat)
    requires v.questions != []
  {
    Growing(v, runs) && |runs| <= most && r == Series(v, start, runs)
  }

  /**
   However the callers interleave and the transcript grows, as long as no connect write takes effect while
   one finalises, what is recorded is what a series of cut runs records, and there are at most as many runs
   after the first as there were such writes.
   */
  lemma HistoryIsSeries(v: Voice, s: State, w: Work, events: seq<Event>, j: nat) returns (runs: seq<Attempt>)
    requires v.questions != [] && j <= |events| && w.heard <= |v.transcript|
    requires Quiet(s) && WritesBetweenRuns(s, events, j)
    ensures IsSeries(v, w.recording, WorkBefore(v, s, w, events, j).recording, runs, 1 + CountOverwrites(s, events, j))
  {
    runs := SeriesSoFar(v, s, w, events, j);
    runs := LastRun(v, w.recording, Before(s, events, j), WorkBefore(v, s, w, events, j), runs, CountOverwrites(s, events, j));
  }

  /** The run going on, if any, counts as one more, cut where it stands. */
  lemma LastRun(v: Voice, start: Recording, s: State, w: Work, ended: seq<Attempt>, writes: nat) returns (runs: seq<Attempt>)
    requires v.questions != [] && RunsSoFar(v, start, s, w, ended, writes)
    ensures IsSeries(v, start, w.recording, runs, 1 + writes)
  {
    runs := ended;
    if c :| At(s, c, Working) {
      assert Finalises(s, c) && InRun(v, Series(v, start, ended), w, c, LastSeen(ended));
      var run := Attempt(w.locals[c].seen, w.locals[c].next);
      SeriesOneMore(v, start, ended, run);
      runs := ended + [run];
    }
  }

  // ----- what follows for the records -----

  /** A session before anybody finalised it, with the given number of turns heard. */
  function Fresh(asked: seq<string>, heard: nat): Work {
    Work(Unrecorded(asked), map[], heard)
  }

  /** However callers interleave without overlap, answers are recorded in transcript order, each at most once. */
  lemma RecordedInOrder(v: Voice, s: State, asked: seq<string>, heard: nat, events: seq<Event>, j: nat)
    requires v.questions != [] && j <= |events| && heard <= |v.transcript|
    requires Quiet(s) && WritesBetweenRuns(s, events, j)
    ensures InOrder(v, WorkBefore(v, s, Fresh(asked, heard), events, j).recording.log)
  {
    var runs := HistoryIsSeries(v, s, Fresh(asked, heard), events, j);
    SeriesIsResumable(v, asked, runs, |v.transcript|);
    ResumableInOrder(v, Series(v, Unrecorded(asked), runs));
  }

  lemma {:induction false} LogGrows(v: Voice, r: Recording, i: nat, text: string, k: nat, noted: seq<string>, cut: nat)
    requires v.questions != [] && i <= |v.transcript| && i <= cut
    ensures r.log <= RunFrom(v, r, i, text, k, noted, cut).log
    decreases |v.transcript| - i
  {
    if i < cut && i < |v.transcript| {
      var turn := v.transcript[i];
      if turn.role == Assistant {
        LogGrows(v, r, i + 1, turn.content, k, noted, cut);
      } else if !IsAnswer(v, turn) || i in r.recorded {
        LogGrows(v, r, i + 1, text, k, noted, cut);
      } else {
        var e := EntryFor(v, r, i, text, k);
        LogGrows(v, Recorded(r, e), i + 1, text, k + 1, Note(noted, e.question), cut);
      }
    }
  }

  /** A cut run over a beginning of the transcript records a beginning of what the uncut run over all of it records. */
  lemma {:induction false} CutIsBeginning(v: Voice, n: nat, r: Recording, i: nat, text: string, k: nat, noted: seq<string>, cut: nat)
    requires v.questions != [] && i <= n <= |v.transcript| && i <= cut
    ensures RunFrom(Upto(v, n), r, i, text, k, noted, cut).log <= RunFrom(v, r, i, text, k, noted, |v.transcript| + 1).log
    decreases |v.transcript| - i
  {
    if i == cut || i == n {
      LogGrows(v, r, i, text, k, noted, |v.transcript| + 1);
    } else {
      var turn := v.transcript[i];
      if turn.role == Assistant {
        CutIsBeginning(v, n, r, i + 1, turn.content, k, noted, cut);
      } else if !IsAnswer(v, turn) || i in r.recorded {
        CutIsBeginning(v, n, r, i + 1, text, k, noted, cut);
      } else {
        var e := EntryFor(v, r, i, text, k);
        SameEntry(v, n, r, i, text, k);
        CutIsBeginning(v, n, Recorded(r, e), i + 1, text, k + 1, Note(noted, e.question), cut);
      }
    }
  }

  lemma NothingOverwritten(s: State, events: seq<Event>, j: nat)
    requires j <= |events| && NoOverwrite(s, events, 0, j)
    ensures CountOverwrites(s, events, j) == 0
    decreases j
  {
    if j > 0 { NothingOverwritten(s, events, j - 1); }
  }

  /**
   Without an effective connect write nothing is ever resumed: whoever claims, fails or dies, what is
   recorded is the beginning of what one uncut run records, question by question and evaluation by evaluation.
   */
  lemma WithoutConnectNothingMismatches(v: Voice, s: State, asked: seq<string>, heard: nat, events: seq<Event>, j: nat)
    requires v.questions != [] && j <= |events| && heard <= |v.transcript| && Quiet(s) && NoOverwrite(s, events, 0, j)
    ensures WorkBefore(v, s, Fresh(asked, heard), events, j).recording.log <= Uncut(v, asked).log
  {
    var w := Fresh(asked, heard);
    var runs := HistoryIsSeries(v, s, w, events, j);
    NothingOverwritten(s, events, j);
    if runs != [] {
      assert runs == [runs[0]] && runs[..0] == [];
      assert Series(v, w.recording, runs) == Run(Upto(v, runs[0].seen), Series(v, w.recording, runs[..0]), runs[0].cut);
      CutIsBeginning(v, runs[0].seen, w.recording, 0, "", 0, asked, runs[0].cut);
    }
  }

  /** Something is recorded only by a turn a caller at work takes. */
  lemma {:induction false} LogHasTurn(v: Voice, s: State, w: Work, events: seq<Event>, j: nat)
    requires v.questions != [] && j <= |events| && w.recording.log == []
    requires WorkBefore(v, s, w, events, j).recording.log != []
    ensures exists t: nat :: t < j && events[t].Turn? && At(Before(s, events, t), events[t].c, Working)
    decreases j
  {
    if WorkBefore(v, s, w, events, j - 1).recording.log != [] {
      LogHasTurn(v, s, w, events, j - 1);
    } else {
      assert events[j - 1].Turn? && At(Before(s, events, j - 1), events[j - 1].c, Working);
    }
  }

  /** Two claims before event `j` with an effective connect write between them. */
  ghost predicate WriteBetweenClaims(s: State, events: seq<Event>, i: int, m: int, k: int, j: nat)
    requires j <= |events|
  {
    0 <= i < m < k < j && ClaimsAt(s, events, i) && OverwritesAt(s, events, m) && ClaimsAt(s, events, k)
  }

  lemma DifferentClaims(s: State, events: seq<Event>, t: nat, j: nat) returns (i: nat, k: nat)
    requires t < j < |events| && Quiet(s)
    requires events[t].Turn? && At(Before(s, events, t), events[t].c, Working)
    requires events[j].Mark? && At(Before(s, events, j), events[j].c, Claimed)
    ensures i < t && k < j && i != k && ClaimsAt(s, events, i) && ClaimsAt(s, events, k)
  {
    var c, d := events[t].c, events[j].c;
    i := FinaliserClaimed(s, events, c, t);
    k := FinaliserClaimed(s, events, d, j);
    if i == k {
      ClaimLives(s, events, i, t);
      ClaimLives(s, events, i, j);
      assert false;
    }
  }

  /**
   In any history, overlapping or not, that starts with nothing recorded: a caller that begins its run
   when some turn is recorded already resumes another caller's work, and a connect write took effect
   between their claims.
   */
  lemma ResumedRunFollowsConnect(v: Voice, s: State, w: Work, events: seq<Event>, j: nat)
    requires v.questions != [] && j < |events| && Quiet(s) && w.recording.log == []
    requires events[j].Mark? && At(Before(s, events, j), events[j].c, Claimed)
    requires WorkBefore(v, s, w, events, j).recording.log != []
    ensures exists i, m, k :: WriteBetweenClaims(s, events, i, m, k, j)
  {
    LogHasTurn(v, s, w, events, j);
    var t: nat :| t < j && events[t].Turn? && At(Before(s, events, t), events[t].c, Working);
    var i, k := DifferentClaims(s, events, t, j);
    var first, second := MinInt(i, k), MaxInt(i, k);
    ClaimsAreSeparated(s, events, first, second);
    var m :| first < m < second && OverwritesAt(s, events, m);
    assert WriteBetweenClaims(s, events, first, m, second, j);
  }

  /**
   A failed finalisation does not keep its caller from finishing, and then, until a connect write takes
   effect, nothing that is still unrecorded is ever recorded.
   */
  lemma {:induction false} NothingAfterCompletion(v: Voice, s: State, w: Work, events: seq<Event>, j: nat)
    requires v.questions != [] && j <= |events| && Settled(s) && NoOverwrite(s, events, 0, j)
    ensures Settled(Before(s, events, j))
    ensures WorkBefore(v, s, w, events, j).recording == w.recording
    decreases j
  {
    if j > 0 {
      NothingAfterCompletion(v, s, w, events, j - 1);
      var before := Before(s, events, j - 1);
      assert !OverwritesAt(s, events, j - 1);
      SettledStep(before, events[j - 1]);
      forall c ensures !At(before, c, Working) { assert !Finalises(before, c); }
    }
  }
}
