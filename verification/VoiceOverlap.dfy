/**
 Callers that finalise side by side: each reads which turns are recorded once, at its start, so that an
 answer may be recorded twice. Exactly when, in any history.
 */
module VoiceOverlap {
  import opened VoiceCompletion
  import opened VoiceFinalization
  import opened VoiceResumption
  import opened VoiceProtocol

  /** Event `x` is a turn at position `p` of the transcript, taken by a caller at work. */
  predicate TurnsAt(v: Voice, s: State, w: Work, events: seq<Event>, x: nat, p: nat)
    requires v.questions != [] && x < |events|
  {
    events[x].Turn?
    && CanTurn(v, Before(s, events, x), WorkBefore(v, s, w, events, x), events[x].c)
    && WorkBefore(v, s, w, events, x).locals[events[x].c].next == p
  }

  /** Event `b` is the start of a run. */
  predicate BeginsAt(s: State, events: seq<Event>, b: nat)
    requires b < |events|
  {
    events[b].Mark? && At(Before(s, events, b), events[b].c, Claimed)
  }

  ghost predicate TakenBefore(v: Voice, s: State, w: Work, events: seq<Event>, j: nat, p: nat)
    requires v.questions != [] && j <= |events|
  {
    exists x :: 0 <= x < j && TurnsAt(v, s, w, events, x, p)
  }

  predicate Answerable(v: Voice, p: nat) {
    p < |v.transcript| && v.transcript[p].role == User && !v.blank(v.transcript[p].content)
  }

  // ----- which turns are recorded -----

  /** A run knows of no recorded turn that is not recorded. */
  ghost predicate KnowsTruly(s: State, w: Work) {
    forall c :: At(s, c, Working) ==> c in w.locals && w.locals[c].own.recorded.Keys <= w.recording.recorded.Keys
  }

  lemma CommitKeys(v: Voice, r: Recording, l: Local)
    requires v.questions != [] && l.next < |v.transcript| && l.own.recorded.Keys <= r.recorded.Keys
    ensures Committed(v, r, l).recorded.Keys == r.recorded.Keys + (if Answerable(v, l.next) then {l.next} else {})
    ensures Looked(v, l).own.recorded.Keys == l.own.recorded.Keys + (if Answerable(v, l.next) then {l.next} else {})
  {}

  lemma KnowsTrulyStep(v: Voice, s: State, w: Work, e: Event)
    requires v.questions != [] && KnowsTruly(s, w)
    ensures KnowsTruly(Step(s, e), Advance(v, s, w, e))
  {
    var t, after := Step(s, e), Advance(v, s, w, e);
    if e.Turn? && CanTurn(v, s, w, e.c) { CommitKeys(v, w.recording, w.locals[e.c]); }
    forall c | At(t, c, Working)
      ensures c in after.locals && after.locals[c].own.recorded.Keys <= after.recording.recorded.Keys
    {
      assert At(s, c, Working) || (e == Mark(c) && At(s, c, Claimed));
    }
  }

  lemma {:induction false} KnowsTrulyAlways(v: Voice, s: State, w: Work, events: seq<Event>, j: nat)
    requires v.questions != [] && j <= |events| && Quiet(s)
    ensures KnowsTruly(Before(s, events, j), WorkBefore(v, s, w, events, j))
    decreases j
  {
    if j == 0 {
      forall c ensures !At(s, c, Working) { assert !Finalises(s, c); }
    } else {
      KnowsTrulyAlways(v, s, w, events, j - 1);
      KnowsTrulyStep(v, Before(s, events, j - 1), WorkBefore(v, s, w, events, j - 1), events[j - 1]);
    }
  }

  /** The recorded turns, after one more event. */
  lemma RecordedOneMore(v: Voice, s: State, w: Work, events: seq<Event>, j: nat, p: nat)
    requires v.questions != [] && j < |events| && Quiet(s)
    ensures p in WorkBefore(v, s, w, events, j + 1).recording.recorded <==>
            p in WorkBefore(v, s, w, events, j).recording.recorded
            || (Answerable(v, p) && TurnsAt(v, s, w, events, j, p))
  {
    KnowsTrulyAlways(v, s, w, events, j);
    var before, work := Before(s, events, j), WorkBefore(v, s, w, events, j);
    if events[j].Turn? && CanTurn(v, before, work, events[j].c) {
      CommitKeys(v, work.recording, work.locals[events[j].c]);
    }
  }

  ghost predicate RecordedTold(v: Voice, s: State, w: Work, events: seq<Event>, j: nat, p: nat)
    requires v.questions != [] && j <= |events|
  {
    p in WorkBefore(v, s, w, events, j).recording.recorded <==>
    Answerable(v, p) && TakenBefore(v, s, w, events, j, p)
  }

  lemma RecordedToldStep(v: Voice, s: State, w: Work, events: seq<Event>, j: nat, p: nat)
    requires v.questions != [] && j < |events| && Quiet(s) && RecordedTold(v, s, w, events, j, p)
    ensures RecordedTold(v, s, w, events, j + 1, p)
  {
    RecordedOneMore(v, s, w, events, j, p);
    TakenOneMore(v, s, w, events, j, p);
  }

  lemma {:induction false} RecordedIsTold(v: Voice, s: State, w: Work, events: seq<Event>, j: nat, p: nat)
    requires v.questions != [] && j <= |events| && Quiet(s) && w.recording.recorded == map[]
    ensures RecordedTold(v, s, w, events, j, p)
    decreases j
  {
    if j > 0 {
      RecordedIsTold(v, s, w, events, j - 1, p);
      RecordedToldStep(v, s, w, events, j - 1, p);
    }
  }

  /** A turn is recorded exactly when it is an answer and some caller has taken it. */
  lemma RecordedIsTaken(v: Voice, s: State, w: Work, events: seq<Event>, j: nat, p: nat)
    requires v.questions != [] && j <= |events| && Quiet(s) && w.recording.recorded == map[]
    ensures p in WorkBefore(v, s, w, events, j).recording.recorded <==>
            Answerable(v, p) && TakenBefore(v, s, w, events, j, p)
  {
    RecordedIsTold(v, s, w, events, j, p);
  }

  lemma TakenOneMore(v: Voice, s: State, w: Work, events: seq<Event>, j: nat, p: nat)
    requires v.questions != [] && j < |events|
    ensures TakenBefore(v, s, w, events, j + 1, p) <==> TakenBefore(v, s, w, events, j, p) || TurnsAt(v, s, w, events, j, p)
  {}

  // ----- one run -----

  /** A caller that was at work is at work, done, or dead. */
  lemma {:induction false} WorkedStays(s: State, events: seq<Event>, x: nat, j: nat, c: nat)
    requires x <= j <= |events| && At(Before(s, events, x), c, Working)
    ensures var t := Before(s, events, j); c < |t.callers| && t.callers[c] in {Working, Done, Dead}
    decreases j
  {
    if x < j {
      WorkedStays(s, events, x, j - 1, c);
      ClaimantStep(Before(s, events, j - 1), c, events[j - 1]);
    }
  }

  /**
   What a caller at work knows before event `i`, when its run began at event `b`: of the turns still
   ahead, those recorded by then; and it is past every turn it has taken.
   */
  ghost predicate KnowsSince(v: Voice, s: State, w: Work, events: seq<Event>, b: nat, i: nat, c: nat)
    requires v.questions != [] && b < i <= |events|
  {
    var now := WorkBefore(v, s, w, events, i);
    c in now.locals
    && (forall q: nat :: q >= now.locals[c].next ==>
          (q in now.locals[c].own.recorded <==> q in WorkBefore(v, s, w, events, b).recording.recorded))
    && (forall x, p: nat :: b < x < i && TurnsAt(v, s, w, events, x, p) && events[x].c == c ==> p < now.locals[c].next)
  }

  lemma KnowsOneMore(v: Voice, s: State, w: Work, events: seq<Event>, b: nat, i: nat, c: nat)
    requires v.questions != [] && b < i < |events| && KnowsSince(v, s, w, events, b, i, c)
    requires At(Before(s, events, i), c, Working)
    ensures KnowsSince(v, s, w, events, b, i + 1, c)
  {
    var now, next := WorkBefore(v, s, w, events, i), WorkBefore(v, s, w, events, i + 1);
    assert next.locals[c].next >= now.locals[c].next;
    forall q: nat | q >= next.locals[c].next
      ensures q in next.locals[c].own.recorded <==> q in now.locals[c].own.recorded
    {}
    forall x, p: nat | b < x < i + 1 && TurnsAt(v, s, w, events, x, p) && events[x].c == c
      ensures p < next.locals[c].next
    {}
  }

  lemma NobodyAtFirst(s: State, c: nat)
    requires Quiet(s)
    ensures !At(s, c, Working)
  {
    assert !Finalises(s, c);
  }

  /** The start of the run a caller is at work on. */
  lemma {:induction false} RunBegan(v: Voice, s: State, w: Work, events: seq<Event>, i: nat, c: nat) returns (b: nat)
    requires v.questions != [] && i <= |events| && Quiet(s) && At(Before(s, events, i), c, Working)
    ensures b < i && BeginsAt(s, events, b) && events[b].c == c && KnowsSince(v, s, w, events, b, i, c)
    decreases i
  {
    NobodyAtFirst(s, c);
    if At(Before(s, events, i - 1), c, Working) {
      b := RunBegan(v, s, w, events, i - 1, c);
      KnowsOneMore(v, s, w, events, b, i - 1, c);
    } else {
      b := i - 1;
    }
  }

  /** A caller begins only one run, and takes turns only after that. */
  lemma BeginsOnce(s: State, events: seq<Event>, b: nat, x: nat, c: nat)
    requires b < |events| && x <= |events| && BeginsAt(s, events, b) && events[b].c == c
    requires At(Before(s, events, x), c, Working)
    ensures b < x
  {
    if x <= b { WorkedStays(s, events, x, b, c); }
  }

  lemma SameBeginning(s: State, events: seq<Event>, a: nat, b: nat)
    requires a < |events| && b < |events| && BeginsAt(s, events, a) && BeginsAt(s, events, b) && events[a].c == events[b].c
    ensures a == b
  {
    if a < b { BeginsOnce(s, events, b, a + 1, events[b].c); }
    if b < a { BeginsOnce(s, events, a, b + 1, events[a].c); }
  }

  /** No caller takes a turn twice. */
  lemma TakesOnce(v: Voice, s: State, w: Work, events: seq<Event>, x: nat, y: nat, p: nat)
    requires v.questions != [] && x < y < |events| && Quiet(s)
    requires TurnsAt(v, s, w, events, x, p) && TurnsAt(v, s, w, events, y, p)
    ensures events[x].c != events[y].c
  {
    var b := RunBegan(v, s, w, events, y, events[y].c);
    if events[x].c == events[y].c {
      BeginsOnce(s, events, b, x, events[y].c);
    }
  }

  // ----- recorded twice -----

  /** Event `y` puts another entry for `p` on the log. */
  predicate RecordsAt(v: Voice, s: State, w: Work, events: seq<Event>, y: nat, p: nat)
    requires v.questions != [] && y < |events|
  {
    TurnsAt(v, s, w, events, y, p) && Answerable(v, p)
    && p !in WorkBefore(v, s, w, events, y).locals[events[y].c].own.recorded
  }

  /** A turn is recorded exactly when it was not recorded yet as the run began. */
  lemma RecordsExactly(v: Voice, s: State, w: Work, events: seq<Event>, b: nat, y: nat, p: nat)
    requires v.questions != [] && b < |events| && y < |events| && Quiet(s) && w.recording.recorded == map[]
    requires BeginsAt(s, events, b) && TurnsAt(v, s, w, events, y, p) && events[b].c == events[y].c
    ensures RecordsAt(v, s, w, events, y, p) <==> Answerable(v, p) && !TakenBefore(v, s, w, events, b, p)
  {
    var began := RunBegan(v, s, w, events, y, events[y].c);
    SameBeginning(s, events, b, began);
    RecordedIsTaken(v, s, w, events, b, p);
  }

  ghost predicate OnLog(log: seq<Entry>, p: nat) {
    exists k :: RecordedAt(log, k, p)
  }

  ghost predicate Twice(log: seq<Entry>, p: nat) {
    exists i, k :: i < k && RecordedAt(log, i, p) && RecordedAt(log, k, p)
  }

  lemma LogOneMore(log: seq<Entry>, e: Entry, p: nat)
    ensures OnLog(log + [e], p) <==> OnLog(log, p) || e.position == p
    ensures Twice(log + [e], p) <==> Twice(log, p) || (e.position == p && OnLog(log, p))
  {
    var all := log + [e];
    forall k ensures RecordedAt(all, k, p) <==> RecordedAt(log, k, p) || (k == |log| && e.position == p) {}
    if k :| RecordedAt(log, k, p) {
      assert RecordedAt(all, k, p);
      if e.position == p { assert k < |log| && RecordedAt(all, |log|, p); }
    }
    if e.position == p { assert RecordedAt(all, |log|, p); }
    if i, k :| i < k && RecordedAt(log, i, p) && RecordedAt(log, k, p) {
      assert RecordedAt(all, i, p) && RecordedAt(all, k, p);
    }
  }

  lemma LogStep(v: Voice, s: State, w: Work, events: seq<Event>, j: nat, p: nat)
    requires v.questions != [] && j < |events|
    ensures var log, next := WorkBefore(v, s, w, events, j).recording.log, WorkBefore(v, s, w, events, j + 1).recording.log;
            (OnLog(next, p) <==> OnLog(log, p) || RecordsAt(v, s, w, events, j, p))
            && (Twice(next, p) <==> Twice(log, p) || (RecordsAt(v, s, w, events, j, p) && OnLog(log, p)))
  {
    var work := WorkBefore(v, s, w, events, j);
    if events[j].Turn? && CanTurn(v, Before(s, events, j), work, events[j].c) && Takes(v, work.locals[events[j].c]) {
      var l := work.locals[events[j].c];
      LogOneMore(work.recording.log, EntryFor(v, l.own, l.next, l.text, l.answers), p);
    }
  }

  /** Some caller records the turn when it is on the log already. */
  ghost predicate RecordsAgain(v: Voice, s: State, w: Work, events: seq<Event>, y: int, p: nat)
    requires v.questions != []
  {
    0 <= y < |events| && RecordsAt(v, s, w, events, y, p) && TakenBefore(v, s, w, events, y, p)
  }

  ghost predicate AgainBefore(v: Voice, s: State, w: Work, events: seq<Event>, j: nat, p: nat)
    requires v.questions != []
  {
    exists y :: y < j && RecordsAgain(v, s, w, events, y, p)
  }

  lemma AgainOneMore(v: Voice, s: State, w: Work, events: seq<Event>, j: nat, p: nat)
    requires v.questions != []
    ensures AgainBefore(v, s, w, events, j + 1, p) <==>
            AgainBefore(v, s, w, events, j, p) || RecordsAgain(v, s, w, events, j, p)
  {}

  /** What is on the log, and what twice, is told by the turns taken. */
  ghost predicate LogTold(v: Voice, s: State, w: Work, events: seq<Event>, j: nat, p: nat)
    requires v.questions != [] && j <= |events|
  {
    var log := WorkBefore(v, s, w, events, j).recording.log;
    (OnLog(log, p) <==> Answerable(v, p) && TakenBefore(v, s, w, events, j, p))
    && (Twice(log, p) <==> AgainBefore(v, s, w, events, j, p))
  }

  lemma LogToldStep(v: Voice, s: State, w: Work, events: seq<Event>, j: nat, p: nat)
    requires v.questions != [] && j < |events| && Quiet(s) && w.recording.recorded == map[]
    requires LogTold(v, s, w, events, j, p)
    ensures LogTold(v, s, w, events, j + 1, p)
  {
    LogStep(v, s, w, events, j, p);
    TakenOneMore(v, s, w, events, j, p);
    FirstTakeRecords(v, s, w, events, j, p);
    AgainOneMore(v, s, w, events, j, p);
  }

  lemma {:induction false} LogIsTold(v: Voice, s: State, w: Work, events: seq<Event>, j: nat, p: nat)
    requires v.questions != [] && j <= |events| && Quiet(s) && w.recording.recorded == map[] && w.recording.log == []
    ensures LogTold(v, s, w, events, j, p)
    decreases j
  {
    if j > 0 {
      LogIsTold(v, s, w, events, j - 1, p);
      LogToldStep(v, s, w, events, j - 1, p);
    }
  }

  /** An answer taken for the first time is recorded. */
  lemma FirstTakeRecords(v: Voice, s: State, w: Work, events: seq<Event>, x: nat, p: nat)
    requires v.questions != [] && x < |events| && Quiet(s) && w.recording.recorded == map[]
    ensures TurnsAt(v, s, w, events, x, p) && Answerable(v, p) && !TakenBefore(v, s, w, events, x, p) ==>
              RecordsAt(v, s, w, events, x, p)
  {
    KnowsTrulyAlways(v, s, w, events, x);
    RecordedIsTaken(v, s, w, events, x, p);
  }

  /** Before event `x` takes the turn for the first time, another run has begun, at `b`, which takes it at `y`. */
  ghost predicate SideBySide(v: Voice, s: State, w: Work, events: seq<Event>, b: int, x: int, y: int, p: nat)
    requires v.questions != []
  {
    0 <= b < x < y < |events|
    && TurnsAt(v, s, w, events, x, p) && !TakenBefore(v, s, w, events, x, p)
    && BeginsAt(s, events, b) && TurnsAt(v, s, w, events, y, p) && events[b].c == events[y].c
  }

  lemma {:induction false} FirstTake(v: Voice, s: State, w: Work, events: seq<Event>, j: nat, p: nat) returns (x: nat)
    requires v.questions != [] && j <= |events| && TakenBefore(v, s, w, events, j, p)
    ensures x < j && TurnsAt(v, s, w, events, x, p) && !TakenBefore(v, s, w, events, x, p)
    decreases j
  {
    TakenOneMore(v, s, w, events, j - 1, p);
    if TakenBefore(v, s, w, events, j - 1, p) {
      x := FirstTake(v, s, w, events, j - 1, p);
    } else {
      x := j - 1;
    }
  }

  lemma AgainIsSideBySide(v: Voice, s: State, w: Work, events: seq<Event>, y: nat, p: nat) returns (b: nat, x: nat)
    requires v.questions != [] && Quiet(s) && w.recording.recorded == map[] && RecordsAgain(v, s, w, events, y, p)
    ensures SideBySide(v, s, w, events, b, x, y, p)
  {
    b := RunBegan(v, s, w, events, y, events[y].c);
    x := FirstTake(v, s, w, events, y, p);
    RecordsExactly(v, s, w, events, b, y, p);
  }

  lemma SideBySideIsAgain(v: Voice, s: State, w: Work, events: seq<Event>, b: int, x: int, y: int, p: nat)
    requires v.questions != [] && Quiet(s) && w.recording.recorded == map[]
    requires SideBySide(v, s, w, events, b, x, y, p) && Answerable(v, p)
    ensures RecordsAgain(v, s, w, events, y, p)
  {
    RecordsExactly(v, s, w, events, b, y, p);
    assert TakenBefore(v, s, w, events, y, p);
  }

  /**
   In any history that starts with nothing recorded, an answer is recorded twice exactly when another
   caller had begun its run before the answer was first taken, and goes on to take it too.
   */
  lemma RecordedTwiceExactly(v: Voice, s: State, asked: seq<string>, heard: nat, events: seq<Event>, j: nat, p: nat)
    requires v.questions != [] && j <= |events| && Quiet(s)
    ensures Twice(WorkBefore(v, s, Fresh(asked, heard), events, j).recording.log, p) <==>
            Answerable(v, p) && exists b, x, y :: y < j && SideBySide(v, s, Fresh(asked, heard), events, b, x, y, p)
  {
    var w := Fresh(asked, heard);
    LogIsTold(v, s, w, events, j, p);
    if y :| y < j && RecordsAgain(v, s, w, events, y, p) {
      var b, x := AgainIsSideBySide(v, s, w, events, y, p);
    }
    if b, x, y :| y < j && SideBySide(v, s, w, events, b, x, y, p) && Answerable(v, p) {
      SideBySideIsAgain(v, s, w, events, b, x, y, p);
    }
  }

  /** For that the two callers must finalise at the same time, and so a connect write took effect between their claims. */
  lemma RecordedTwiceNeedsOverlap(v: Voice, s: State, w: Work, events: seq<Event>, b: int, x: int, y: int, p: nat)
    requires v.questions != [] && Quiet(s) && SideBySide(v, s, w, events, b, x, y, p)
    ensures SharedAt(s, events, x) && exists i, m, k :: Overlap(s, events, i, m, k, x)
  {
    var c, d := events[x].c, events[y].c;
    TakesOnce(v, s, w, events, x, y, p);
    WorkedStays(s, events, b + 1, x, d);
    if !At(Before(s, events, x), d, Working) { GoneStays(s, events, x, y, d); }
    assert Finalises(Before(s, events, x), c) && Finalises(Before(s, events, x), d);
    SharedExactly(s, events, x);
  }

  lemma {:induction false} GoneStays(s: State, events: seq<Event>, x: nat, j: nat, c: nat)
    requires x <= j <= |events| && c < |Before(s, events, x).callers| && Before(s, events, x).callers[c] in {Done, Dead}
    ensures c < |Before(s, events, j).callers| && Before(s, events, j).callers[c] in {Done, Dead}
    decreases j
  {
    if x < j {
      GoneStays(s, events, x, j - 1, c);
      ClaimantStep(Before(s, events, j - 1), c, events[j - 1]);
    }
  }

  // ----- whole columns -----

  /**
   A run writes the mastery record as a whole, as it knows it: of another question, the committed entry
   survives exactly when the run knows the same, or its own record does not change.
   */
  lemma MasteryKeptExactly(v: Voice, w: Work, c: nat, id: string)
    requires v.questions != [] && c in w.locals && w.locals[c].next < |v.transcript| && Takes(v, w.locals[c])
    requires id != EntryFor(v, w.locals[c].own, w.locals[c].next, w.locals[c].text, w.locals[c].answers).question
    ensures var l, after := w.locals[c], TakeTurn(v, w, c);
            ((id in after.recording.mastery <==> id in w.recording.mastery)
             && (id in w.recording.mastery && id in after.recording.mastery ==>
                   after.recording.mastery[id] == w.recording.mastery[id]))
            <==>
            (after.locals[c].own.mastery == l.own.mastery
             || ((id in l.own.mastery <==> id in w.recording.mastery)
                 && (id in w.recording.mastery && id in l.own.mastery ==> l.own.mastery[id] == w.recording.mastery[id])))
  {}

  /**
   A run that ends writes the asked ids as it has noted them, over whatever another run stored since, unless
   it has noted nothing new.
   */
  lemma AskedKeptExactly(v: Voice, s: State, w: Work, c: nat)
    requires v.questions != [] && CanStore(s, w, c)
    ensures var l, after := w.locals[c], Advance(v, s, w, Store(c)).recording;
            (l.noted != l.own.asked ==> after.asked == l.noted)
            && (after.asked == w.recording.asked <==> l.noted == l.own.asked || l.noted == w.recording.asked)
            && after == w.recording.(asked := after.asked)
  {}

  // ----- an instance -----

  const TWO_CALLERS := State(Ready, Pending, [Idle, Idle], map[])

  /** Two claims around a connect write, two runs begun, and the first turn taken by both. */
  const BESIDE: seq<Event> := [Arrive(0), Arrive(1), Read(0), Claim(0), Write(0), Claim(1),
                               Mark(0), Mark(1), Turn(0), Turn(1)]

  lemma BesideStates()
    ensures Before(TWO_CALLERS, BESIDE, 6) == State(Finalizing, VoiceActive, [Claimed, Claimed], map[])
  {
    assert Before(TWO_CALLERS, BESIDE, 1).callers == [Prepared, Idle];
    assert Before(TWO_CALLERS, BESIDE, 2) == State(Ready, Pending, [Prepared, Prepared], map[]);
    assert Before(TWO_CALLERS, BESIDE, 3) == State(Ready, Pending, [Prepared, Prepared], map[0 := Ready]);
    assert Before(TWO_CALLERS, BESIDE, 4) == State(Finalizing, Pending, [Claimed, Prepared], map[0 := Ready]);
    assert Before(TWO_CALLERS, BESIDE, 5) == State(Connected, VoiceActive, [Claimed, Prepared], map[]);
  }

  lemma BesideWorking()
    ensures Before(TWO_CALLERS, BESIDE, 7).callers == [Working, Claimed]
    ensures Before(TWO_CALLERS, BESIDE, 8).callers == Before(TWO_CALLERS, BESIDE, 9).callers == [Working, Working]
  {
    BesideStates();
    assert Before(TWO_CALLERS, BESIDE, 7) == State(Finalizing, VoiceFinalizing, [Working, Claimed], map[]);
    assert Before(TWO_CALLERS, BESIDE, 8) == State(Finalizing, VoiceFinalizing, [Working, Working], map[]);
  }

  lemma {:induction false} NothingTaken(v: Voice, w: Work, i: nat)
    requires v.questions != [] && i <= 6
    ensures WorkBefore(v, TWO_CALLERS, w, BESIDE, i) == w
  {
    if i > 0 {
      NothingTaken(v, w, i - 1);
      assert BESIDE[i - 1] in {Arrive(0), Arrive(1), Read(0), Claim(0), Write(0), Claim(1)};
    }
  }

  lemma BesideWork(v: Voice)
    requires v.questions != [] && v.transcript == [Utterance(User, "a")] && !v.blank("a")
    ensures var w := Fresh([], 1);
            TurnsAt(v, TWO_CALLERS, w, BESIDE, 8, 0) && TurnsAt(v, TWO_CALLERS, w, BESIDE, 9, 0)
  {
    var w := Fresh([], 1);
    var run := Begun(w);
    BesideStates();
    BesideWorking();
    NothingTaken(v, w, 6);
    assert WorkBefore(v, TWO_CALLERS, w, BESIDE, 7) == w.(locals := map[0 := run]);
    assert WorkBefore(v, TWO_CALLERS, w, BESIDE, 8) == w.(locals := map[0 := run, 1 := run]);
    FirstTurnTaken(v, w.(locals := map[0 := run, 1 := run]));
  }

  lemma FirstTurnTaken(v: Voice, w: Work)
    requires v.questions != [] && |v.transcript| == 1
    requires WorkBefore(v, TWO_CALLERS, Fresh([], 1), BESIDE, 8) == w
    requires w.locals == map[0 := Begun(Fresh([], 1)), 1 := Begun(Fresh([], 1))]
    ensures TurnsAt(v, TWO_CALLERS, Fresh([], 1), BESIDE, 8, 0) && TurnsAt(v, TWO_CALLERS, Fresh([], 1), BESIDE, 9, 0)
  {
    BesideWorking();
    assert BESIDE[8] == Turn(0) && BESIDE[9] == Turn(1);
    assert WorkBefore(v, TWO_CALLERS, Fresh([], 1), BESIDE, 9) == TakeTurn(v, w, 0);
  }

  lemma BesideIsSideBySide(v: Voice)
    requires v.questions != [] && v.transcript == [Utterance(User, "a")] && !v.blank("a")
    ensures SideBySide(v, TWO_CALLERS, Fresh([], 1), BESIDE, 7, 8, 9, 0)
  {
    SecondBegins();
    BesideWork(v);
    NoTurnYet(v, Fresh([], 1));
    assert BESIDE[7].c == BESIDE[9].c;
  }

  lemma SecondBegins()
    ensures BeginsAt(TWO_CALLERS, BESIDE, 7)
  {
    BesideWorking();
  }

  lemma NoTurnYet(v: Voice, w: Work)
    requires v.questions != []
    ensures !TakenBefore(v, TWO_CALLERS, w, BESIDE, 8, 0)
  {
    assert forall x :: 0 <= x < 8 ==> !BESIDE[x].Turn?;
  }

  /** Two callers side by side record the one answer of a transcript twice. */
  lemma AnswerRecordedTwice(v: Voice)
    requires v.questions != [] && v.transcript == [Utterance(User, "a")] && !v.blank("a")
    ensures Twice(WorkBefore(v, TWO_CALLERS, Fresh([], 1), BESIDE, |BESIDE|).recording.log, 0)
  {
    BesideIsSideBySide(v);
    assert Quiet(TWO_CALLERS) && Answerable(v, 0);
    RecordedTwiceExactly(v, TWO_CALLERS, [], 1, BESIDE, |BESIDE|, 0);
  }
}
