/**
 `complete_voice_session` as a protocol: any number of callers, interleaved at their commits with
 each other and with the connect requests that write the same rows.
 */
module VoiceCompletion {

  datatype VoiceStatus = Ready | Connected | Finalizing | Completed

  datatype ExamStatus = Pending | VoiceActive | VoiceFinalizing | ExamCompleted

  /** Where a caller stands: after its first read, after its claim, and after it marked the exam. */
  datatype Caller = Idle | Prepared | Claimed | Working | Done | Turned | Dead

  /** `seen` holds, for every connect request under way, the voice status it read at its start. */
  datatype State = State(voice: VoiceStatus, exam: ExamStatus, callers: seq<Caller>, seen: map<nat, VoiceStatus>)

  /**
   A connect request reads the row at its start and writes long after, when the provider has answered.
   Setting the status it read issues no update, so a request that read `Connected` leaves the voice
   status alone, whatever it is by then; the exam is read right before it is written. A request whose
   read and write are one is a `Read` with its `Write` behind it.

   Finalisation itself lies between `Mark` and `Finish`: a `Turn` at a time and then `Store`, none of
   which touches a status. It may fail anywhere without keeping the caller from finishing. `Hear` adds
   a turn to the transcript, which is never refused.
   */
  datatype Event =
    | Arrive(c: nat) | Claim(c: nat) | Mark(c: nat) | Turn(c: nat) | Store(c: nat) | Finish(c: nat) | Crash(c: nat)
    | Read(r: nat) | Write(r: nat) | Hear

  predicate At(s: State, c: nat, pc: Caller) {
    c < |s.callers| && s.callers[c] == pc
  }

  /** The guarded update finds the row: nobody has claimed or completed it. */
  predicate Claimable(s: State) {
    s.voice != Finalizing && s.voice != Completed
  }

  function Step(s: State, e: Event): State {
    match e
    case Arrive(c) =>
      if At(s, c, Idle) then s.(callers := s.callers[c := if s.voice == Completed then Turned else Prepared]) else s
    case Claim(c) =>
      if !At(s, c, Prepared) then s
      else if Claimable(s) then s.(voice := Finalizing, callers := s.callers[c := Claimed])
      else s.(callers := s.callers[c := Turned])
    case Mark(c) =>
      if At(s, c, Claimed) then s.(exam := VoiceFinalizing, callers := s.callers[c := Working]) else s
    case Finish(c) =>
      if At(s, c, Working) then s.(voice := Completed, exam := ExamCompleted, callers := s.callers[c := Done]) else s
    case Crash(c) =>
      if c < |s.callers| then s.(callers := s.callers[c := Dead]) else s
    case Turn(_) => s
    case Store(_) => s
    case Hear => s
    case Read(r) => s.(seen := s.seen[r := s.voice])
    case Write(r) =>
      if r in s.seen then
        s.(voice := if s.seen[r] == Connected then s.voice else Connected, exam := VoiceActive, seen := s.seen - {r})
      else s
  }

  /** A connect write that takes effect: the request had not read `Connected`. */
  predicate Overwrites(s: State, e: Event) {
    e.Write? && e.r in s.seen && s.seen[e.r] != Connected
  }

  /** The state before event `i` of a history. */
  function Before(s: State, events: seq<Event>, i: nat): State
    requires i <= |events|
  {
    if i == 0 then s else Step(Before(s, events, i - 1), events[i - 1])
  }

  predicate Finalises(s: State, c: nat) {
    At(s, c, Claimed) || At(s, c, Working)
  }

  /** Event `i` is a claim that succeeds. */
  predicate ClaimsAt(s: State, events: seq<Event>, i: nat)
    requires i < |events|
  {
    events[i].Claim? && At(Before(s, events, i), events[i].c, Prepared) && Claimable(Before(s, events, i))
  }

  /** Event `m` is a connect write that takes effect. */
  predicate OverwritesAt(s: State, events: seq<Event>, m: nat)
    requires m < |events|
  {
    Overwrites(Before(s, events, m), events[m])
  }

  ghost predicate NoOverwrite(s: State, events: seq<Event>, from: nat, to: nat)
    requires to <= |events|
  {
    forall m :: from <= m < to ==> !OverwritesAt(s, events, m)
  }

  // ----- two claims need an effective connect write between them -----

  lemma {:induction false} ClaimBars(s: State, events: seq<Event>, i: nat, j: nat)
    requires i < j <= |events| && ClaimsAt(s, events, i) && NoOverwrite(s, events, i + 1, j)
    ensures !Claimable(Before(s, events, j))
    decreases j
  {
    if j > i + 1 {
      ClaimBars(s, events, i, j - 1);
      assert !OverwritesAt(s, events, j - 1);
    }
  }

  /** In any history, between two successful claims there is a connect write that takes effect. */
  lemma ClaimsAreSeparated(s: State, events: seq<Event>, i: nat, j: nat)
    requires i < j < |events| && ClaimsAt(s, events, i) && ClaimsAt(s, events, j)
    ensures exists m :: i < m < j && OverwritesAt(s, events, m)
  {
    if NoOverwrite(s, events, i + 1, j) {
      ClaimBars(s, events, i, j);
      assert false;
    }
    var m :| i + 1 <= m < j && OverwritesAt(s, events, m);
  }

  // ----- the life of a claim -----

  predicate MarkedIn(events: seq<Event>, c: nat, i: int, j: nat)
    requires j <= |events|
  {
    exists m :: i < m < j && 0 <= m && events[m] == Mark(c)
  }

  predicate CrashedIn(events: seq<Event>, c: nat, i: int, j: nat)
    requires j <= |events|
  {
    exists m :: i < m < j && 0 <= m && events[m] == Crash(c)
  }

  predicate FinishedIn(events: seq<Event>, c: nat, i: int, j: nat)
    requires j <= |events|
  {
    exists f: nat :: i < f < j && events[f] == Finish(c) && MarkedIn(events, c, i, f)
  }

  /** The caller that claims at event `i` neither crashes nor finishes before event `j`. */
  predicate Unfinished(events: seq<Event>, i: nat, j: nat)
    requires i < j <= |events| && events[i].Claim?
  {
    !CrashedIn(events, events[i].c, i, j) && !FinishedIn(events, events[i].c, i, j)
  }

  lemma MarkedOneMore(events: seq<Event>, c: nat, i: nat, j: nat)
    requires i < j < |events|
    ensures MarkedIn(events, c, i, j + 1) <==> MarkedIn(events, c, i, j) || events[j] == Mark(c)
    ensures CrashedIn(events, c, i, j + 1) <==> CrashedIn(events, c, i, j) || events[j] == Crash(c)
    ensures FinishedIn(events, c, i, j + 1) <==>
            FinishedIn(events, c, i, j) || (events[j] == Finish(c) && MarkedIn(events, c, i, j))
  {
    if MarkedIn(events, c, i, j) {
      var m :| i < m < j && 0 <= m && events[m] == Mark(c);
      assert i < m < j + 1 && events[m] == Mark(c);
    }
    if events[j] == Mark(c) { assert i < j < j + 1; }
    if CrashedIn(events, c, i, j) {
      var m :| i < m < j && 0 <= m && events[m] == Crash(c);
      assert i < m < j + 1 && events[m] == Crash(c);
    }
    if FinishedIn(events, c, i, j) {
      var f: nat :| i < f < j && events[f] == Finish(c) && MarkedIn(events, c, i, f);
      assert i < f < j + 1 && events[f] == Finish(c) && MarkedIn(events, c, i, f);
    }
  }

  /** What one event does to a caller that has claimed. */
  lemma ClaimantStep(s: State, c: nat, e: Event)
    requires c < |s.callers| && s.callers[c] in {Claimed, Working, Done, Dead}
    ensures var t := Step(s, e);
            c < |t.callers|
            && t.callers[c] == (if e == Crash(c) then Dead
                                else if e == Mark(c) && s.callers[c] == Claimed then Working
                                else if e == Finish(c) && s.callers[c] == Working then Done
                                else s.callers[c])
  {}

  /** Where the claiming caller stands later is told by its own later events alone. */
  lemma {:induction false} ClaimLives(s: State, events: seq<Event>, i: nat, j: nat)
    requires i < j <= |events| && ClaimsAt(s, events, i)
    ensures var c, t := events[i].c, Before(s, events, j);
            c < |t.callers| && t.callers[c] in {Claimed, Working, Done, Dead}
            && (At(t, c, Claimed) <==> Unfinished(events, i, j) && !MarkedIn(events, c, i, j))
            && (At(t, c, Working) <==> Unfinished(events, i, j) && MarkedIn(events, c, i, j))
    decreases j
  {
    if j > i + 1 {
      ClaimLives(s, events, i, j - 1);
      ClaimantStep(Before(s, events, j - 1), events[i].c, events[j - 1]);
      MarkedOneMore(events, events[i].c, i, j - 1);
    }
  }

  /** A caller finalises exactly because it once claimed and has neither crashed nor finished since. */
  lemma {:induction false} FinaliserClaimed(s: State, events: seq<Event>, c: nat, j: nat) returns (i: nat)
    requires j <= |events| && !Finalises(s, c) && Finalises(Before(s, events, j), c)
    ensures i < j && ClaimsAt(s, events, i) && events[i].c == c && Unfinished(events, i, j)
    decreases j
  {
    if Finalises(Before(s, events, j - 1), c) {
      i := FinaliserClaimed(s, events, c, j - 1);
    } else {
      i := j - 1;
      assert ClaimsAt(s, events, i);
    }
    ClaimLives(s, events, i, j);
  }

  // ----- exclusive completion -----

  /** From its claim on, `c` alone finalises, until the session is completed for good. */
  ghost predicate HeldBy(s: State, c: nat) {
    (forall d :: Finalises(s, d) ==> d == c)
    && ((s.voice == Finalizing && c < |s.callers| && s.callers[c] in {Claimed, Working, Dead})
        || (s.voice == Completed && c < |s.callers| && s.callers[c] in {Done, Dead}))
  }

  lemma HeldStep(s: State, c: nat, e: Event)
    requires HeldBy(s, c) && !Overwrites(s, e)
    ensures HeldBy(Step(s, e), c)
    ensures s.voice == Completed ==> Step(s, e).voice == Completed
    ensures At(s, c, Dead) ==> At(Step(s, e), c, Dead) && Step(s, e).voice == s.voice
  {
    var t := Step(s, e);
    if e.Mark? || e.Finish? {
      assert Finalises(s, e.c) ==> e.c == c;
    }
    forall d | Finalises(t, d) ensures d == c {
      assert Finalises(s, d) || (e == Claim(d) && Claimable(s));
    }
  }

  /**
   However the callers interleave: once one has claimed a session nobody was finalising, and as long
   as no connect write takes effect, no other ever finalises; and a completed session stays completed.
   */
  lemma {:induction false} CompletionIsExclusive(s: State, events: seq<Event>, i: nat, j: nat)
    requires i < j <= |events| && ClaimsAt(s, events, i) && NoOverwrite(s, events, i + 1, j)
    requires forall d :: !Finalises(Before(s, events, i), d)
    ensures HeldBy(Before(s, events, j), events[i].c)
    ensures j < |events| && Before(s, events, j).voice == Completed && !OverwritesAt(s, events, j) ==>
              Before(s, events, j + 1).voice == Completed
    decreases j
  {
    var c := events[i].c;
    if j == i + 1 {
      var before, after := Before(s, events, i), Before(s, events, j);
      forall d | Finalises(after, d) ensures d == c { assert !Finalises(before, d); }
    } else {
      CompletionIsExclusive(s, events, i, j - 1);
      assert !OverwritesAt(s, events, j - 1);
      HeldStep(Before(s, events, j - 1), c, events[j - 1]);
    }
    if j < |events| && !OverwritesAt(s, events, j) { HeldStep(Before(s, events, j), c, events[j]); }
  }

  // ----- exactly when exclusion breaks -----

  /** Until another claim succeeds, a session claimed by `c` alone is claimable exactly after an effective connect write. */
  ghost predicate LoneClaim(s: State, c: nat, connected: bool) {
    Finalises(s, c) && (forall d :: Finalises(s, d) ==> d == c)
    && s.voice == if connected then Connected else Finalizing
  }

  ghost predicate NoClaim(s: State, events: seq<Event>, from: nat, to: nat)
    requires to <= |events|
  {
    forall m :: from <= m < to ==> !ClaimsAt(s, events, m)
  }

  lemma LoneStep(s: State, c: nat, connected: bool, e: Event)
    requires LoneClaim(s, c, connected) && Finalises(Step(s, e), c)
    requires !(e.Claim? && At(s, e.c, Prepared) && Claimable(s))
    ensures LoneClaim(Step(s, e), c, connected || Overwrites(s, e))
  {
    var t := Step(s, e);
    if e.Mark? || e.Finish? {
      assert Finalises(s, e.c) ==> e.c == c;
    }
    forall d | Finalises(t, d) ensures d == c {
      assert Finalises(s, d);
    }
  }

  lemma {:induction false} ClaimStaysAlone(s: State, events: seq<Event>, i: nat, j: nat)
    requires i < j <= |events| && ClaimsAt(s, events, i) && NoClaim(s, events, i + 1, j)
    requires forall d :: !Finalises(Before(s, events, i), d)
    requires Unfinished(events, i, j)
    ensures LoneClaim(Before(s, events, j), events[i].c, !NoOverwrite(s, events, i + 1, j))
    decreases j
  {
    var c := events[i].c;
    ClaimLives(s, events, i, j);
    if j == i + 1 {
      var before, after := Before(s, events, i), Before(s, events, j);
      forall d | Finalises(after, d) ensures d == c { assert !Finalises(before, d); }
    } else {
      MarkedOneMore(events, c, i, j - 1);
      ClaimStaysAlone(s, events, i, j - 1);
      assert !ClaimsAt(s, events, j - 1);
      LoneStep(Before(s, events, j - 1), c, !NoOverwrite(s, events, i + 1, j - 1), events[j - 1]);
      assert NoOverwrite(s, events, i + 1, j) <==> NoOverwrite(s, events, i + 1, j - 1) && !OverwritesAt(s, events, j - 1);
    }
  }

  /**
   While the first claimant is at work, another caller's claim makes a second finaliser exactly when a
   connect write took effect between the two. A reconnect that read `Connected` before lets nobody in.
   */
  lemma SecondFinaliserExactly(s: State, events: seq<Event>, i: nat, j: nat)
    requires i < j < |events| && ClaimsAt(s, events, i) && NoClaim(s, events, i + 1, j)
    requires forall d :: !Finalises(Before(s, events, i), d)
    requires Unfinished(events, i, j) && events[j].Claim? && At(Before(s, events, j), events[j].c, Prepared)
    ensures events[j].c != events[i].c
    ensures Finalises(Before(s, events, j + 1), events[i].c)
    ensures Finalises(Before(s, events, j + 1), events[j].c) <==> exists m :: i < m < j && OverwritesAt(s, events, m)
  {
    ClaimStaysAlone(s, events, i, j);
    if !NoOverwrite(s, events, i + 1, j) {
      var m :| i + 1 <= m < j && OverwritesAt(s, events, m);
      assert i < m < j;
    }
  }

  ghost predicate SharedAt(s: State, events: seq<Event>, j: nat)
    requires j <= |events|
  {
    exists c, d :: c != d && Finalises(Before(s, events, j), c) && Finalises(Before(s, events, j), d)
  }

  /** A claim, an effective connect write, and another claim, with both claimants still at work before event `j`. */
  ghost predicate Overlap(s: State, events: seq<Event>, i: int, m: int, k: int, j: nat)
    requires j <= |events|
  {
    0 <= i < m < k < j && OverwritesAt(s, events, m)
    && ClaimsAt(s, events, i) && Unfinished(events, i, j)
    && ClaimsAt(s, events, k) && Unfinished(events, k, j)
  }

  lemma OverlapFrom(s: State, events: seq<Event>, i: nat, k: nat, j: nat)
    requires i < k < j <= |events|
    requires ClaimsAt(s, events, i) && Unfinished(events, i, j) && ClaimsAt(s, events, k) && Unfinished(events, k, j)
    ensures exists m :: Overlap(s, events, i, m, k, j)
  {
    ClaimsAreSeparated(s, events, i, k);
    var m :| i < m < k && OverwritesAt(s, events, m);
    assert Overlap(s, events, i, m, k, j);
  }

  lemma OverlapShares(s: State, events: seq<Event>, i: nat, k: nat, j: nat)
    requires i < k < j <= |events|
    requires ClaimsAt(s, events, i) && Unfinished(events, i, j) && ClaimsAt(s, events, k) && Unfinished(events, k, j)
    ensures SharedAt(s, events, j)
  {
    var c, d := events[i].c, events[k].c;
    assert c != d by { ClaimLives(s, events, i, k); }
    assert Finalises(Before(s, events, j), c) by { ClaimLives(s, events, i, j); }
    assert Finalises(Before(s, events, j), d) by { ClaimLives(s, events, k, j); }
  }

  lemma SharedOverlaps(s: State, events: seq<Event>, j: nat, c: nat, d: nat)
    requires j <= |events| && !Finalises(s, c) && !Finalises(s, d)
    requires c != d && Finalises(Before(s, events, j), c) && Finalises(Before(s, events, j), d)
    ensures exists i, m, k :: Overlap(s, events, i, m, k, j)
  {
    var i := FinaliserClaimed(s, events, c, j);
    var k := FinaliserClaimed(s, events, d, j);
    if i < k { OverlapFrom(s, events, i, k, j); } else { OverlapFrom(s, events, k, i, j); }
  }

  /**
   In a history that starts with nobody at work, two callers finalise at the same time exactly when two
   claims with an effective connect write between them are both unfinished.
   */
  lemma SharedExactly(s: State, events: seq<Event>, j: nat)
    requires j <= |events| && forall d :: !Finalises(s, d)
    ensures SharedAt(s, events, j) <==> exists i, m, k :: Overlap(s, events, i, m, k, j)
  {
    if SharedAt(s, events, j) {
      var c, d :| c != d && Finalises(Before(s, events, j), c) && Finalises(Before(s, events, j), d);
      SharedOverlaps(s, events, j, c, d);
    }
    if i, m, k :| Overlap(s, events, i, m, k, j) {
      OverlapShares(s, events, i, k, j);
    }
  }

  /** A connect request that read the row before the session was connected lets a second caller finalise beside the first. */
  lemma ConnectBreaksExclusion()
    ensures var s := State(Ready, Pending, [Idle, Idle], map[]);
            var events := [Arrive(0), Arrive(1), Read(0), Claim(0), Write(0), Claim(1)];
            Finalises(Before(s, events, 6), 0) && Finalises(Before(s, events, 6), 1)
  {
    var s := State(Ready, Pending, [Idle, Idle], map[]);
    var events := [Arrive(0), Arrive(1), Read(0), Claim(0), Write(0), Claim(1)];
    assert Before(s, events, 1).callers == [Prepared, Idle];
    assert Before(s, events, 2).callers == [Prepared, Prepared];
    assert Before(s, events, 3) == State(Ready, Pending, [Prepared, Prepared], map[0 := Ready]);
    assert Before(s, events, 4) == State(Finalizing, Pending, [Claimed, Prepared], map[0 := Ready]);
    assert Before(s, events, 5) == State(Connected, VoiceActive, [Claimed, Prepared], map[]);
    assert Before(s, events, 6).callers == [Claimed, Claimed];
  }

  // ----- a claim whose caller dies -----

  /** The session waits for a claimant that is dead. */
  ghost predicate DeadClaim(s: State, c: nat) {
    HeldBy(s, c) && At(s, c, Dead) && s.voice == Finalizing
  }

  /** If the claiming caller dies before it finishes, no series of further calls completes the session. */
  lemma {:induction false} DeadClaimNeverCompletes(s: State, c: nat, events: seq<Event>, j: nat)
    requires DeadClaim(s, c)
    requires j <= |events| && NoOverwrite(s, events, 0, j)
    ensures DeadClaim(Before(s, events, j), c)
    ensures forall d :: !Finalises(Before(s, events, j), d)
    decreases j
  {
    if j > 0 {
      DeadClaimNeverCompletes(s, c, events, j - 1);
      assert !OverwritesAt(s, events, j - 1);
      HeldStep(Before(s, events, j - 1), c, events[j - 1]);
    }
  }

  /** The caller that claims at event `k` works through to a finish at event `f`. */
  predicate SeesThrough(events: seq<Event>, k: nat, f: nat)
    requires k < f < |events| && events[k].Claim?
  {
    events[f] == Finish(events[k].c) && Unfinished(events, k, f) && MarkedIn(events, events[k].c, k, f)
  }

  ghost predicate CompletedAfterConnect(s: State, events: seq<Event>, m: int, k: int, f: int) {
    0 <= m < k < f < |events| && OverwritesAt(s, events, m) && ClaimsAt(s, events, k) && SeesThrough(events, k, f)
  }

  /** A session that comes to be completed was finished by a caller at work. */
  lemma {:induction false} CompletionHasFinish(s: State, events: seq<Event>, j: nat)
    requires j <= |events| && s.voice != Completed && Before(s, events, j).voice == Completed
    ensures exists f: nat :: f < j && events[f].Finish? && At(Before(s, events, f), events[f].c, Working)
    decreases j
  {
    if Before(s, events, j - 1).voice == Completed {
      CompletionHasFinish(s, events, j - 1);
    } else {
      assert events[j - 1].Finish? && At(Before(s, events, j - 1), events[j - 1].c, Working);
    }
  }

  lemma FinishFollowsConnect(s: State, c: nat, events: seq<Event>, f: nat)
    requires DeadClaim(s, c) && f < |events| && events[f].Finish? && At(Before(s, events, f), events[f].c, Working)
    ensures exists m, k :: CompletedAfterConnect(s, events, m, k, f)
  {
    var k := FinaliserClaimed(s, events, events[f].c, f);
    ClaimLives(s, events, k, f);
    if NoOverwrite(s, events, 0, k) {
      DeadClaimNeverCompletes(s, c, events, k);
      assert false;
    }
    var m :| 0 <= m < k && OverwritesAt(s, events, m);
    assert CompletedAfterConnect(s, events, m, k, f);
  }

  /**
   Exactly when a session whose claimant died is completed after all: a connect write takes effect
   first, and then a caller claims, marks and finishes without crashing.
   */
  lemma DeadClaimCompletedExactly(s: State, c: nat, events: seq<Event>)
    requires DeadClaim(s, c)
    ensures (exists j :: 0 <= j <= |events| && Before(s, events, j).voice == Completed) <==>
            exists m, k, f :: CompletedAfterConnect(s, events, m, k, f)
  {
    if j :| 0 <= j <= |events| && Before(s, events, j).voice == Completed {
      CompletionHasFinish(s, events, j);
      var f: nat :| f < j && events[f].Finish? && At(Before(s, events, f), events[f].c, Working);
      FinishFollowsConnect(s, c, events, f);
    }
    if m, k, f :| CompletedAfterConnect(s, events, m, k, f) {
      ClaimLives(s, events, k, f);
      assert Before(s, events, f + 1).voice == Completed;
    }
  }

  /** The claimant dies, a second caller is turned away, and after a connect request a third completes. */
  const REVIVAL: seq<Event> := [Arrive(0), Claim(0), Crash(0), Arrive(1), Claim(1),
                                Read(0), Write(0), Arrive(2), Claim(2), Mark(2), Finish(2)]

  lemma DeadClaimReached()
    ensures var s := State(Connected, VoiceActive, [Idle, Idle, Idle], map[]);
            Before(s, REVIVAL, 3) == State(Finalizing, VoiceActive, [Dead, Idle, Idle], map[])
            && Before(s, REVIVAL, 5) == State(Finalizing, VoiceActive, [Dead, Turned, Idle], map[])
  {
    var s := State(Connected, VoiceActive, [Idle, Idle, Idle], map[]);
    assert Before(s, REVIVAL, 1).callers == [Prepared, Idle, Idle];
    assert Before(s, REVIVAL, 2) == State(Finalizing, VoiceActive, [Claimed, Idle, Idle], map[]);
    assert Before(s, REVIVAL, 3) == State(Finalizing, VoiceActive, [Dead, Idle, Idle], map[]);
    assert Before(s, REVIVAL, 4).callers == [Dead, Prepared, Idle];
  }

  lemma RevivalClaimed(s: State)
    requires Before(s, REVIVAL, 5) == State(Finalizing, VoiceActive, [Dead, Turned, Idle], map[])
    ensures Before(s, REVIVAL, 9) == State(Finalizing, VoiceActive, [Dead, Turned, Claimed], map[])
  {
    assert Before(s, REVIVAL, 6) == State(Finalizing, VoiceActive, [Dead, Turned, Idle], map[0 := Finalizing]);
    assert Before(s, REVIVAL, 7) == State(Connected, VoiceActive, [Dead, Turned, Idle], map[]);
    assert Before(s, REVIVAL, 8).callers == [Dead, Turned, Prepared];
  }

  lemma RevivalCompletes(s: State)
    requires Before(s, REVIVAL, 9) == State(Finalizing, VoiceActive, [Dead, Turned, Claimed], map[])
    ensures Before(s, REVIVAL, 11) == State(Completed, ExamCompleted, [Dead, Turned, Done], map[])
  {
    assert Before(s, REVIVAL, 10) == State(Finalizing, VoiceFinalizing, [Dead, Turned, Working], map[]);
  }

  /** An instance of both: a history that reaches a dead claim, keeps it, and is revived by a connect request. */
  lemma ConnectRevivesDeadClaim()
    ensures var s := State(Connected, VoiceActive, [Idle, Idle, Idle], map[]);
            DeadClaim(Before(s, REVIVAL, 3), 0) && DeadClaim(Before(s, REVIVAL, 5), 0)
            && Before(s, REVIVAL, 11) == State(Completed, ExamCompleted, [Dead, Turned, Done], map[])
  {
    DeadClaimReached();
    RevivalClaimed(State(Connected, VoiceActive, [Idle, Idle, Idle], map[]));
    RevivalCompletes(State(Connected, VoiceActive, [Idle, Idle, Idle], map[]));
  }

  // ----- the examination's own status -----

  /** Event `m` is the write of a connect request, whether or not it changes the voice status. */
  predicate WritesAt(s: State, events: seq<Event>, m: nat)
    requires m < |events|
  {
    events[m].Write? && events[m].r in Before(s, events, m).seen
  }

  /** Completed, with nobody left at work. */
  ghost predicate Settled(s: State) {
    s.voice == Completed && forall d :: !Finalises(s, d)
  }

  lemma SettledStep(s: State, e: Event)
    requires Settled(s) && !Overwrites(s, e)
    ensures Settled(Step(s, e))
    ensures Step(s, e).exam == if e.Write? && e.r in s.seen then VoiceActive else s.exam
  {
    var t := Step(s, e);
    if e.Mark? || e.Finish? { assert !Finalises(s, e.c); }
    forall d ensures !Finalises(t, d) { assert !Finalises(s, d); }
  }

  /**
   A completed voice session stays completed, but its examination does so exactly until the write of any
   connect request still under way, even one that leaves the voice status alone.
   */
  lemma {:induction false} ExamStaysCompletedExactly(s: State, events: seq<Event>, j: nat)
    requires Settled(s) && s.exam == ExamCompleted && j <= |events| && NoOverwrite(s, events, 0, j)
    ensures Settled(Before(s, events, j))
    ensures Before(s, events, j).exam == (if exists m :: 0 <= m < j && WritesAt(s, events, m) then VoiceActive else ExamCompleted)
    decreases j
  {
    if j > 0 {
      ExamStaysCompletedExactly(s, events, j - 1);
      assert !OverwritesAt(s, events, j - 1);
      SettledStep(Before(s, events, j - 1), events[j - 1]);
      assert (exists m :: 0 <= m < j && WritesAt(s, events, m)) <==>
             (exists m :: 0 <= m < j - 1 && WritesAt(s, events, m)) || WritesAt(s, events, j - 1);
    }
  }

  /** An instance: a reconnect begun before the claim writes after the finish, and the examination is active again. */
  lemma LateReconnectReopensExam()
    ensures var s := State(Connected, VoiceActive, [Idle], map[]);
            var events := [Read(0), Arrive(0), Claim(0), Mark(0), Finish(0), Write(0)];
            Before(s, events, 5) == State(Completed, ExamCompleted, [Done], map[0 := Connected])
            && Before(s, events, 6) == State(Completed, VoiceActive, [Done], map[])
  {
    var s := State(Connected, VoiceActive, [Idle], map[]);
    var events := [Read(0), Arrive(0), Claim(0), Mark(0), Finish(0), Write(0)];
    assert Before(s, events, 1) == State(Connected, VoiceActive, [Idle], map[0 := Connected]);
    assert Before(s, events, 2).callers == [Prepared];
    assert Before(s, events, 3) == State(Finalizing, VoiceActive, [Claimed], map[0 := Connected]);
    assert Before(s, events, 4) == State(Finalizing, VoiceFinalizing, [Working], map[0 := Connected]);
  }

  // ----- calls that are turned away -----

  lemma TurnedStays(s: State, events: seq<Event>, i: nat, j: nat, c: nat)
    requires i <= j <= |events| && At(Before(s, events, i), c, Turned)
    ensures !Finalises(Before(s, events, j), c)
  {
    TurnedOrDead(s, events, i, j, c);
  }

  lemma {:induction false} TurnedOrDead(s: State, events: seq<Event>, i: nat, j: nat, c: nat)
    requires i <= j <= |events| && At(Before(s, events, i), c, Turned)
    ensures At(Before(s, events, j), c, Turned) || At(Before(s, events, j), c, Dead)
    decreases j
  {
    if i < j { TurnedOrDead(s, events, i, j - 1, c); }
  }

  /**
   A call that finds the session completed, or whose claim comes when another has claimed or completed it,
   is turned away: it never finalises, whatever happens later.
   */
  lemma TurnedAwayExactly(s: State, events: seq<Event>, i: nat, j: nat, c: nat)
    requires i < j <= |events|
    requires (events[i] == Arrive(c) && At(Before(s, events, i), c, Idle) && Before(s, events, i).voice == Completed)
             || (events[i] == Claim(c) && At(Before(s, events, i), c, Prepared)
                 && (Before(s, events, i).voice == Finalizing || Before(s, events, i).voice == Completed))
    ensures !Finalises(Before(s, events, j), c)
  {
    assert At(Before(s, events, i + 1), c, Turned);
    TurnedStays(s, events, i + 1, j, c);
  }

  /** Any other claim succeeds, and takes the session into finalisation. */
  lemma ClaimExactly(s: State, events: seq<Event>, i: nat)
    requires i < |events| && events[i].Claim? && At(Before(s, events, i), events[i].c, Prepared)
    requires Before(s, events, i).voice == Ready || Before(s, events, i).voice == Connected
    ensures At(Before(s, events, i + 1), events[i].c, Claimed) && Before(s, events, i + 1).voice == Finalizing
  {}
}
