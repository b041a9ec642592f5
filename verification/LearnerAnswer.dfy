/**
 The queued, retried learner answer of `main.py`: one slot at the model gate, at most three tries,
 and an answer that is written once or not at all.
 */
module LearnerAnswer {
  import opened Numbers
  import opened Wrappers
  import opened Policy
  import opened Exam
  import Selector

  /** A limited number of slots, one for each learner answer that is with a model. */
  class Semaphore {
    const capacity: nat
    var held: nat
    ghost var acquired: nat
    ghost var released: nat

    constructor (capacity: nat)
      ensures this.capacity == capacity && held == acquired == released == 0
    {
      this.capacity := capacity;
      held, acquired, released := 0, 0, 0;
    }

    ghost predicate Valid()
      reads this
    {
      0 < capacity && held <= capacity
    }

    /**
     With all slots taken the call waits; `freed` is how many other holders give theirs back before the
     timeout. It ends with a slot or without one.
     */
    method Acquire(freed: nat) returns (got: bool)
      requires Valid()
      modifies this
      ensures Valid() && released == old(released)
      ensures got <==> old(held) < capacity || freed > 0
      ensures acquired == old(acquired) + (if got then 1 else 0)
      ensures held == Others(old(held), capacity, freed) + (if got then 1 else 0)
    {
      if held == capacity {
        held := held - MinInt(freed, held);
      }
      got := held < capacity;
      if got {
        held, acquired := held + 1, acquired + 1;
      }
    }

    method Release()
      requires Valid() && held > 0
      modifies this
      ensures Valid() && held == old(held) - 1 && acquired == old(acquired) && released == old(released) + 1
    {
      held, released := held - 1, released + 1;
    }
  }

  /** The slots others hold once the wait, if any, is over. */
  function Others(held: nat, capacity: nat, freed: nat): nat {
    if held >= capacity then held - MinInt(freed, held) else held
  }

  /** `ModelCallGate`: one semaphore, replaced when the configured capacity changes. */
  class Gate {
    var capacity: int
    var semaphore: Semaphore?

    constructor ()
      ensures Valid() && semaphore == null
    {
      capacity, semaphore := 0, null;
    }

    ghost predicate Valid()
      reads this, semaphore
    {
      semaphore != null ==> semaphore.Valid()
    }

    /** The semaphore in place serves the capacity. */
    predicate Serves(capacity: int)
      reads this
    {
      semaphore != null && this.capacity == MaxInt(1, capacity)
    }

    /** A slot will be given: there is a new semaphore, a free slot, or one is given back in time. */
    predicate WillServe(capacity: int, freed: nat)
      reads this, semaphore
    {
      Serves(capacity) ==> semaphore.held < semaphore.capacity || freed > 0
    }

    method SemaphoreFor(capacity: int) returns (s: Semaphore)
      requires Valid() && capacity > 0
      modifies this
      ensures s == semaphore && this.capacity == capacity && s.Valid()
      ensures if old(semaphore != null && this.capacity == capacity) then s == old(semaphore)
              else fresh(s) && s.held == s.acquired == s.released == 0
    {
      if semaphore == null || this.capacity != capacity {
        this.capacity := capacity;
        semaphore := new Semaphore(capacity);
      }
      s := semaphore;
    }

    method Acquire(capacity: int, freed: nat) returns (slot: Semaphore?)
      requires Valid()
      modifies this, semaphore
      ensures Valid() && semaphore != null
      ensures slot == if old(WillServe(capacity, freed)) then semaphore else null
      ensures semaphore.released == old(if Serves(capacity) then semaphore.released else 0)
      ensures semaphore.acquired == old(if Serves(capacity) then semaphore.acquired else 0) + (if slot != null then 1 else 0)
      ensures semaphore.held == old(if Serves(capacity) then Others(semaphore.held, semaphore.capacity, freed) else 0)
                                + (if slot != null then 1 else 0)
      ensures if old(Serves(capacity)) then semaphore == old(semaphore) else fresh(semaphore)
    {
      var s := SemaphoreFor(MaxInt(1, capacity));
      var got := s.Acquire(freed);
      slot := if got then s else null;
    }
  }

  datatype LearnerError = Busy | Refused(error: ExamError)

  predicate Retryable(error: ExamError) {
    error.ModelRejected? && error.code in {
      "organization_concurrency_limited", "organization_rate_limited",
      "principal_rate_limited", "organization_token_rate_limited"}
  }

  /** What the tries come to on the committed session `s`. */
  function Answered(plan: Plan, s: Session, tries: seq<Submission>): Result<Session, LearnerError> {
    if tries == [] then Failure(Busy)
    else match Submitted(plan, s, tries[0])
      case Success(t) => Success(t)
      case Failure(error) =>
        if Retryable(error) then Answered(plan, s, tries[1..]) else Failure(Refused(error))
  }

  /** The tries differ in what the model governance and the model do, not in the learner's answer. */
  method SubmitLearnerAnswer(session: ExamSession, gate: Gate, capacity: int, freed: nat, tries: seq<Submission>)
    returns (error: Option<LearnerError>, tried: nat)
    requires session.View() == session.committed && gate.Valid() && |tries| == 3
    modifies session, gate, gate.semaphore
    ensures gate.Valid() && gate.semaphore != null
    ensures gate.semaphore.acquired == old(if gate.Serves(capacity) then gate.semaphore.acquired else 0)
                                       + (if old(gate.WillServe(capacity, freed)) then 1 else 0)
    ensures gate.semaphore.released == old(if gate.Serves(capacity) then gate.semaphore.released else 0)
                                       + (if old(gate.WillServe(capacity, freed)) then 1 else 0)
    ensures gate.semaphore.held ==
            old(if gate.Serves(capacity) then Others(gate.semaphore.held, gate.semaphore.capacity, freed) else 0)
    ensures !old(gate.WillServe(capacity, freed)) ==>
              error == Some(Busy) && tried == 0 && session.committed == old(session.committed)
    ensures tried <= 3
    ensures old(gate.WillServe(capacity, freed)) ==>
              match Answered(session.plan, old(session.committed), tries)
              case Success(t) => error == None && session.committed == session.View() == t
              case Failure(e) =>
                error == Some(e) && session.committed == old(session.committed)
                && (e == Busy ==> session.View() == session.committed && tried == 3)
  {
    tried := 0;
    session.Commit();
    var slot := gate.Acquire(capacity, freed);
    if slot == null {
      return Some(Busy), 0;
    }
    ghost var others, acquired, released := slot.held - 1, slot.acquired, slot.released;
    error := Some(Busy);
    while tried < 3
      invariant tried <= 3 && error == Some(Busy)
      invariant session.View() == session.committed == old(session.committed)
      invariant Answered(session.plan, old(session.committed), tries) ==
                Answered(session.plan, old(session.committed), tries[tried..])
      invariant slot == gate.semaphore && slot.Valid()
      invariant slot.held == others + 1 && slot.acquired == acquired && slot.released == released
    {
      var failure := session.SubmitAnswer(tries[tried]);
      assert tries[tried..][1..] == tries[tried + 1..];
      tried := tried + 1;
      if failure.None? {
        error := None;
        break;
      }
      if !Retryable(failure.value) {
        error := Some(Refused(failure.value));
        break;
      }
      session.Rollback();
    }
    slot.Release();
  }

  // ----- exactly once -----

  lemma CarryingOutAddsOneTurn(plan: Plan, s: Session, d: Decided, k: Selector.Knowledge)
    requires s.index < |plan.questions|
    ensures var t := CarriedOut(plan, s, d, k);
            |t.turns| == |s.turns| + 1 && t.turns[..|s.turns|] == s.turns && !t.turns[|s.turns|].Answer?
  {}

  /** An accepted submission adds the answer and the examiner's turn, and nothing else. */
  lemma SubmissionAddsTwoTurns(plan: Plan, s: Session, input: Submission)
    requires Submitted(plan, s, input).Success?
    ensures var t := Submitted(plan, s, input).value;
            |t.turns| == |s.turns| + 2 && t.turns[..|s.turns|] == s.turns
            && t.turns[|s.turns|].Answer? && t.turns[|s.turns|].content == input.content
            && !t.turns[|s.turns| + 1].Answer?
  {
    var r := Recorded(plan, s, input.content, input.outcome.evaluation);
    var t := Submitted(plan, s, input).value;
    CarryingOutAddsOneTurn(plan, r, Decision(plan, s, input.outcome.judgement).value, input.knowledge);
    assert r.turns[|s.turns|].Answer? && r.turns[|s.turns|].content == input.content;
    assert t.turns[..|s.turns|] == t.turns[..|r.turns|][..|s.turns|];
  }

  /** The governance rejected this try in a way that is retried. */
  predicate TryRejected(plan: Plan, s: Session, input: Submission) {
    Submitted(plan, s, input).Failure? && Retryable(Submitted(plan, s, input).error)
  }

  ghost predicate RejectedBefore(plan: Plan, s: Session, tries: seq<Submission>, j: nat)
    requires j <= |tries|
  {
    forall i :: 0 <= i < j ==> TryRejected(plan, s, tries[i])
  }

  /** Try `j` is the first one that is not rejected, and it is accepted. */
  ghost predicate AcceptedAt(plan: Plan, s: Session, tries: seq<Submission>, j: nat)
    requires j < |tries|
  {
    RejectedBefore(plan, s, tries, j) && Submitted(plan, s, tries[j]).Success?
  }

  /**
   However the governance rejects: a submit that succeeds commits exactly one answer turn and one
   examiner turn, through the first try that is not rejected; and the examiner is reported busy
   exactly when every try was rejected.
   */
  lemma {:induction false} ExactlyOnce(plan: Plan, s: Session, tries: seq<Submission>)
    ensures Answered(plan, s, tries).Success? <==>
            exists j :: 0 <= j < |tries| && AcceptedAt(plan, s, tries, j)
    ensures Answered(plan, s, tries) == Failure(Busy) <==> RejectedBefore(plan, s, tries, |tries|)
    ensures Answered(plan, s, tries).Success? ==>
              var t := Answered(plan, s, tries).value;
              |t.turns| == |s.turns| + 2 && t.turns[..|s.turns|] == s.turns
              && t.turns[|s.turns|].Answer? && !t.turns[|s.turns| + 1].Answer?
  {
    if tries != [] {
      var rest := tries[1..];
      ExactlyOnce(plan, s, rest);
      if Submitted(plan, s, tries[0]).Success? {
        SubmissionAddsTwoTurns(plan, s, tries[0]);
        assert AcceptedAt(plan, s, tries, 0);
      } else if TryRejected(plan, s, tries[0]) {
        TailRejected(plan, s, tries);
      } else {
        assert !TryRejected(plan, s, tries[0]);
      }
    }
  }

  /**
   Only the four rejections that pass with time are retried, in the same session; any other failure is final
   and reported as what it is.
   */
  lemma RetriedExactly(plan: Plan, s: Session, tries: seq<Submission>)
    requires tries != []
    ensures s.status != Active ==> Answered(plan, s, tries) == Failure(Refused(NotActive))
    ensures s.status == Active && s.index < |plan.questions| && tries[0].outcome.Rejected? ==>
              Answered(plan, s, tries) ==
              if tries[0].outcome.code == "organization_concurrency_limited" || tries[0].outcome.code == "organization_rate_limited"
                 || tries[0].outcome.code == "principal_rate_limited" || tries[0].outcome.code == "organization_token_rate_limited"
              then Answered(plan, s, tries[1..])
              else Failure(Refused(ModelRejected(tries[0].outcome.code)))
    ensures s.status == Active && s.index < |plan.questions| && tries[0].outcome.Failed? ==>
              Answered(plan, s, tries) == Failure(Refused(ModelFailed))
  {}

  lemma TailRejected(plan: Plan, s: Session, tries: seq<Submission>)
    requires tries != [] && TryRejected(plan, s, tries[0])
    ensures RejectedBefore(plan, s, tries, |tries|) <==> RejectedBefore(plan, s, tries[1..], |tries| - 1)
    ensures (exists j :: 0 <= j < |tries| && AcceptedAt(plan, s, tries, j)) <==>
            (exists j :: 0 <= j < |tries| - 1 && AcceptedAt(plan, s, tries[1..], j))
  {
    var rest := tries[1..];
    forall j | 0 <= j <= |rest|
      ensures RejectedBefore(plan, s, tries, j + 1) <==> RejectedBefore(plan, s, rest, j)
    {
      assert forall i :: 0 <= i < j ==> rest[i] == tries[i + 1];
      if RejectedBefore(plan, s, rest, j) {
        forall i | 0 <= i < j + 1 ensures TryRejected(plan, s, tries[i]) {
          if i > 0 { assert rest[i - 1] == tries[i]; }
        }
      }
    }
    if j :| 0 <= j < |tries| && AcceptedAt(plan, s, tries, j) {
      assert j > 0 && rest[j - 1] == tries[j];
      assert AcceptedAt(plan, s, rest, j - 1);
    }
    if j :| 0 <= j < |rest| && AcceptedAt(plan, s, rest, j) {
      assert rest[j] == tries[j + 1];
      assert AcceptedAt(plan, s, tries, j + 1);
    }
  }
}
