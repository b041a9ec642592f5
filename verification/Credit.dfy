/**
 What an analysis says of an answer, told from the model's replies themselves: which points have
 credit after each stage, and what becomes of the rest of the reply.
 */
module Credit {
  import opened Numbers
  import opened Wrappers
  import opened Assessment
  import opened Analyzer

  // ----- records -----

  /** The number that a row of decimal digits shows. */
  function Shown(digits: string): int {
    if digits == [] then 0 else 10 * Shown(digits[..|digits| - 1]) + (digits[|digits| - 1] as int - '0' as int)
  }

  lemma {:induction false} DigitsShow(n: nat)
    ensures Shown(Digits(n)) == n
  {
    if n >= 10 {
      DigitsShow(n / 10);
      var d := Digits(n);
      assert d[..|d| - 1] == Digits(n / 10);
    }
  }

  /**
   A plain point is numbered by its place and weighs one, a described one keeps its identifier, if it
   has one, and its weight, if that is not negative; and no two points are given the same number.
   */
  lemma RecordsExactly(points: seq<ExpectedPoint>, i: nat, j: nat)
    requires i < |points| && j < |points|
    ensures var r := RecordOf(points[i], i + 1);
            r.text == points[i].text
            && (points[i].Plain? ==> r.weight == 1.0)
            && (points[i].Described? ==> r.weight == if points[i].weight >= 0.0 then points[i].weight else 0.0)
            && (points[i].Described? && points[i].id != "" ==> r.id == points[i].id)
            && ((points[i].Plain? || points[i].id == "") ==> |r.id| > 0 && r.id[0] == 'P' && Shown(r.id[1..]) == i + 1)
    ensures i != j && (points[i].Plain? || points[i].id == "") && (points[j].Plain? || points[j].id == "") ==>
              RecordOf(points[i], i + 1).id != RecordOf(points[j], j + 1).id
  {
    DigitsShow(i + 1);
    DigitsShow(j + 1);
    assert ("P" + Digits(i + 1))[1..] == Digits(i + 1) && ("P" + Digits(j + 1))[1..] == Digits(j + 1);
  }

  /** A question without expected points is assessed on one point: whether its text, if it has one, was answered. */
  lemma DefaultPointExactly(points: seq<ExpectedPoint>, text: string)
    ensures |points| > 0 ==> PointsToAssess(points, text) == points
    ensures |points| == 0 ==> |PointsToAssess(points, text)| == 1 && PointsToAssess(points, text)[0].Plain?
    ensures |points| == 0 && |text| > 0 ==>
              PointsToAssess(points, text)[0].text == "Directly answer the active question: " + text
    ensures |points| == 0 && |text| == 0 ==>
              PointsToAssess(points, text)[0].text ==
              "Directly answer the active question: " + "Directly answer the active question."
  {}

  // ----- the reply's last word on a point -----

  /** `x` is the last judgement about `id`, at place `k`. */
  ghost predicate LastWordAt(raw: seq<RawPoint>, id: string, x: RawPoint, k: int) {
    0 <= k < |raw| && raw[k] == x && x.pointId == id && id != ""
    && forall m :: k < m < |raw| ==> raw[m].pointId != id
  }

  ghost predicate LastWord(raw: seq<RawPoint>, id: string, x: RawPoint) {
    exists k :: LastWordAt(raw, id, x, k)
  }

  lemma {:induction false} LastWordExactly(raw: seq<RawPoint>, id: string, x: RawPoint)
    ensures LastFor(raw, id) == Some(x) <==> LastWord(raw, id, x)
  {
    if raw != [] {
      var n := |raw| - 1;
      LastWordExactly(raw[..n], id, x);
      if raw[n].pointId == id && id != "" {
        assert raw[n] == x ==> LastWordAt(raw, id, x, n);
      } else {
        forall k ensures LastWordAt(raw, id, x, k) <==> LastWordAt(raw[..n], id, x, k) {
          if LastWordAt(raw[..n], id, x, k) {
            forall m | k < m < |raw| ensures raw[m].pointId != id || id == "" { assert m < n ==> raw[m] == raw[..n][m]; }
          }
          if LastWordAt(raw, id, x, k) {
            forall m | k < m < n ensures raw[..n][m].pointId != id {}
          }
        }
      }
    }
  }

  predicate Labelled(x: RawPoint) {
    x.status.Some? && x.semantic.Some? && x.rubric.Some?
  }

  /** The reply has a last word on the record, in known labels. */
  ghost predicate Judges(raw: seq<RawPoint>, record: Record) {
    exists x :: LastWord(raw, record.id, x) && Labelled(x)
  }

  lemma JudgesExactly(raw: seq<RawPoint>, record: Record)
    ensures NormalizePoint(raw, record).Success? <==> Judges(raw, record)
    ensures NormalizePoint(raw, record).Failure? ==>
              NormalizePoint(raw, record).error ==
              if exists x :: LastWord(raw, record.id, x) then UnknownLabel(record.id) else OmittedPoint(record.id)
  {
    forall x ensures LastFor(raw, record.id) == Some(x) <==> LastWord(raw, record.id, x) {
      LastWordExactly(raw, record.id, x);
    }
    if LastFor(raw, record.id).Some? { assert LastWord(raw, record.id, LastFor(raw, record.id).value); }
  }

  /** Exactly which replies are accepted. */
  lemma AcceptedExactly(reply: Reply, records: seq<Record>)
    ensures Normalized(reply, records).Success? <==>
            reply.correctness.Some? && reply.judgements != []
            && forall i :: 0 <= i < |records| ==> Judges(reply.judgements, records[i])
    ensures reply.correctness.None? ==> Normalized(reply, records) == Failure(UnknownCorrectness)
    ensures reply.correctness.Some? && reply.judgements == [] ==> Normalized(reply, records) == Failure(NoAssessments)
  {
    NormalizationIsExact(reply.judgements, records);
    forall i | 0 <= i < |records|
      ensures NormalizePoint(reply.judgements, records[i]).Success? <==> Judges(reply.judgements, records[i])
    {
      JudgesExactly(reply.judgements, records[i]);
    }
  }

  /** A refused reply is refused for the first record it does not judge. */
  lemma {:induction false} RefusedForFirst(raw: seq<RawPoint>, records: seq<Record>, i: nat)
    requires i < |records| && !Judges(raw, records[i])
    requires forall j :: 0 <= j < i ==> Judges(raw, records[j])
    ensures NormalizeFrom(raw, records) ==
            Failure(if exists x :: LastWord(raw, records[i].id, x) then UnknownLabel(records[i].id)
                    else OmittedPoint(records[i].id))
  {
    JudgesExactly(raw, records[0]);
    if i > 0 {
      assert Judges(raw, records[0]);
      RefusedForFirst(raw, records[1..], i - 1);
    }
  }

  // ----- credit on a reply -----

  /** The judgement earns full credit: it grants it, or it meets the point in another way. */
  predicate Earns(x: RawPoint) {
    x.status == Some(Covered) || Gains(x)
  }

  /** Credit that is given back: short of it, but equivalent, an alternative, or of use beside a faulty rubric. */
  predicate Gains(x: RawPoint) {
    x.status != Some(Covered) && x.status != Some(Contradicted) && !x.conflict
    && (x.semantic == Some(Equivalent) || x.alternative || (x.functional && x.rubric != Some(NoIssue)))
  }

  /**
   A normalised point has full credit exactly when the reply's last word on it earns it; otherwise it keeps
   the status it was judged with. All else is the record's and the judgement's own.
   */
  lemma CreditExactly(reply: Reply, records: seq<Record>, i: nat, x: RawPoint)
    requires Normalized(reply, records).Success? && i < |records| && LastWord(reply.judgements, records[i].id, x)
    ensures |Normalized(reply, records).value.points| == |records| && Labelled(x)
    ensures var p := Normalized(reply, records).value.points[i];
            (p.status == Covered <==> Earns(x))
            && (p.status != Covered ==> Some(p.status) == x.status)
            && p.id == records[i].id && p.text == records[i].text && p.weight == records[i].weight
            && Some(p.semantic) == x.semantic && Some(p.rubric) == x.rubric
            && p.functional == x.functional && p.conflict == x.conflict && p.alternative == x.alternative
  {
    NormalizationIsExact(reply.judgements, records);
    LastWordExactly(reply.judgements, records[i].id, x);
    var raw := NormalizeFrom(reply.judgements, records).value;
    assert NormalizePoint(reply.judgements, records[i]) == Success(raw[i]);
  }

  lemma {:induction false} ReconciledAre(points: seq<Point>, id: string)
    ensures id in ReconciledIds(points) <==>
            exists i :: 0 <= i < |points| && points[i].id == id && Reconcile(points[i]) != points[i]
  {
    if points != [] {
      var n := |points| - 1;
      ReconciledAre(points[..n], id);
      if i :| 0 <= i < n && points[i].id == id && Reconcile(points[i]) != points[i] {
        assert points[..n][i] == points[i];
      }
      if i :| 0 <= i < n && points[..n][i].id == id && Reconcile(points[..n][i]) != points[..n][i] {
        assert points[..n][i] == points[i];
      }
    }
  }

  /** The reply gives credit back on the record. */
  ghost predicate GainsOn(raw: seq<RawPoint>, record: Record) {
    exists x :: LastWord(raw, record.id, x) && Gains(x)
  }

  /** Listed as reconciled are exactly the points that credit was given back on. */
  lemma ReconciledExactly(reply: Reply, records: seq<Record>, id: string)
    requires Normalized(reply, records).Success?
    ensures id in Normalized(reply, records).value.reconciled <==>
            exists i :: 0 <= i < |records| && records[i].id == id && GainsOn(reply.judgements, records[i])
  {
    NormalizationIsExact(reply.judgements, records);
    var raw := NormalizeFrom(reply.judgements, records).value;
    ReconciledAre(raw, id);
    forall i | 0 <= i < |records|
      ensures raw[i].id == records[i].id
      ensures Reconcile(raw[i]) != raw[i] <==> GainsOn(reply.judgements, records[i])
    {
      OneReconciled(reply.judgements, records[i], raw[i]);
    }
  }

  lemma OneReconciled(raw: seq<RawPoint>, record: Record, p: Point)
    requires NormalizePoint(raw, record) == Success(p)
    ensures p.id == record.id
    ensures Reconcile(p) != p <==> GainsOn(raw, record)
  {
    var x := LastFor(raw, record.id).value;
    forall y ensures LastWord(raw, record.id, y) <==> y == x { LastWordExactly(raw, record.id, y); }
    assert LastWord(raw, record.id, x);
    assert GainsOn(raw, record) <==> Gains(x);
    if Gains(x) { assert Reconcile(p).status == Covered != p.status; }
  }

  // ----- the rest of a reply -----

  lemma {:induction false} CountedErrorsAre(assessed: seq<ErrorAssessment>, text: string)
    ensures text in CountedErrors(assessed) <==>
            text != "" && exists i :: 0 <= i < |assessed| && assessed[i].text == text
                                      && assessed[i].kind in {ExplicitFactConflict, LogicFailure}
  {
    if assessed != [] {
      CountedErrorsAre(assessed[1..], text);
      if i :| 0 <= i < |assessed| && assessed[i].text == text && assessed[i].kind in {ExplicitFactConflict, LogicFailure} {
        assert i > 0 ==> assessed[1..][i - 1] == assessed[i];
      }
      if i :| 0 <= i < |assessed[1..]| && assessed[1..][i].text == text
              && assessed[1..][i].kind in {ExplicitFactConflict, LogicFailure} {
        assert assessed[1..][i] == assessed[i + 1];
      }
    }
  }

  /**
   Errors count only as conflicts with facts or failures of logic, once errors are assessed at all; full
   coverage without errors overrules what the reply concludes; everything else is the reply's own.
   */
  lemma ReplyTold(reply: Reply, records: seq<Record>, text: string)
    requires Normalized(reply, records).Success?
    ensures var a := Normalized(reply, records).value;
            (reply.errorAssessments.None? ==> a.errors == reply.errors)
            && (reply.errorAssessments.Some? ==>
                  (text in a.errors <==>
                   text != ""
                   && exists i :: 0 <= i < |reply.errorAssessments.value| && reply.errorAssessments.value[i].text == text
                        && reply.errorAssessments.value[i].kind in {ExplicitFactConflict, LogicFailure}))
            && (a.coverage == 1.0 && |a.errors| == 0 ==> a.correctness == Supported)
            && (a.coverage != 1.0 || |a.errors| > 0 ==> Some(a.correctness) == reply.correctness)
            && a.missing == (if a.coverage == 1.0 then [] else reply.missing)
            && a.followups == reply.followups && a.answered == reply.answered && a.direct == reply.direct
            && !a.duplicate && a.scoreCap == None
            && (reply.relevance == None ==> a.relevance == 1.0)
            && (reply.relevance.Some? && 0.0 <= reply.relevance.value <= 1.0 ==> a.relevance == reply.relevance.value)
  {
    if reply.errorAssessments.Some? { CountedErrorsAre(reply.errorAssessments.value, text); }
  }

  // ----- the coverage number -----

  /** The weight of all points. */
  function Weights(points: seq<Point>): real {
    if points == [] then 0.0 else Weights(points[1..]) + (if points[0].weight > 0.0 then points[0].weight else 0.0)
  }

  /** The weight earned: the whole of a covered point's, half of a partial one's, none of any other's. */
  function Earned(points: seq<Point>): real {
    if points == [] then 0.0
    else
      var p := points[0];
      Earned(points[1..])
      + (if p.weight <= 0.0 then 0.0 else if p.status == Covered then p.weight else if p.status == Partial then p.weight / 2.0 else 0.0)
  }

  lemma {:induction false} SumsAre(points: seq<Point>)
    ensures TotalWeight(PointItems(points)) == Weights(points) && WeightedSum(PointItems(points)) == Earned(points)
    ensures 0.0 <= Earned(points) <= Weights(points)
  {
    if points != [] {
      SumsAre(points[1..]);
      assert PointItems(points)[1..] == PointItems(points[1..]);
    }
  }

  /** Coverage is the part of the weight that is earned; without any weight it is zero. */
  lemma CoverageExactly(points: seq<Point>)
    ensures Weights(points) == 0.0 ==> PointCoverage(points) == 0.0
    ensures Weights(points) > 0.0 ==> PointCoverage(points) == Earned(points) / Weights(points)
  {
    SumsAre(points);
    if Weights(points) > 0.0 { FractionInUnit(Earned(points), Weights(points)); }
  }

  lemma FractionInUnit(a: real, b: real)
    requires 0.0 <= a <= b && b > 0.0
    ensures 0.0 <= a / b <= 1.0
  {
    DivMono(0.0, a, b);
    DivMono(a, b, b);
  }

  // ----- adjudication -----

  ghost predicate LastDecisionAt(decisions: seq<Decision>, id: string, d: Decision, k: int) {
    0 <= k < |decisions| && decisions[k] == d && d.pointId == id && id != ""
    && forall m :: k < m < |decisions| ==> decisions[m].pointId != id
  }

  ghost predicate LastDecision(decisions: seq<Decision>, id: string, d: Decision) {
    exists k :: LastDecisionAt(decisions, id, d, k)
  }

  lemma {:induction false} LastDecisionExactly(decisions: seq<Decision>, id: string, d: Decision)
    ensures DecisionFor(decisions, id) == Some(d) <==> LastDecision(decisions, id, d)
  {
    if decisions != [] {
      var n := |decisions| - 1;
      LastDecisionExactly(decisions[..n], id, d);
      if decisions[n].pointId == id && id != "" {
        assert decisions[n] == d ==> LastDecisionAt(decisions, id, d, n);
      } else {
        forall k ensures LastDecisionAt(decisions, id, d, k) <==> LastDecisionAt(decisions[..n], id, d, k) {
          if LastDecisionAt(decisions[..n], id, d, k) {
            forall m | k < m < |decisions| ensures decisions[m].pointId != id || id == "" {
              assert m < n ==> decisions[m] == decisions[..n][m];
            }
          }
          if LastDecisionAt(decisions, id, d, k) {
            forall m | k < m < n ensures decisions[..n][m].pointId != id {}
          }
        }
      }
    }
  }

  /** The adjudicator's last decision on the point finds it satisfied and defensible, without conflict. */
  ghost predicate Granted(decisions: seq<Decision>, id: string) {
    exists d :: LastDecision(decisions, id, d) && d.satisfied && d.defensible && !d.conflict
  }

  lemma GrantedExactly(decisions: seq<Decision>, id: string)
    ensures Accepts(decisions, id) <==> Granted(decisions, id)
  {
    forall d ensures DecisionFor(decisions, id) == Some(d) <==> LastDecision(decisions, id, d) {
      LastDecisionExactly(decisions, id, d);
    }
    if DecisionFor(decisions, id).Some? { assert LastDecision(decisions, id, DecisionFor(decisions, id).value); }
  }

  /** A point that is partial or missing, without conflict, on an open question. */
  ghost predicate AsksAdjudicator(a: Analysis, open: bool) {
    open && exists i :: 0 <= i < |a.points| && a.points[i].status in {Partial, Missing} && !a.points[i].conflict
  }

  /** `q` is `p` once credit is granted on it. */
  predicate WithCredit(p: Point, q: Point) {
    q.status == Covered && q.functional && q.alternative
    && q.rubric == (if p.rubric == NoIssue then OverSpecific else p.rubric)
    && q.id == p.id && q.text == p.text && q.weight == p.weight && q.semantic == p.semantic && q.conflict == p.conflict
  }

  /**
   Without a candidate point, an open question, or a reply that arrived, adjudication changes nothing; with
   them it grants credit on exactly the points the adjudicator's last decision grants, and full coverage
   without errors makes the answer supported with nothing missing.
   */
  lemma AdjudicatedExactly(a: Analysis, open: bool, reply: Option<seq<Decision>>)
    ensures var b := Adjudicated(a, open, reply);
            (!AsksAdjudicator(a, open) || reply.None? ==> b == a)
            && (AsksAdjudicator(a, open) && reply.Some? ==>
                  |b.points| == |a.points|
                  && (forall i :: 0 <= i < |a.points| ==>
                        if Granted(reply.value, a.points[i].id) then WithCredit(a.points[i], b.points[i])
                        else b.points[i] == a.points[i])
                  && (b.coverage == 1.0 && |a.errors| == 0 ==> b.correctness == Supported && b.missing == [])
                  && (b.coverage != 1.0 || |a.errors| > 0 ==> b.correctness == a.correctness && b.missing == a.missing)
                  && b == a.(points := b.points, coverage := b.coverage, reconciled := b.reconciled,
                             correctness := b.correctness, missing := b.missing))
  {
    AskedExactly(a, open);
    if reply.Some? { PromotedExactly(a.points, reply.value); }
  }

  lemma AskedExactly(a: Analysis, open: bool)
    ensures NeedsAdjudication(a, open) <==> AsksAdjudicator(a, open)
  {
    forall i | 0 <= i < |a.points|
      ensures IsCandidate(a.points[i]) <==> a.points[i].status in {Partial, Missing} && !a.points[i].conflict
    {}
  }

  lemma PromotedExactly(points: seq<Point>, decisions: seq<Decision>)
    ensures |Promoted(points, decisions)| == |points|
    ensures forall i :: 0 <= i < |points| ==>
              if Granted(decisions, points[i].id) then WithCredit(points[i], Promoted(points, decisions)[i])
              else Promoted(points, decisions)[i] == points[i]
  {
    forall i | 0 <= i < |points| ensures Accepts(decisions, points[i].id) <==> Granted(decisions, points[i].id) {
      GrantedExactly(decisions, points[i].id);
    }
  }

  // ----- the guard -----

  /** The answer repeats an earlier one to another question. */
  ghost predicate Repeats(similarities: seq<real>) {
    exists i :: 0 <= i < |similarities| && similarities[i] >= 0.88
  }

  lemma {:induction false} RepeatsExactly(similarities: seq<real>)
    ensures MaxSimilarity(similarities) >= 0.88 <==> Repeats(similarities)
  {
    if similarities != [] {
      var n := |similarities| - 1;
      RepeatsExactly(similarities[..n]);
      if i :| 0 <= i < |similarities| && similarities[i] >= 0.88 {
        assert i < n ==> similarities[..n][i] >= 0.88;
      }
      if i :| 0 <= i < n && similarities[..n][i] >= 0.88 { assert similarities[i] >= 0.88; }
    }
  }

  /** The relevance the guard goes by. */
  ghost function Effective(a: Analysis, similarities: seq<real>): real
    requires 0.0 <= a.relevance <= 1.0
  {
    if Repeats(similarities) && a.relevance > 0.35 then 0.35 else a.relevance
  }

  /** The cap an answer of that relevance gets, if any. */
  predicate CapIs(relevance: real, direct: bool, cap: Option<real>) {
    (cap == Some(0.25) <==> relevance < 0.2)
    && (cap == Some(0.45) <==> relevance >= 0.2 && (relevance < 0.4 || !direct))
    && (cap == Some(0.65) <==> 0.4 <= relevance < 0.6 && direct)
    && (cap == None <==> relevance >= 0.6 && direct)
  }

  /** What the guard goes by and says. */
  lemma GuardTold(a: Analysis, similarities: seq<real>)
    requires 0.0 <= a.relevance <= 1.0 && a.scoreCap == None
    ensures var g, relevance, direct := Guarded(a, similarities), Effective(a, similarities), a.direct && !Repeats(similarities);
            CapIs(relevance, direct, g.scoreCap)
            && (g.duplicate <==> Repeats(similarities)) && (g.direct <==> direct) && g.relevance == RoundTo(relevance, 10000)
            && g == (if g.scoreCap.Some? then Capped(a, g.scoreCap.value) else a)
                    .(relevance := g.relevance, direct := g.direct, duplicate := g.duplicate)
  {
    RepeatsExactly(similarities);
    CapExactly(Effective(a, similarities), a.direct && !Repeats(similarities));
  }

  /** `p` loses half of a full credit. */
  predicate Halved(p: Point, q: Point) {
    q == p.(status := q.status) && q.status == if p.status == Covered then Partial else p.status
  }

  lemma CappedExactly(a: Analysis, cap: real)
    ensures var g := Capped(a, cap);
            |g.points| == |a.points| && (forall i :: 0 <= i < |a.points| ==> Halved(a.points[i], g.points[i]))
            && g.correctness == (if a.correctness == Supported then PartiallySupported else a.correctness)
            && g == a.(points := g.points, coverage := g.coverage, correctness := g.correctness, missing := g.missing,
                       scoreCap := Some(cap))
  {}

  /**
   The guard caps by relevance and directness, a repeated answer counting as indirect and at most 0.35
   relevant. Capped, every full credit is halved and a supported answer is only partly so; uncapped, nothing
   but what the guard says of the answer changes.
   */
  lemma GuardedExactly(a: Analysis, similarities: seq<real>)
    requires 0.0 <= a.relevance <= 1.0 && a.scoreCap == None
    ensures var g, relevance, direct := Guarded(a, similarities), Effective(a, similarities), a.direct && !Repeats(similarities);
            CapIs(relevance, direct, g.scoreCap)
            && (g.duplicate <==> Repeats(similarities)) && (g.direct <==> direct) && g.relevance == RoundTo(relevance, 10000)
            && (g.scoreCap.Some? ==>
                  |g.points| == |a.points| && (forall i :: 0 <= i < |a.points| ==> Halved(a.points[i], g.points[i]))
                  && g.correctness == (if a.correctness == Supported then PartiallySupported else a.correctness)
                  && g.errors == a.errors && g.followups == a.followups && g.reconciled == a.reconciled && g.answered == a.answered)
            && (g.scoreCap == None ==> g == a.(relevance := g.relevance, direct := g.direct, duplicate := g.duplicate))
  {
    var g := Guarded(a, similarities);
    GuardTold(a, similarities);
    if g.scoreCap.Some? { CappedExactly(a, g.scoreCap.value); }
  }

  lemma CapExactly(relevance: real, direct: bool)
    ensures CapIs(relevance, direct, ScoreCap(relevance, direct))
  {}

  // ----- the pipeline -----

  /** The first reply counts if it is accepted, else the corrected one; if neither is, the analysis fails. */
  lemma AnalyzedExactly(env: Surroundings, records: seq<Record>)
    ensures Analyzed(env, records).Success? <==>
            Normalized(env.first, records).Success? || Normalized(env.corrected, records).Success?
    ensures Analyzed(env, records).Success? ==>
              var reply := if Normalized(env.first, records).Success? then env.first else env.corrected;
              Analyzed(env, records).value ==
              Guarded(Adjudicated(Normalized(reply, records).value, env.open, env.adjudication), env.similarities)
    ensures Analyzed(env, records).Failure? ==> Analyzed(env, records).error == Normalized(env.corrected, records).error
  {}
}
