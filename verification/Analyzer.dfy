/**
 The three stages of `analyzer.py` that turn an untrusted model judgement into the coverage
 number the policy acts on: normalise, adjudicate open answers, guard relevance. Model replies
 and similarity ratios are arbitrary inputs.
 */
module Analyzer {
  import opened Numbers
  import opened Wrappers
  import opened Assessment

  datatype ErrorKind = ExplicitFactConflict | LogicFailure | RubricMismatch | UnverifiedClaim | OtherKind

  datatype ErrorAssessment = ErrorAssessment(kind: ErrorKind, text: string)

  /** The part of a model reply the stages read. */
  datatype Reply = Reply(
    correctness: Option<Correctness>,
    judgements: seq<RawPoint>,
    errorAssessments: Option<seq<ErrorAssessment>>,
    errors: seq<string>,
    missing: seq<string>,
    followups: seq<string>,
    answered: bool,
    relevance: Option<real>,
    direct: bool)

  /** One decision of the adjudicator. */
  datatype Decision = Decision(pointId: string, satisfied: bool, defensible: bool, conflict: bool)

  /** The `analysis` dictionary. */
  datatype Analysis = Analysis(
    points: seq<Point>,
    coverage: real,
    correctness: Correctness,
    errors: seq<string>,
    missing: seq<string>,
    followups: seq<string>,
    reconciled: seq<string>,
    answered: bool,
    relevance: real,
    direct: bool,
    duplicate: bool,
    scoreCap: Option<real>)

  const DUPLICATE_THRESHOLD := 0.88

  // ----- stage one: normalise -----

  function Reconcile(p: Point): Point {
    if p.status != Contradicted && !p.conflict
       && (p.semantic == Equivalent || p.alternative || (p.functional && p.rubric != NoIssue))
    then p.(status := Covered)
    else p
  }

  function Reconciled(points: seq<Point>): seq<Point> {
    seq(|points|, i requires 0 <= i < |points| => Reconcile(points[i]))
  }

  function ReconciledIds(points: seq<Point>): seq<string> {
    if points == [] then []
    else
      var last := points[|points| - 1];
      ReconciledIds(points[..|points| - 1]) + if Reconcile(last) != last then [last.id] else []
  }

  /** Errors that count: conflicts with facts and logic failures, once errors are assessed at all. */
  function CountedErrors(assessed: seq<ErrorAssessment>): seq<string> {
    if assessed == [] then []
    else
      var e := assessed[0];
      (if (e.kind == ExplicitFactConflict || e.kind == LogicFailure) && e.text != "" then [e.text] else [])
      + CountedErrors(assessed[1..])
  }

  function ReplyErrors(reply: Reply): seq<string> {
    match reply.errorAssessments
    case None => reply.errors
    case Some(assessed) => CountedErrors(assessed)
  }

  /** `clamp(value, 1.0)`: a relevance that is not a number counts as full relevance. */
  function RelevanceOf(relevance: Option<real>): real {
    match relevance
    case None => 1.0
    case Some(value) => Clamp(value)
  }

  function RoundedCoverage(points: seq<Point>): real {
    RoundTo(PointCoverage(points), 10000)
  }

  /** The dictionary built around the reconciled points. */
  function Assembled(reply: Reply, correctness: Correctness, points: seq<Point>, coverage: real,
                     reconciled: seq<string>): Analysis
  {
    var errors := ReplyErrors(reply);
    Analysis(
      points, coverage,
      if coverage == 1.0 && errors == [] then Supported else correctness,
      errors,
      if coverage == 1.0 then [] else reply.missing,
      reply.followups, reconciled, reply.answered,
      RelevanceOf(reply.relevance), reply.direct, false, None)
  }

  function Normalized(reply: Reply, records: seq<Record>): Result<Analysis, ReplyError> {
    if reply.correctness.None? then Failure(UnknownCorrectness)
    else match NormalizePoints(reply.judgements, records)
      case Failure(error) => Failure(error)
      case Success(raw) =>
        var points := Reconciled(raw);
        Success(Assembled(reply, reply.correctness.value, points, RoundedCoverage(points), ReconciledIds(raw)))
  }

  // ----- stage two: adjudicate -----

  predicate IsCandidate(p: Point) {
    (p.status == Partial || p.status == Missing) && !p.conflict
  }

  function DecisionFor(decisions: seq<Decision>, id: string): Option<Decision> {
    if decisions == [] then None
    else
      var last := decisions[|decisions| - 1];
      if last.pointId == id && id != "" then Some(last) else DecisionFor(decisions[..|decisions| - 1], id)
  }

  /** The reply's last word on `id` grants credit. */
  predicate Accepts(decisions: seq<Decision>, id: string) {
    match DecisionFor(decisions, id)
    case None => false
    case Some(d) => d.satisfied && d.defensible && !d.conflict
  }

  function Promote(p: Point, decisions: seq<Decision>): Point {
    if Accepts(decisions, p.id)
    then p.(status := Covered, functional := true, alternative := true,
            rubric := if p.rubric == NoIssue then OverSpecific else p.rubric)
    else p
  }

  function Promoted(points: seq<Point>, decisions: seq<Decision>): seq<Point> {
    seq(|points|, i requires 0 <= i < |points| => Promote(points[i], decisions))
  }

  function PromotedIds(known: seq<string>, points: seq<Point>, decisions: seq<Decision>): seq<string> {
    if points == [] then known
    else
      var last := points[|points| - 1];
      var ids := PromotedIds(known, points[..|points| - 1], decisions);
      if Accepts(decisions, last.id) && last.id !in ids then ids + [last.id] else ids
  }

  /** The adjudicator is asked only about an open question with a candidate point. */
  predicate NeedsAdjudication(a: Analysis, open: bool) {
    open && exists i :: 0 <= i < |a.points| && IsCandidate(a.points[i])
  }

  /** `reply` is `None` when the call raised; the analysis is then kept as it is. */
  function Adjudicated(a: Analysis, open: bool, reply: Option<seq<Decision>>): Analysis {
    if !NeedsAdjudication(a, open) || reply.None? then a
    else
      var points := Promoted(a.points, reply.value);
      var coverage := RoundedCoverage(points);
      var full := coverage == 1.0 && a.errors == [];
      a.(points := points, coverage := coverage,
         reconciled := PromotedIds(a.reconciled, a.points, reply.value),
         correctness := if full then Supported else a.correctness,
         missing := if full then [] else a.missing)
  }

  // ----- stage three: guard relevance -----

  function MaxSimilarity(similarities: seq<real>): real {
    if similarities == [] then 0.0
    else MaxReal(MaxSimilarity(similarities[..|similarities| - 1]), similarities[|similarities| - 1])
  }

  function ScoreCap(relevance: real, direct: bool): Option<real> {
    if relevance < 0.2 then Some(0.25)
    else if relevance < 0.4 || !direct then Some(0.45)
    else if relevance < 0.6 then Some(0.65)
    else None
  }

  function Demote(p: Point): Point {
    if p.status == Covered then p.(status := Partial) else p
  }

  function Demoted(points: seq<Point>): seq<Point> {
    seq(|points|, i requires 0 <= i < |points| => Demote(points[i]))
  }

  function UncoveredTexts(points: seq<Point>): seq<string> {
    if points == [] then []
    else
      var last := points[|points| - 1];
      UncoveredTexts(points[..|points| - 1]) + if last.status != Covered then [last.text] else []
  }

  /** The dictionary once a score cap applies: no point keeps full credit. */
  function Capped(a: Analysis, cap: real): Analysis {
    var points := Demoted(a.points);
    a.(points := points, coverage := RoundedCoverage(points),
       correctness := if a.correctness == Supported then PartiallySupported else a.correctness,
       missing := UncoveredTexts(points), scoreCap := Some(cap))
  }

  /** `similarities` are the ratios against prior answers to other questions that are long enough. */
  function Guarded(a: Analysis, similarities: seq<real>): Analysis {
    var duplicate := MaxSimilarity(similarities) >= DUPLICATE_THRESHOLD;
    var relevance := if duplicate then MinReal(Clamp(a.relevance), 0.35) else Clamp(a.relevance);
    var direct := a.direct && !duplicate;
    var cap := ScoreCap(relevance, direct);
    (if cap.None? then a else Capped(a, cap.value)).(relevance := RoundTo(relevance, 10000), direct := direct, duplicate := duplicate)
  }

  // ----- the pipeline -----

  /** Everything the surroundings supply for one answer. */
  datatype Surroundings = Surroundings(
    first: Reply,
    corrected: Reply,
    open: bool,
    adjudication: Option<seq<Decision>>,
    similarities: seq<real>)

  /** A reply that breaks the contract is corrected once; a second breach fails the analysis. */
  function Accepted(env: Surroundings, records: seq<Record>): Result<Analysis, ReplyError> {
    var first := Normalized(env.first, records);
    if first.Success? then first else Normalized(env.corrected, records)
  }

  function Analyzed(env: Surroundings, records: seq<Record>): Result<Analysis, ReplyError> {
    match Accepted(env, records)
    case Failure(error) => Failure(error)
    case Success(a) => Success(Guarded(Adjudicated(a, env.open, env.adjudication), env.similarities))
  }

  method HighestSimilarity(similarities: seq<real>) returns (highest: real)
    ensures highest == MaxSimilarity(similarities)
  {
    highest := 0.0;
    for i := 0 to |similarities|
      invariant highest == MaxSimilarity(similarities[..i])
    {
      assert similarities[..i + 1][..i] == similarities[..i];
      highest := MaxReal(highest, similarities[i]);
    }
    assert similarities[..|similarities|] == similarities;
  }

  /** The shared dictionary the stages update in place. */
  class AnswerAnalyzer {
    var points: seq<Point>
    var coverage: real
    var correctness: Correctness
    var errors: seq<string>
    var missing: seq<string>
    var followups: seq<string>
    var reconciled: seq<string>
    var answered: bool
    var relevance: real
    var direct: bool
    var duplicate: bool
    var scoreCap: Option<real>

    constructor ()
      ensures points == [] && scoreCap == None
    {
      points, errors, missing, followups, reconciled := [], [], [], [], [];
      coverage, relevance, correctness := 0.0, 1.0, Insufficient;
      answered, direct, duplicate, scoreCap := true, true, false, None;
    }

    ghost function View(): Analysis
      reads this
    {
      Analysis(points, coverage, correctness, errors, missing, followups, reconciled, answered,
               relevance, direct, duplicate, scoreCap)
    }

    /** The loop that grants full credit to equivalent and alternative answers. */
    method ReconcilePoints()
      modifies `points, `reconciled
      ensures points == Reconciled(old(points)) && reconciled == ReconciledIds(old(points))
    {
      ghost var raw := points;
      reconciled := [];
      for i := 0 to |points|
        invariant |points| == |raw|
        invariant forall j :: 0 <= j < i ==> points[j] == Reconcile(raw[j])
        invariant forall j :: i <= j < |raw| ==> points[j] == raw[j]
        invariant reconciled == ReconciledIds(raw[..i])
      {
        var item := points[i];
        assert raw[..i + 1][..i] == raw[..i];
        if item.status != Contradicted {
          var equivalent := item.semantic == Equivalent;
          var validAlternative := item.alternative || (item.functional && item.rubric != NoIssue);
          if !item.conflict && (equivalent || validAlternative) && item.status != Covered {
            points := points[i := item.(status := Covered)];
            reconciled := reconciled + [item.id];
          }
        }
      }
      assert raw[..|raw|] == raw;
    }

    method Normalize(reply: Reply, records: seq<Record>) returns (failed: Option<ReplyError>)
      modifies this
      ensures match Normalized(reply, records)
              case Failure(error) => failed == Some(error) && View() == old(View())
              case Success(a) => failed == None && View() == a
    {
      if reply.correctness.None? {
        return Some(UnknownCorrectness);
      }
      var normalized := NormalizePointAssessments(reply.judgements, records);
      if normalized.Failure? {
        return Some(normalized.error);
      }
      points := normalized.value;
      ReconcilePoints();
      Assemble(reply, RoundedCoverage(points));
      failed := None;
    }

    /** Fills the dictionary around the reconciled points. */
    method Assemble(reply: Reply, rounded: real)
      requires reply.correctness.Some?
      modifies this
      ensures View() == Assembled(reply, reply.correctness.value, old(points), rounded, old(reconciled))
    {
      coverage := rounded;
      errors := ReplyErrors(reply);
      correctness := if coverage == 1.0 && errors == [] then Supported else reply.correctness.value;
      missing := if coverage == 1.0 then [] else reply.missing;
      followups, answered := reply.followups, reply.answered;
      relevance, direct := RelevanceOf(reply.relevance), reply.direct;
      duplicate, scoreCap := false, None;
    }

    /** The loop over all points, asked about or not, that applies the adjudicator's decisions. */
    method PromotePoints(decisions: seq<Decision>)
      modifies `points, `reconciled
      ensures points == Promoted(old(points), decisions)
      ensures reconciled == PromotedIds(old(reconciled), old(points), decisions)
    {
      ghost var before, known := points, reconciled;
      for i := 0 to |points|
        invariant |points| == |before|
        invariant forall j :: 0 <= j < i ==> points[j] == Promote(before[j], decisions)
        invariant forall j :: i <= j < |before| ==> points[j] == before[j]
        invariant reconciled == PromotedIds(known, before[..i], decisions)
      {
        assert before[..i + 1][..i] == before[..i];
        var point := points[i];
        var decision := DecisionFor(decisions, point.id);
        if decision.Some? && decision.value.satisfied && decision.value.defensible && !decision.value.conflict {
          points := points[i := point.(status := Covered, functional := true, alternative := true,
            rubric := if point.rubric == NoIssue then OverSpecific else point.rubric)];
          if point.id !in reconciled {
            reconciled := reconciled + [point.id];
          }
        }
      }
      assert before[..|before|] == before;
    }

    method AdjudicateOpenAnswer(open: bool, reply: Option<seq<Decision>>)
      modifies this
      ensures View() == Adjudicated(old(View()), open, reply)
    {
      if !(open && exists i :: 0 <= i < |points| && IsCandidate(points[i])) || reply.None? {
        return;
      }
      PromotePoints(reply.value);
      coverage := RoundedCoverage(points);
      if coverage == 1.0 && errors == [] {
        correctness, missing := Supported, [];
      }
    }

    /** The loop that halves full credit. */
    method DemotePoints()
      modifies `points
      ensures points == Demoted(old(points))
    {
      ghost var before := points;
      for i := 0 to |points|
        invariant |points| == |before|
        invariant forall j :: 0 <= j < i ==> points[j] == Demote(before[j])
        invariant forall j :: i <= j < |before| ==> points[j] == before[j]
      {
        if points[i].status == Covered {
          points := points[i := points[i].(status := Partial)];
        }
      }
    }

    method Cap(cap: real)
      modifies this
      ensures View() == Capped(old(View()), cap)
    {
      DemotePoints();
      coverage := RoundedCoverage(points);
      if correctness == Supported {
        correctness := PartiallySupported;
      }
      missing := UncoveredTexts(points);
      scoreCap := Some(cap);
    }

    method ApplyRelevanceGuard(similarities: seq<real>)
      modifies this
      ensures View() == Guarded(old(View()), similarities)
    {
      var maxSimilarity := HighestSimilarity(similarities);
      duplicate := maxSimilarity >= DUPLICATE_THRESHOLD;
      var current := Clamp(relevance);
      if duplicate {
        current := MinReal(current, 0.35);
        direct := false;
      }
      var cap := ScoreCap(current, direct);
      if cap.Some? {
        Cap(cap.value);
      }
      relevance := RoundTo(current, 10000);
    }

    method Analyze(env: Surroundings, expected: seq<ExpectedPoint>, text: string)
      returns (failed: Option<ReplyError>, ghost records: seq<Record>)
      modifies this
      ensures |records| == |PointsToAssess(expected, text)| > 0
      ensures forall i :: 0 <= i < |records| ==> records[i] == RecordOf(PointsToAssess(expected, text)[i], i + 1)
      ensures match Analyzed(env, records)
              case Failure(error) => failed == Some(error) && View() == old(View())
              case Success(a) => failed == None && View() == a
    {
      var wanted := ExpectedPointRecords(expected, text);
      records := wanted;
      failed := Normalize(env.first, wanted);
      if failed.Some? {
        failed := Normalize(env.corrected, wanted);
        if failed.Some? {
          return;
        }
      }
      AdjudicateOpenAnswer(env.open, env.adjudication);
      ApplyRelevanceGuard(env.similarities);
    }
  }

  // ----- what each stage keeps -----

  /** The cached number is the rounded coverage of the points it is stored beside. */
  ghost predicate Consistent(a: Analysis) {
    a.coverage == RoundedCoverage(a.points) && 0.0 <= a.coverage <= 1.0
  }

  lemma CoverageInUnit(points: seq<Point>)
    ensures 0.0 <= RoundedCoverage(points) <= 1.0
  {
    RoundUnit(PointCoverage(points), 10000);
  }

  /** Reconciliation only adds credit, and never to a contradicted or conflicting point. */
  lemma NormalizedIsConsistent(reply: Reply, records: seq<Record>)
    requires Normalized(reply, records).Success?
    ensures var a := Normalized(reply, records).value;
            var raw := NormalizePoints(reply.judgements, records).value;
            Normalizes(reply.judgements, records, raw)
            && Consistent(a) && RoundedCoverage(raw) <= a.coverage && |a.points| == |raw|
            && (forall i :: 0 <= i < |raw| ==>
                  a.points[i].(status := raw[i].status) == raw[i]
                  && (raw[i].status == Contradicted || raw[i].conflict ==> a.points[i] == raw[i]))
            && (a.coverage == 1.0 && a.errors == [] ==> a.correctness == Supported)
  {
    var raw := NormalizePoints(reply.judgements, records).value;
    NormalizationIsExact(reply.judgements, records);
    CoverageInUnit(Reconciled(raw));
    assert NoWorse(raw, Reconciled(raw));
    CoverageMono(raw, Reconciled(raw));
  }

  lemma AdjudicatedIsConsistent(a: Analysis, open: bool, reply: Option<seq<Decision>>)
    requires Consistent(a)
    ensures Consistent(Adjudicated(a, open, reply))
    ensures a.coverage <= Adjudicated(a, open, reply).coverage
  {
    if NeedsAdjudication(a, open) && reply.Some? {
      var points := Promoted(a.points, reply.value);
      CoverageInUnit(points);
      assert NoWorse(a.points, points);
      CoverageMono(a.points, points);
    }
  }

  /** The guard only takes credit away; once it caps, no point is worth more than half. */
  lemma GuardedIsConsistent(a: Analysis, similarities: seq<real>)
    requires Consistent(a)
    ensures var g := Guarded(a, similarities);
            Consistent(g) && g.coverage <= a.coverage
            && (ScoreCap(if g.duplicate then MinReal(Clamp(a.relevance), 0.35) else Clamp(a.relevance), g.direct).Some?
                ==> g.coverage <= 0.5 && g.correctness != Supported)
  {
    var g := Guarded(a, similarities);
    if g.points != a.points || g.coverage != a.coverage || g.correctness != a.correctness {
      assert g.points == Demoted(a.points);
    }
    var points := Demoted(a.points);
    CoverageInUnit(points);
    assert NoWorse(points, a.points);
    CoverageMono(points, a.points);
    assert 0.5 * 10000 as real == 5000 as real;
    CoverageAtMost(points, 0.5);
  }

  /**
   Coverage is compared with 1 after rounding: an analysis counts as complete exactly when the points
   fall short of full credit by no more than half a unit of the fourth decimal.
   */
  lemma FullMarksExactly(reply: Reply, records: seq<Record>)
    requires Normalized(reply, records).Success?
    ensures var a := Normalized(reply, records).value;
            a.coverage == 1.0 <==> PointCoverage(a.points) >= 0.99995
  {
    var c := PointCoverage(Normalized(reply, records).value.points);
    assert RoundTo(c, 10000) == RoundHalfEven(c * 10000.0) as real / 10000.0;
    assert RoundTo(c, 10000) == 1.0 <==> RoundHalfEven(c * 10000.0) == 10000;
  }

  lemma NearlyFullCoverage(covered: Point, missing: Point)
    requires covered.weight == 99996.0 && covered.status == Covered && missing.weight == 4.0 && missing.status == Missing
    ensures RoundedCoverage([covered, missing]) == 1.0
  {
    var a, b := Weighted(1.0, 99996.0), Weighted(0.0, 4.0);
    assert PointItems([covered, missing]) == [a, b];
    TwoItems(a, b);
    assert PointCoverage([covered, missing]) == 0.99996;
    assert 0.99996 * 10000.0 == 9999.6 && RoundHalfEven(9999.6) == 10000;
    assert RoundTo(0.99996, 10000) == 1.0;
  }

  lemma NormalizesTwo(raw: seq<RawPoint>, a: Record, b: Record, p: Point, q: Point)
    requires NormalizePoint(raw, a) == Success(p) && NormalizePoint(raw, b) == Success(q)
    ensures NormalizeFrom(raw, [a, b]) == Success([p, q])
  {
    assert [a, b][1..] == [b] && [b][1..] == [];
    assert NormalizeFrom(raw, [b]) == Success([q] + []);
    assert [q] + [] == [q] && [p] + [q] == [p, q];
  }

  lemma JudgedTwo(a: RawPoint, b: RawPoint)
    requires a.pointId == "P1" && b.pointId == "P2"
    ensures LastFor([a, b], "P1") == Some(a) && LastFor([a, b], "P2") == Some(b)
  {
    assert [a, b][..1] == [a];
    assert LastFor([a], "P1") == Some(a);
  }

  function Judged(id: string, status: PointStatus): RawPoint {
    RawPoint(id, Some(status), Some(NoMatch), false, false, false, Some(NoIssue))
  }

  /**
   An instance: the reply finds the second point missing, and its small weight is rounded away: the answer
   is supported, with nothing missing.
   */
  lemma RoundedUpMissesNothing() returns (reply: Reply, records: seq<Record>)
    ensures reply.missing == ["second"] && Normalized(reply, records).Success?
    ensures var a := Normalized(reply, records).value;
            |a.points| == 2 && a.points[1].text == "second" && a.points[1].status == Missing
            && a.coverage == 1.0 && a.correctness == Supported && a.missing == []
  {
    var a, b := Judged("P1", Covered), Judged("P2", Missing);
    var first := Point("P1", "first", 99996.0, Covered, NoMatch, false, false, false, NoIssue);
    var second := Point("P2", "second", 4.0, Missing, NoMatch, false, false, false, NoIssue);
    records := [Record("P1", "first", 99996.0), Record("P2", "second", 4.0)];
    reply := Reply(Some(PartiallySupported), [a, b], None, [], ["second"], [], true, None, true);
    JudgedTwo(a, b);
    NormalizesTwo([a, b], records[0], records[1], first, second);
    assert Reconciled([first, second]) == [first, second];
    NearlyFullCoverage(first, second);
  }

  lemma {:induction false} NothingCovered(points: seq<Point>)
    requires forall i :: 0 <= i < |points| ==> points[i].status != Covered
    ensures |UncoveredTexts(points)| == |points|
    ensures forall i :: 0 <= i < |points| ==> UncoveredTexts(points)[i] == points[i].text
  {
    if points != [] { NothingCovered(points[..|points| - 1]); }
  }

  /** A capped answer is told that every expected point is still missing. */
  lemma CappedMissesEverything(a: Analysis, cap: real)
    ensures var g := Capped(a, cap);
            |g.missing| == |g.points| == |a.points|
            && forall i :: 0 <= i < |a.points| ==> g.missing[i] == a.points[i].text
  {
    NothingCovered(Demoted(a.points));
  }

  /** Adjudication adds to the reconciled ids exactly those of points it accepts. */
  lemma {:induction false} PromotedIdsExactly(known: seq<string>, points: seq<Point>, decisions: seq<Decision>, id: string)
    ensures id in PromotedIds(known, points, decisions) <==>
            id in known || exists i :: 0 <= i < |points| && points[i].id == id && Accepts(decisions, id)
  {
    if points != [] {
      var n := |points| - 1;
      PromotedIdsExactly(known, points[..n], decisions, id);
      if i :| 0 <= i < n && points[i].id == id && Accepts(decisions, id) {
        assert points[..n][i].id == id;
      }
      if i :| 0 <= i < n && points[..n][i].id == id && Accepts(decisions, id) {
        assert points[i].id == id;
      }
    }
  }

  // ----- when a contradicted point is promoted -----

  /** What the caller can check on the reply before it is applied. */
  ghost predicate NamesNoContradictedPoint(points: seq<Point>, decisions: seq<Decision>) {
    forall i :: 0 <= i < |points| && points[i].status == Contradicted ==> !Accepts(decisions, points[i].id)
  }

  /**
   Adjudication looks at every point the reply names, not only at the candidates it asked about;
   contradicted points stay contradicted exactly when no accepting decision names one.
   */
  lemma ContradictedKeptExactly(a: Analysis, open: bool, decisions: seq<Decision>)
    requires NeedsAdjudication(a, open)
    ensures NamesNoContradictedPoint(a.points, decisions) <==>
            (forall i :: 0 <= i < |a.points| && a.points[i].status == Contradicted ==>
               Adjudicated(a, open, Some(decisions)).points[i].status == Contradicted)
  {
    var after := Adjudicated(a, open, Some(decisions)).points;
    assert after == Promoted(a.points, decisions);
    forall i | 0 <= i < |a.points| && a.points[i].status == Contradicted
      ensures after[i].status == Contradicted <==> !Accepts(decisions, a.points[i].id)
    {}
  }

  /** A reply about a point it was not asked about turns a contradiction into full credit. */
  lemma ContradictedPointPromoted()
    ensures var p := Point("P1", "first", 1.0, Contradicted, NoMatch, false, true, false, NoIssue);
            var q := Point("P2", "second", 1.0, Partial, NoMatch, false, false, false, NoIssue);
            var a := Analysis([p, q], 0.25, Unsupported, [], [], [], [], true, 1.0, true, false, None);
            var b := Adjudicated(a, true, Some([Decision("P1", true, true, false)]));
            Consistent(a) && b.points[0].status == Covered && b.coverage == 0.75
  {
    var p := Point("P1", "first", 1.0, Contradicted, NoMatch, false, true, false, NoIssue);
    var q := Point("P2", "second", 1.0, Partial, NoMatch, false, false, false, NoIssue);
    var a := Analysis([p, q], 0.25, Unsupported, [], [], [], [], true, 1.0, true, false, None);
    var d := [Decision("P1", true, true, false)];
    assert IsCandidate(a.points[1]);
    assert DecisionFor(d, "P1") == Some(d[0]);
    TwoPoints(p, q);
    TwoPoints(Promote(p, d), q);
    assert DecisionFor(d, "P2") == DecisionFor(d[..0], "P2") == None;
    assert Promoted(a.points, d) == [Promote(p, d), q];
    assert PointCoverage([p, q]) == 0.25 && PointCoverage([Promote(p, d), q]) == 0.75;
    assert OnGrid(0.25, 10000) && OnGrid(0.75, 10000);
    RoundFixesGrid(0.25, 10000);
    RoundFixesGrid(0.75, 10000);
  }

  lemma TwoPoints(p: Point, q: Point)
    requires p.weight == q.weight == 1.0
    ensures PointCoverage([p, q]) == (StatusValue(p.status) + StatusValue(q.status)) / 2.0
  {
    var a, b := Weighted(StatusValue(p.status), 1.0), Weighted(StatusValue(q.status), 1.0);
    assert PointItems([p, q]) == [a, b];
    TwoItems(a, b);
  }

  lemma TwoItems(a: Weighted, b: Weighted)
    ensures TotalWeight([a, b]) == a.weight + b.weight
    ensures WeightedSum([a, b]) == a.value * a.weight + b.value * b.weight
  {
    assert [a, b][1..] == [b] && [b][1..] == [];
    assert TotalWeight([b]) == b.weight && WeightedSum([b]) == b.value * b.weight;
  }

  // ----- the whole pipeline -----

  /**
   Whatever the model answers, an analysis that is delivered carries the coverage of its own points,
   and an answer the guard caps never passes as supported nor above one half.
   */
  lemma PipelineIsConsistent(env: Surroundings, records: seq<Record>)
    requires Analyzed(env, records).Success?
    ensures var a := Analyzed(env, records).value;
            Consistent(a) && (a.scoreCap.Some? ==> a.coverage <= 0.5 && a.correctness != Supported)
  {
    var first := Accepted(env, records).value;
    NormalizedIsConsistent(UsedReply(env, records), records);
    AdjudicatedIsConsistent(first, env.open, env.adjudication);
    GuardedIsConsistent(Adjudicated(first, env.open, env.adjudication), env.similarities);
  }

  /** The guard caps exactly the answers that repeat another answer, miss the point, or score low relevance. */
  lemma GuardCapsExactly(env: Surroundings, records: seq<Record>)
    requires Analyzed(env, records).Success?
    ensures var a := Analyzed(env, records).value;
            var normalized := Accepted(env, records).value;
            a.scoreCap.Some? <==> normalized.relevance < 0.6 || !normalized.direct
                                  || exists s :: s in env.similarities && s >= DUPLICATE_THRESHOLD
  {
    MaxSimilarityIsMax(env.similarities);
  }

  lemma {:induction false} MaxSimilarityIsMax(similarities: seq<real>)
    ensures MaxSimilarity(similarities) >= DUPLICATE_THRESHOLD <==>
            exists s :: s in similarities && s >= DUPLICATE_THRESHOLD
  {
    if similarities != [] {
      var n := |similarities| - 1;
      MaxSimilarityIsMax(similarities[..n]);
      assert similarities == similarities[..n] + [similarities[n]];
      assert similarities[n] in similarities && forall s :: s in similarities <==> s in similarities[..n] || s == similarities[n];
    }
  }

  /** The reply whose judgement is used. */
  function UsedReply(env: Surroundings, records: seq<Record>): Reply {
    if Normalized(env.first, records).Success? then env.first else env.corrected
  }

  lemma ContradictionIsRead(reply: Reply, records: seq<Record>, i: nat)
    requires Normalized(reply, records).Success? && i < |records|
    requires LastFor(reply.judgements, records[i].id).Some?
    requires LastFor(reply.judgements, records[i].id).value.status == Some(Contradicted)
    ensures |Normalized(reply, records).value.points| == |records|
    ensures Normalized(reply, records).value.points[i].status == Contradicted
  {
    NormalizedIsConsistent(reply, records);
    var raw := NormalizePoints(reply.judgements, records).value;
    assert NormalizePoint(reply.judgements, records[i]) == Success(raw[i]);
  }

  ghost predicate NamesOnlyCandidates(points: seq<Point>, decisions: seq<Decision>) {
    forall j :: 0 <= j < |points| && Accepts(decisions, points[j].id) ==> IsCandidate(points[j])
  }

  lemma ContradictionIsKept(a: Analysis, open: bool, reply: Option<seq<Decision>>, similarities: seq<real>, i: nat)
    requires i < |a.points| && a.points[i].status == Contradicted
    requires reply.Some? ==> NamesOnlyCandidates(a.points, reply.value)
    ensures var b := Guarded(Adjudicated(a, open, reply), similarities);
            |b.points| == |a.points| && b.points[i].status == Contradicted
  {
    var adjudicated := Adjudicated(a, open, reply);
    assert |adjudicated.points| == |a.points| && adjudicated.points[i].status == Contradicted;
    assert Demoted(adjudicated.points)[i] == Demote(adjudicated.points[i]);
  }

  /** With adjudications that name only candidates, no contradicted judgement ever gains credit. */
  lemma ContradictionsSurvive(env: Surroundings, records: seq<Record>, i: nat)
    requires Analyzed(env, records).Success? && i < |records|
    requires env.adjudication.Some? ==>
               NamesOnlyCandidates(Accepted(env, records).value.points, env.adjudication.value)
    requires LastFor(UsedReply(env, records).judgements, records[i].id).Some?
    requires LastFor(UsedReply(env, records).judgements, records[i].id).value.status == Some(Contradicted)
    ensures |Analyzed(env, records).value.points| == |records|
    ensures Analyzed(env, records).value.points[i].status == Contradicted
  {
    ContradictionIsRead(UsedReply(env, records), records, i);
    ContradictionIsKept(Accepted(env, records).value, env.open, env.adjudication, env.similarities, i);
  }
}
