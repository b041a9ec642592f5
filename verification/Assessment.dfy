/**
 The point-by-point assessment contract of `assessment.py`: the records an answer is judged
 against, the normalisation of an untrusted list of point judgements, and the coverage number.
 */
module Assessment {
  import opened Numbers
  import opened Wrappers

  datatype Correctness = Supported | PartiallySupported | Unsupported | Insufficient

  datatype PointStatus = Covered | Partial | Missing | Contradicted

  datatype SemanticMatch = Equivalent | PartialMatch | NoMatch

  datatype RubricIssue = NoIssue | OverSpecific | UnsupportedByContext | Ambiguous

  /** An entry of a question's `expected_points`: plain text or a dictionary ("" is an absent id). */
  datatype ExpectedPoint = Plain(text: string) | Described(id: string, text: string, weight: real)

  datatype Record = Record(id: string, text: string, weight: real)

  /** One judgement of the model; a label that no alias resolves is `None`. */
  datatype RawPoint = RawPoint(
    pointId: string,
    status: Option<PointStatus>,
    semantic: Option<SemanticMatch>,
    functional: bool,
    conflict: bool,
    alternative: bool,
    rubric: Option<RubricIssue>)

  datatype Point = Point(
    id: string,
    text: string,
    weight: real,
    status: PointStatus,
    semantic: SemanticMatch,
    functional: bool,
    conflict: bool,
    alternative: bool,
    rubric: RubricIssue)

  datatype ReplyError = NoAssessments | OmittedPoint(id: string) | UnknownLabel(id: string) | UnknownCorrectness

  // ----- expected point records -----

  function Digits(n: nat): string {
    if n < 10 then [('0' as int + n) as char] else Digits(n / 10) + [('0' as int + n % 10) as char]
  }

  function RecordOf(point: ExpectedPoint, index: nat): Record {
    match point
    case Plain(text) => Record("P" + Digits(index), text, 1.0)
    case Described(id, text, weight) =>
      Record(if id != "" then id else "P" + Digits(index), text, MaxReal(0.0, weight))
  }

  /** A question without expected points is judged on whether it was answered at all. */
  function PointsToAssess(points: seq<ExpectedPoint>, text: string): seq<ExpectedPoint> {
    if points != [] then points
    else [Plain("Directly answer the active question: " +
                (if text != "" then text else "Directly answer the active question."))]
  }

  method ExpectedPointRecords(points: seq<ExpectedPoint>, text: string) returns (records: seq<Record>)
    ensures |records| == |PointsToAssess(points, text)| > 0
    ensures forall i :: 0 <= i < |records| ==> records[i] == RecordOf(PointsToAssess(points, text)[i], i + 1)
    ensures forall i :: 0 <= i < |records| ==> records[i].weight >= 0.0
  {
    var assessed := PointsToAssess(points, text);
    records := [];
    for i := 0 to |assessed|
      invariant |records| == i
      invariant forall j :: 0 <= j < i ==> records[j] == RecordOf(assessed[j], j + 1)
    {
      records := records + [RecordOf(assessed[i], i + 1)];
    }
  }

  // ----- normalising the model's judgements -----

  /** `by_id[id]`: a later entry replaces an earlier one and entries without an id are dropped. */
  function LastFor(raw: seq<RawPoint>, id: string): Option<RawPoint> {
    if raw == [] then None
    else
      var last := raw[|raw| - 1];
      if last.pointId == id && id != "" then Some(last) else LastFor(raw[..|raw| - 1], id)
  }

  function NormalizePoint(raw: seq<RawPoint>, record: Record): Result<Point, ReplyError> {
    match LastFor(raw, record.id)
    case None => Failure(OmittedPoint(record.id))
    case Some(item) =>
      if item.status.None? || item.rubric.None? || item.semantic.None? then Failure(UnknownLabel(record.id))
      else Success(Point(record.id, record.text, record.weight, item.status.value, item.semantic.value,
                         item.functional, item.conflict, item.alternative, item.rubric.value))
  }

  /** What a complete normalisation yields: one point per record, in the records' order. */
  ghost predicate Normalizes(raw: seq<RawPoint>, records: seq<Record>, points: seq<Point>) {
    |points| == |records|
    && forall i :: 0 <= i < |records| ==> NormalizePoint(raw, records[i]) == Success(points[i])
  }

  function NormalizePoints(raw: seq<RawPoint>, records: seq<Record>): Result<seq<Point>, ReplyError> {
    if raw == [] then Failure(NoAssessments)
    else NormalizeFrom(raw, records)
  }

  function NormalizeFrom(raw: seq<RawPoint>, records: seq<Record>): Result<seq<Point>, ReplyError> {
    if records == [] then Success([])
    else match NormalizePoint(raw, records[0])
      case Failure(error) => Failure(error)
      case Success(point) =>
        match NormalizeFrom(raw, records[1..])
        case Failure(error) => Failure(error)
        case Success(rest) => Success([point] + rest)
  }

  /** A reply is accepted exactly when it judges every record, each with known labels. */
  lemma {:induction false} NormalizationIsExact(raw: seq<RawPoint>, records: seq<Record>)
    ensures NormalizeFrom(raw, records).Success? <==>
            forall i :: 0 <= i < |records| ==> NormalizePoint(raw, records[i]).Success?
    ensures NormalizeFrom(raw, records).Success? ==>
              Normalizes(raw, records, NormalizeFrom(raw, records).value)
  {
    if records != [] {
      var tail := records[1..];
      NormalizationIsExact(raw, tail);
      assert forall i :: 1 <= i < |records| ==> records[i] == tail[i - 1];
      if NormalizeFrom(raw, tail).Success? {
        forall i | 0 <= i < |records| && NormalizePoint(raw, records[0]).Success?
          ensures NormalizePoint(raw, records[i]) == Success(NormalizeFrom(raw, records).value[i])
        {
          if i > 0 { assert records[i] == tail[i - 1]; }
        }
      } else {
        var i :| 0 <= i < |tail| && !NormalizePoint(raw, tail[i]).Success?;
        assert records[i + 1] == tail[i];
      }
    }
  }

  method NormalizePointAssessments(raw: seq<RawPoint>, records: seq<Record>)
    returns (result: Result<seq<Point>, ReplyError>)
    ensures result == NormalizePoints(raw, records)
  {
    if raw == [] {
      return Failure(NoAssessments);
    }
    var normalized := [];
    assert records[0..] == records && forall rest: seq<Point> :: [] + rest == rest;
    for i := 0 to |records|
      invariant match NormalizeFrom(raw, records[i..])
                case Success(rest) => NormalizeFrom(raw, records) == Success(normalized + rest)
                case Failure(error) => NormalizeFrom(raw, records) == Failure(error)
    {
      assert records[i..][1..] == records[i + 1..];
      match NormalizePoint(raw, records[i]) {
        case Failure(error) => return Failure(error);
        case Success(point) =>
          ghost var before := normalized;
          normalized := normalized + [point];
          assert forall rest: seq<Point> :: before + ([point] + rest) == normalized + rest;
      }
    }
    assert normalized + [] == normalized;
    result := Success(normalized);
  }

  // ----- coverage -----

  function StatusValue(status: PointStatus): real {
    match status
    case Covered => 1.0
    case Partial => 0.5
    case Missing => 0.0
    case Contradicted => 0.0
  }

  function PointItems(points: seq<Point>): seq<Weighted> {
    seq(|points|, i requires 0 <= i < |points| =>
      Weighted(StatusValue(points[i].status), MaxReal(0.0, points[i].weight)))
  }

  function PointCoverage(points: seq<Point>): (c: real)
    ensures 0.0 <= c <= 1.0
  {
    var items := PointItems(points);
    if TotalWeight(items) <= 0.0 then 0.0 else Clamp(WeightedSum(items) / TotalWeight(items))
  }

  /** Same rubric, no point judged worse. */
  ghost predicate NoWorse(before: seq<Point>, after: seq<Point>) {
    |before| == |after|
    && forall i :: 0 <= i < |before| ==>
         before[i].weight == after[i].weight
         && StatusValue(before[i].status) <= StatusValue(after[i].status)
  }

  lemma CoverageMono(before: seq<Point>, after: seq<Point>)
    requires NoWorse(before, after)
    ensures PointCoverage(before) <= PointCoverage(after)
    ensures RoundTo(PointCoverage(before), 10000) <= RoundTo(PointCoverage(after), 10000)
  {
    var a, b := PointItems(before), PointItems(after);
    assert Dominated(a, b);
    WeightedSumMono(a, b);
    if TotalWeight(a) > 0.0 {
      MeanMono(a, b);
    }
    RoundMono(PointCoverage(before), PointCoverage(after), 10000);
  }

  /** When every point is worth at most `hi`, so is the coverage. */
  lemma CoverageAtMost(points: seq<Point>, hi: real)
    requires 0.0 <= hi <= 1.0 && OnGrid(hi, 10000)
    requires forall i :: 0 <= i < |points| ==> StatusValue(points[i].status) <= hi
    ensures PointCoverage(points) <= hi
    ensures RoundTo(PointCoverage(points), 10000) <= hi
  {
    var items := PointItems(points);
    if TotalWeight(items) > 0.0 {
      assert ValuesWithin(items, 0.0, hi);
      MeanWithin(items, 0.0, hi);
    }
    IntegersOnGrid(0, 10000);
    RoundBetween(0.0, PointCoverage(points), hi, 10000);
  }
}
