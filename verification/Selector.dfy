/**
 `adaptive.py`: the difficulty the examiner aims for, and the choice of the next question by
 prerequisites, type and difficulty bounds, objective coverage and a weighted score.
 */
module Selector {
  import opened Numbers
  import opened Wrappers
  import opened Questions

  datatype Unit = Unit(code: string, importance: real, prerequisites: seq<string>)

  /** A learner's state on one knowledge unit; `misconceived` says that some misconception is active. */
  datatype UnitState = UnitState(mastery: real, confidence: real, misconceived: bool)

  /** What the cognitive state service supplies at one selection; dictionaries keep their order. */
  datatype Knowledge = Knowledge(
    units: seq<(string, Unit)>,
    links: map<string, seq<string>>,
    states: seq<(string, UnitState)>,
    prior: set<string>)

  /** The template's question selection contract; absent bounds read as 1 and 5. */
  datatype SelectionPolicy = SelectionPolicy(
    allowedTypes: set<string>,
    coverage: seq<(string, int)>,
    minimum: int,
    maximum: int)

  // ----- the difficulty target -----

  datatype RatedState = RatedState(state: UnitState, importance: real)

  function MasteryItems(states: seq<RatedState>): seq<Weighted> {
    seq(|states|, i requires 0 <= i < |states| =>
      Weighted(states[i].state.mastery, MaxReal(0.1, states[i].importance)))
  }

  predicate Misconceived(states: seq<RatedState>) {
    exists i :: 0 <= i < |states| && states[i].state.misconceived
  }

  function Level(mastery: real): int {
    if mastery < 0.30 then 2 else if mastery < 0.55 then 3 else if mastery < 0.75 then 4 else 5
  }

  lemma MasteryWeights(states: seq<RatedState>)
    ensures NonNegativeWeights(MasteryItems(states))
    ensures states != [] ==> TotalWeight(MasteryItems(states)) > 0.0
  {
    TotalWeightNonNegative(MasteryItems(states));
    if states != [] {
      assert MasteryItems(states)[0].weight > 0.0;
    }
  }

  function MasteryMean(states: seq<RatedState>): real
    requires states != []
  {
    MasteryWeights(states);
    WeightedSum(MasteryItems(states)) / TotalWeight(MasteryItems(states))
  }

  function Target(states: seq<RatedState>): (level: int)
    ensures 2 <= level <= 5
  {
    if states == [] then 2
    else
      var level := Level(MasteryMean(states));
      if Misconceived(states) then MaxInt(2, level - 1) else level
  }

  /** The mean the target steps on lies between the least and the greatest mastery. */
  lemma MasteryMeanWithin(states: seq<RatedState>, lo: real, hi: real)
    requires states != []
    requires forall i :: 0 <= i < |states| ==> lo <= states[i].state.mastery <= hi
    ensures lo <= MasteryMean(states) <= hi
  {
    MasteryWeights(states);
    MeanWithin(MasteryItems(states), lo, hi);
  }

  /** Better mastery of any units, all else equal, never lowers the target. */
  lemma TargetMonotone(low: seq<RatedState>, high: seq<RatedState>)
    requires |low| == |high|
    requires forall i :: 0 <= i < |low| ==>
      low[i].importance == high[i].importance
      && low[i].state.misconceived == high[i].state.misconceived
      && low[i].state.mastery <= high[i].state.mastery
    ensures Target(low) <= Target(high)
  {
    if low != [] {
      MasteryWeights(low);
      MeanMono(MasteryItems(low), MasteryItems(high));
      assert MasteryMean(low) <= MasteryMean(high);
      assert Misconceived(low) == Misconceived(high) by {
        forall i | 0 <= i < |low| ensures low[i].state.misconceived == high[i].state.misconceived {}
      }
    }
  }

  function Cleared(states: seq<RatedState>): seq<RatedState> {
    seq(|states|, i requires 0 <= i < |states| =>
      RatedState(states[i].state.(misconceived := false), states[i].importance))
  }

  /** Active misconceptions lower the target by at most one level, and only by one level. */
  lemma MisconceptionLowersByOne(states: seq<RatedState>)
    ensures Target(Cleared(states)) - 1 <= Target(states) <= Target(Cleared(states))
    ensures Misconceived(states) && Target(Cleared(states)) > 2 ==> Target(states) == Target(Cleared(states)) - 1
  {
    assert MasteryItems(Cleared(states)) == MasteryItems(states);
    assert !Misconceived(Cleared(states));
  }

  // ----- looking things up -----

  function FindUnit(units: seq<(string, Unit)>, id: string): Option<Unit> {
    if units == [] then None else if units[0].0 == id then Some(units[0].1) else FindUnit(units[1..], id)
  }

  function FindState(states: seq<(string, UnitState)>, id: string): Option<UnitState> {
    if states == [] then None else if states[0].0 == id then Some(states[0].1) else FindState(states[1..], id)
  }

  /** `code_to_id`: a later unit with the same code replaces an earlier one. */
  function CodeOwner(units: seq<(string, Unit)>, code: string): Option<string> {
    if units == [] then None
    else
      var last := units[|units| - 1];
      if last.1.code == code then Some(last.0) else CodeOwner(units[..|units| - 1], code)
  }

  function Rated(k: Knowledge): seq<RatedState> {
    seq(|k.states|, i requires 0 <= i < |k.states| =>
      RatedState(k.states[i].1,
                 match FindUnit(k.units, k.states[i].0) case None => 0.7 case Some(u) => u.importance))
  }

  function BoundedTarget(k: Knowledge, p: SelectionPolicy): int {
    MaxInt(p.minimum, MinInt(p.maximum, Target(Rated(k))))
  }

  function Linked(k: Knowledge, id: string): seq<string> {
    if id in k.links then k.links[id] else []
  }

  function LinkedUnits(k: Knowledge, ids: seq<string>): seq<Unit> {
    if ids == [] then []
    else (match FindUnit(k.units, ids[0]) case None => [] case Some(u) => [u]) + LinkedUnits(k, ids[1..])
  }

  /** An untested unit counts as weakly mastered and uncertain. */
  function StateOf(k: Knowledge, id: string): UnitState {
    match FindState(k.states, id)
    case None => UnitState(0.35, 0.15, false)
    case Some(state) => state
  }

  function MasteryOf(k: Knowledge, id: string): real {
    match FindState(k.states, id)
    case None => 0.0
    case Some(state) => state.mastery
  }

  /** The prerequisite blocks: it names a unit of this blueprint that is not mastered yet. */
  predicate Blocks(k: Knowledge, code: string) {
    code != ""
    && match CodeOwner(k.units, code)
       case None => false
       case Some(id) => MasteryOf(k, id) < 0.35
  }

  predicate Blocked(k: Knowledge, linked: seq<Unit>) {
    exists i, j :: 0 <= i < |linked| && 0 <= j < |linked[i].prerequisites| && Blocks(k, linked[i].prerequisites[j])
  }

  // ----- eligibility -----

  function EffectiveDifficulty(q: Question): int {
    MaxInt(1, MinInt(5, q.difficulty))
  }

  /** The question may be put, if it was not asked already. */
  predicate Suitable(q: Question, k: Knowledge, p: SelectionPolicy) {
    var linked := LinkedUnits(k, Linked(k, q.id));
    q.id != ""
    && (p.allowedTypes != {} ==> q.kind in p.allowedTypes)
    && linked != []
    && !Blocked(k, linked)
    && p.minimum <= EffectiveDifficulty(q) <= p.maximum
  }

  predicate Eligible(q: Question, k: Knowledge, p: SelectionPolicy, asked: set<string>) {
    q.id !in asked && Suitable(q, k, p)
  }

  /**
   Difficulties are clamped into 1..5 before the bounds are tested: with bounds inside that range the
   test differs from the bounds on the question's own difficulty exactly beyond the ends of the scale.
   */
  lemma ClampedDifficultyTest(q: Question, minimum: int, maximum: int)
    requires 1 <= minimum <= maximum <= 5
    ensures (minimum <= EffectiveDifficulty(q) <= maximum) != (minimum <= q.difficulty <= maximum) <==>
            (q.difficulty < 1 && minimum == 1) || (q.difficulty > 5 && maximum == 5)
  {}

  /** An instance: a question of difficulty 7 may be put where the bounds are 3 and 5. */
  lemma BeyondScaleIsSuitable() returns (q: Question, k: Knowledge, p: SelectionPolicy)
    ensures q.difficulty == 7 && p.minimum == 3 && p.maximum == 5 && Suitable(q, k, p)
  {
    var unit := Unit("code", 0.7, []);
    q := Question("A", "method", "", 7, [], [], [], "");
    k := Knowledge([("u", unit)], map["A" := ["u"]], [], {});
    p := SelectionPolicy({}, [], 3, 5);
    assert FindUnit(k.units, "u") == Some(unit);
    assert LinkedUnits(k, ["u"]) == [unit] + LinkedUnits(k, ["u"][1..]) == [unit];
  }

  // ----- objective coverage -----

  predicate Unmet(questions: seq<Question>, asked: set<string>, rule: (string, int)) {
    CountServing(questions, asked, rule.0) < rule.1
  }

  predicate ServesUnmet(q: Question, questions: seq<Question>, p: SelectionPolicy, asked: set<string>) {
    exists i :: 0 <= i < |p.coverage| && p.coverage[i].0 in q.objectives && Unmet(questions, asked, p.coverage[i])
  }

  // ----- scores -----

  datatype Components = Components(
    gap: real, uncertainty: real, importance: real, misconception: real, fit: real, novelty: real)

  function Masteries(k: Knowledge, ids: seq<string>): seq<real> {
    seq(|ids|, i requires 0 <= i < |ids| => StateOf(k, ids[i]).mastery)
  }

  function Confidences(k: Knowledge, ids: seq<string>): seq<real> {
    seq(|ids|, i requires 0 <= i < |ids| => StateOf(k, ids[i]).confidence)
  }

  function Importances(units: seq<Unit>): seq<real> {
    seq(|units|, i requires 0 <= i < |units| => units[i].importance)
  }

  function Distance(a: int, b: int): int { if a >= b then a - b else b - a }

  function Novelty(q: Question, k: Knowledge, current: string): real {
    if q.id in k.prior then 0.1
    else if exists id :: id in Linked(k, current) && id in Linked(k, q.id) then 0.4
    else 1.0
  }

  function ComponentsOf(q: Question, k: Knowledge, target: int, current: string): Components {
    var ids := Linked(k, q.id);
    Components(
      Clamp(1.0 - Mean(Masteries(k, ids))),
      Clamp(1.0 - Mean(Confidences(k, ids))),
      Clamp(Mean(Importances(LinkedUnits(k, ids)))),
      if exists id :: id in ids && StateOf(k, id).misconceived then 1.0 else 0.0,
      Clamp(1.0 - Distance(EffectiveDifficulty(q), target) as real / 4.0),
      Novelty(q, k, current))
  }

  function WeightedTotal(c: Components): real {
    0.30 * c.gap + 0.20 * c.uncertainty + 0.20 * c.importance
    + 0.15 * c.misconception + 0.10 * c.fit + 0.05 * c.novelty
  }

  function Total(c: Components): real {
    RoundTo(WeightedTotal(c), 1000000)
  }

  datatype Candidate = Candidate(id: string, difficulty: int, total: real, priority: bool)

  /** One selection: the questions, the learner, the contract, and what was asked so far. */
  datatype Setting = Setting(questions: seq<Question>, k: Knowledge, p: SelectionPolicy, asked: set<string>, current: string)

  function Scored(q: Question, s: Setting): Candidate {
    Candidate(q.id, EffectiveDifficulty(q), Total(ComponentsOf(q, s.k, BoundedTarget(s.k, s.p), s.current)),
              ServesUnmet(q, s.questions, s.p, s.asked))
  }

  /** The sort key: coverage first, then score, then identifier. */
  predicate Before(a: Candidate, b: Candidate) {
    (a.priority && !b.priority)
    || (a.priority == b.priority && (a.total > b.total || (a.total == b.total && StrLess(a.id, b.id))))
  }

  lemma BeforeIsTotalOrder(a: Candidate, b: Candidate, c: Candidate)
    ensures a.id != b.id ==> Before(a, b) || Before(b, a)
    ensures !(Before(a, b) && Before(b, a)) && !Before(a, a)
    ensures Before(a, b) && Before(b, c) ==> Before(a, c)
  {
    StrLessTotal(a.id, b.id);
    StrLessTotal(a.id, a.id);
    if StrLess(a.id, b.id) && StrLess(b.id, c.id) {
      StrLessTransitive(a.id, b.id, c.id);
    }
  }

  // ----- sorting -----

  ghost predicate SortedStrictly(cs: seq<Candidate>) {
    forall i, j :: 0 <= i < j < |cs| ==> Before(cs[i], cs[j])
  }

  ghost predicate DistinctCandidates(cs: seq<Candidate>) {
    forall i, j :: 0 <= i < j < |cs| ==> cs[i].id != cs[j].id
  }

  /** Stable insertion behind every candidate that does not come after `c`. */
  function Insert(c: Candidate, cs: seq<Candidate>): seq<Candidate> {
    if cs == [] then [c]
    else
      var n := |cs| - 1;
      if Before(c, cs[n]) then Insert(c, cs[..n]) + [cs[n]] else cs + [c]
  }

  /** `candidates.sort(key=...)`. */
  function SortCandidates(cs: seq<Candidate>): seq<Candidate> {
    if cs == [] then [] else Insert(cs[|cs| - 1], SortCandidates(cs[..|cs| - 1]))
  }

  lemma {:induction false} InsertMultiset(c: Candidate, cs: seq<Candidate>)
    ensures multiset(Insert(c, cs)) == multiset(cs) + multiset{c}
  {
    if cs != [] {
      var n := |cs| - 1;
      assert cs == cs[..n] + [cs[n]];
      if Before(c, cs[n]) { InsertMultiset(c, cs[..n]); }
    }
  }

  lemma {:induction false} InsertSorted(c: Candidate, cs: seq<Candidate>)
    requires SortedStrictly(cs)
    requires forall x :: x in cs ==> x.id != c.id
    ensures SortedStrictly(Insert(c, cs))
  {
    if cs != [] {
      var n := |cs| - 1;
      if Before(c, cs[n]) {
        InsertSorted(c, cs[..n]);
        InsertMultiset(c, cs[..n]);
        var r := Insert(c, cs[..n]);
        forall i | 0 <= i < |r| ensures Before(r[i], cs[n]) {
          assert r[i] in multiset(r);
          assert r[i] == c || r[i] in cs[..n];
        }
      } else {
        forall i | 0 <= i < |cs| ensures Before(cs[i], c) {
          assert cs[n] in cs && cs[n].id != c.id;
          BeforeIsTotalOrder(c, cs[n], c);
          BeforeIsTotalOrder(cs[i], cs[n], c);
        }
      }
    }
  }

  lemma {:induction false} SortIsPermutation(cs: seq<Candidate>)
    ensures multiset(SortCandidates(cs)) == multiset(cs)
  {
    if cs != [] {
      var n := |cs| - 1;
      assert cs == cs[..n] + [cs[n]];
      SortIsPermutation(cs[..n]);
      InsertMultiset(cs[n], SortCandidates(cs[..n]));
    }
  }

  lemma {:induction false} SortIsSorted(cs: seq<Candidate>)
    requires DistinctCandidates(cs)
    ensures SortedStrictly(SortCandidates(cs))
  {
    if cs != [] {
      var n := |cs| - 1;
      SortIsSorted(cs[..n]);
      SortIsPermutation(cs[..n]);
      forall x | x in SortCandidates(cs[..n]) ensures x.id != cs[n].id {
        assert x in multiset(cs[..n]);
      }
      InsertSorted(cs[n], SortCandidates(cs[..n]));
    }
  }

  // ----- selection -----

  function CandidatesOf(qs: seq<Question>, s: Setting): seq<Candidate> {
    if qs == [] then []
    else
      var last := qs[|qs| - 1];
      CandidatesOf(qs[..|qs| - 1], s) + if Eligible(last, s.k, s.p, s.asked) then [Scored(last, s)] else []
  }

  function QuestionWithId(qs: seq<Question>, id: string): Option<Question> {
    if qs == [] then None else if qs[0].id == id then Some(qs[0]) else QuestionWithId(qs[1..], id)
  }

  datatype Selection = Selection(question: Option<Question>, target: int, candidates: seq<Candidate>)

  function Selected(s: Setting): Selection {
    var candidates := SortCandidates(CandidatesOf(s.questions, s));
    Selection(if candidates == [] then None else QuestionWithId(s.questions, candidates[0].id),
              BoundedTarget(s.k, s.p), candidates)
  }

  method Select(s: Setting) returns (result: Selection)
    ensures result == Selected(s)
  {
    var target := BoundedTarget(s.k, s.p);
    var candidates := [];
    for i := 0 to |s.questions|
      invariant candidates == CandidatesOf(s.questions[..i], s)
    {
      assert s.questions[..i + 1][..i] == s.questions[..i];
      var q := s.questions[i];
      if q.id == "" || q.id in s.asked {
        continue;
      }
      if s.p.allowedTypes != {} && q.kind !in s.p.allowedTypes {
        continue;
      }
      var linked := LinkedUnits(s.k, Linked(s.k, q.id));
      if linked == [] || Blocked(s.k, linked) {
        continue;
      }
      var difficulty := EffectiveDifficulty(q);
      if !(s.p.minimum <= difficulty <= s.p.maximum) {
        continue;
      }
      candidates := candidates + [Scored(q, s)];
    }
    assert s.questions[..|s.questions|] == s.questions;
    candidates := SortCandidates(candidates);
    if candidates == [] {
      return Selection(None, target, []);
    }
    result := Selection(QuestionWithId(s.questions, candidates[0].id), target, candidates);
  }

  // ----- exactness -----

  lemma {:induction false} CandidatesExact(qs: seq<Question>, s: Setting)
    requires DistinctIds(qs)
    ensures DistinctCandidates(CandidatesOf(qs, s))
    ensures forall c :: c in CandidatesOf(qs, s) ==>
              exists q :: q in qs && Eligible(q, s.k, s.p, s.asked) && c == Scored(q, s)
    ensures forall q :: q in qs && Eligible(q, s.k, s.p, s.asked) ==> Scored(q, s) in CandidatesOf(qs, s)
  {
    if qs != [] {
      var n := |qs| - 1;
      assert qs == qs[..n] + [qs[n]];
      CandidatesExact(qs[..n], s);
      var front := CandidatesOf(qs[..n], s);
      forall c | c in front ensures c.id != qs[n].id {
        var q :| q in qs[..n] && Eligible(q, s.k, s.p, s.asked) && c == Scored(q, s);
      }
      forall c | c in CandidatesOf(qs, s)
        ensures exists q :: q in qs && Eligible(q, s.k, s.p, s.asked) && c == Scored(q, s)
      {
        if c in front {
          var q :| q in qs[..n] && Eligible(q, s.k, s.p, s.asked) && c == Scored(q, s);
          assert q in qs;
        } else {
          assert qs[n] in qs;
        }
      }
    }
  }

  lemma {:induction false} QuestionFound(qs: seq<Question>, q: Question)
    requires DistinctIds(qs) && q in qs
    ensures QuestionWithId(qs, q.id) == Some(q)
  {
    if qs[0] != q {
      assert q in qs[1..] && qs[0].id != q.id by {
        var i :| 0 <= i < |qs| && qs[i] == q;
        assert qs[1..][i - 1] == q;
      }
      QuestionFound(qs[1..], q);
    }
  }

  /** `q` beats every other eligible question. */
  ghost predicate IsBest(q: Question, s: Setting) {
    q in s.questions && Eligible(q, s.k, s.p, s.asked)
    && forall o :: o in s.questions && o != q && Eligible(o, s.k, s.p, s.asked) ==> Before(Scored(q, s), Scored(o, s))
  }

  /** `c` is the candidate made of an eligible question. */
  ghost predicate IsCandidateOf(c: Candidate, s: Setting) {
    exists q :: q in s.questions && Eligible(q, s.k, s.p, s.asked) && c == Scored(q, s)
  }

  lemma CandidatesListed(s: Setting)
    requires DistinctIds(s.questions)
    ensures var r := Selected(s);
            SortedStrictly(r.candidates)
            && multiset(r.candidates) == multiset(CandidatesOf(s.questions, s))
            && (forall c :: c in r.candidates <==> IsCandidateOf(c, s))
            && (forall q :: q in s.questions && Eligible(q, s.k, s.p, s.asked) ==> Scored(q, s) in r.candidates)
  {
    var all := CandidatesOf(s.questions, s);
    CandidatesExact(s.questions, s);
    SortIsSorted(all);
    SortIsPermutation(all);
    SameElements(SortCandidates(all), all);
  }

  lemma BestIsUnique(s: Setting, best: Question, q: Question)
    requires IsBest(best, s) && IsBest(q, s)
    ensures q == best
  {
    if q != best { BeforeIsTotalOrder(Scored(q, s), Scored(best, s), Scored(q, s)); }
  }

  lemma ChosenIsBest(s: Setting)
    requires DistinctIds(s.questions) && Selected(s).candidates != []
    ensures Selected(s).question.Some? && IsBest(Selected(s).question.value, s)
  {
    var sorted := Selected(s).candidates;
    CandidatesListed(s);
    assert IsCandidateOf(sorted[0], s);
    var best :| best in s.questions && Eligible(best, s.k, s.p, s.asked) && sorted[0] == Scored(best, s);
    QuestionFound(s.questions, best);
    FirstIsBest(s, sorted, best);
  }

  /**
   The candidate list is precisely the eligible questions in sorted order; none is chosen exactly when
   none is eligible; and the chosen one is the only question that beats every other eligible one.
   */
  lemma SelectorIsExact(s: Setting)
    requires DistinctIds(s.questions)
    ensures var r := Selected(s);
            SortedStrictly(r.candidates)
            && multiset(r.candidates) == multiset(CandidatesOf(s.questions, s))
            && (forall c :: c in r.candidates <==> IsCandidateOf(c, s))
            && (r.question.None? <==> forall q :: q in s.questions ==> !Eligible(q, s.k, s.p, s.asked))
            && (forall q :: r.question == Some(q) <==> IsBest(q, s))
  {
    CandidatesListed(s);
    if Selected(s).candidates != [] {
      ChosenIsBest(s);
      forall q | IsBest(q, s) ensures Selected(s).question == Some(q) {
        BestIsUnique(s, Selected(s).question.value, q);
      }
    }
  }

  lemma FirstIsBest(s: Setting, sorted: seq<Candidate>, best: Question)
    requires DistinctIds(s.questions)
    requires SortedStrictly(sorted) && sorted != [] && sorted[0] == Scored(best, s)
    requires best in s.questions && Eligible(best, s.k, s.p, s.asked)
    requires forall q :: q in s.questions && Eligible(q, s.k, s.p, s.asked) ==> Scored(q, s) in sorted
    ensures IsBest(best, s)
  {
    forall o | o in s.questions && o != best && Eligible(o, s.k, s.p, s.asked)
      ensures Before(Scored(best, s), Scored(o, s))
    {
      var i :| 0 <= i < |sorted| && sorted[i] == Scored(o, s);
      assert o.id != best.id;
    }
  }

  lemma SameElements<T>(a: seq<T>, b: seq<T>)
    requires multiset(a) == multiset(b)
    ensures forall x :: x in a <==> x in b
  {
    forall x ensures x in a <==> x in b {
      assert x in a <==> x in multiset(a);
      assert x in b <==> x in multiset(b);
    }
  }

  lemma ScoreIgnoresOrder(q: Question, s: Setting, t: Setting)
    requires t == s.(questions := t.questions) && multiset(t.questions) == multiset(s.questions)
    ensures Scored(q, t) == Scored(q, s)
  {
    forall i | 0 <= i < |s.p.coverage|
      ensures Unmet(t.questions, s.asked, s.p.coverage[i]) == Unmet(s.questions, s.asked, s.p.coverage[i])
    {
      CountPermuted(t.questions, s.questions, s.asked, s.p.coverage[i].0);
    }
    assert ServesUnmet(q, t.questions, t.p, t.asked) == ServesUnmet(q, s.questions, s.p, s.asked);
  }

  lemma BestIgnoresOrder(q: Question, s: Setting, t: Setting)
    requires t == s.(questions := t.questions) && multiset(t.questions) == multiset(s.questions)
    requires IsBest(q, s)
    ensures IsBest(q, t)
  {
    SameElements(s.questions, t.questions);
    ScoreIgnoresOrder(q, s, t);
    forall o | o in t.questions && o != q && Eligible(o, t.k, t.p, t.asked)
      ensures Before(Scored(q, t), Scored(o, t))
    {
      ScoreIgnoresOrder(o, s, t);
    }
  }

  /** Permuting the blueprint's questions does not change the choice. */
  lemma SelectionIgnoresOrder(s: Setting, questions: seq<Question>)
    requires DistinctIds(s.questions) && DistinctIds(questions)
    requires multiset(questions) == multiset(s.questions)
    ensures Selected(s.(questions := questions)).question == Selected(s).question
  {
    var t := s.(questions := questions);
    SelectorIsExact(s);
    SelectorIsExact(t);
    if Selected(s).question.Some? {
      BestIgnoresOrder(Selected(s).question.value, s, t);
    } else if Selected(t).question.Some? {
      BestIgnoresOrder(Selected(t).question.value, t, s);
    }
  }

  // ----- scores -----

  lemma TotalInUnit(q: Question, k: Knowledge, target: int, current: string)
    ensures 0.0 <= Total(ComponentsOf(q, k, target, current)) <= 1.0
  {
    var c := ComponentsOf(q, k, target, current);
    RoundUnit(WeightedTotal(c), 1000000);
  }

  /** Two learners that differ only in that the second knows no unit better. */
  ghost predicate KnowsNoMore(k: Knowledge, weaker: Knowledge) {
    weaker.units == k.units && weaker.links == k.links && weaker.prior == k.prior
    && |weaker.states| == |k.states|
    && forall i :: 0 <= i < |k.states| ==>
         weaker.states[i].0 == k.states[i].0
         && weaker.states[i].1.confidence == k.states[i].1.confidence
         && weaker.states[i].1.misconceived == k.states[i].1.misconceived
         && weaker.states[i].1.mastery <= k.states[i].1.mastery
  }

  lemma {:induction false} WeakerState(a: seq<(string, UnitState)>, b: seq<(string, UnitState)>, id: string)
    requires |a| == |b|
    requires forall i :: 0 <= i < |a| ==>
      b[i].0 == a[i].0
      && b[i].1.confidence == a[i].1.confidence
      && b[i].1.misconceived == a[i].1.misconceived
      && b[i].1.mastery <= a[i].1.mastery
    ensures FindState(a, id).Some? == FindState(b, id).Some?
    ensures FindState(a, id).Some? ==>
              var x, y := FindState(a, id).value, FindState(b, id).value;
              y.confidence == x.confidence && y.misconceived == x.misconceived && y.mastery <= x.mastery
  {
    if a != [] && a[0].0 != id {
      WeakerState(a[1..], b[1..], id);
    }
  }

  /** For a fixed target, a question about units the learner knows less well never scores lower. */
  lemma WeakerScoresNoLower(q: Question, k: Knowledge, weaker: Knowledge, target: int, current: string)
    requires KnowsNoMore(k, weaker)
    ensures Total(ComponentsOf(q, k, target, current)) <= Total(ComponentsOf(q, weaker, target, current))
  {
    var ids := Linked(k, q.id);
    forall id
      ensures StateOf(weaker, id).mastery <= StateOf(k, id).mastery
      ensures StateOf(weaker, id).confidence == StateOf(k, id).confidence
      ensures StateOf(weaker, id).misconceived == StateOf(k, id).misconceived
    {
      WeakerState(k.states, weaker.states, id);
    }
    AverageMono(Masteries(weaker, ids), Masteries(k, ids));
    assert Confidences(weaker, ids) == Confidences(k, ids);
    SameLinkedUnits(k, weaker, ids);
    var c, d := ComponentsOf(q, k, target, current), ComponentsOf(q, weaker, target, current);
    assert c.gap <= d.gap;
    RoundMono(WeightedTotal(c), WeightedTotal(d), 1000000);
  }

  lemma {:induction false} SameLinkedUnits(k: Knowledge, other: Knowledge, ids: seq<string>)
    requires other.units == k.units
    ensures LinkedUnits(other, ids) == LinkedUnits(k, ids)
  {
    if ids != [] { SameLinkedUnits(k, other, ids[1..]); }
  }

  /** The question is linked to one unit, of the given importance. */
  ghost predicate LinkedToOne(q: Question, k: Knowledge, unit: string, importance: real) {
    Linked(k, q.id) == [unit]
    && FindUnit(k.units, unit).Some? && FindUnit(k.units, unit).value.importance == importance
  }

  lemma OneUnitComponents(q: Question, k: Knowledge, target: int, current: string, unit: string, importance: real)
    requires LinkedToOne(q, k, unit, importance)
    requires 0.0 <= StateOf(k, unit).mastery <= 1.0 && 0.0 <= StateOf(k, unit).confidence <= 1.0
    ensures var c := ComponentsOf(q, k, target, current);
            var state := StateOf(k, unit);
            c.gap == 1.0 - state.mastery && c.uncertainty == 1.0 - state.confidence
            && c.importance == Clamp(importance)
            && c.misconception == (if state.misconceived then 1.0 else 0.0)
  {
    var ids := Linked(k, q.id);
    OneMean(Masteries(k, ids), StateOf(k, unit).mastery);
    OneMean(Confidences(k, ids), StateOf(k, unit).confidence);
    assert ids[1..] == [] && LinkedUnits(k, ids) == [FindUnit(k.units, unit).value] + LinkedUnits(k, ids[1..]);
    OneMean(Importances(LinkedUnits(k, ids)), importance);
    assert unit in ids;
  }

  lemma OneMean(values: seq<real>, value: real)
    requires values == [value]
    ensures Mean(values) == value
  {
    assert values[1..] == [] && Sum(values) == value + Sum(values[1..]) == value;
    assert Mean(values) == value / 1.0;
  }

  /** The score of a question on one untested unit, before rounding. */
  function UntestedScore(q: Question, s: Setting, importance: real): real {
    0.365 + 0.20 * Clamp(importance)
    + 0.10 * Clamp(1.0 - Distance(EffectiveDifficulty(q), BoundedTarget(s.k, s.p)) as real / 4.0)
    + 0.05 * Novelty(q, s.k, s.current)
  }

  /** How far an observed misconception scores above an untested unit, all else equal, before rounding. */
  function Lead(state: UnitState): real {
    0.285 - 0.30 * state.mastery - 0.20 * state.confidence
  }

  /** `observed` asks about one misconceived unit, `untested` about one without a state, and all else is equal. */
  ghost predicate AllElseEqual(observed: Question, untested: Question, s: Setting, u: string, w: string, importance: real) {
    LinkedToOne(observed, s.k, u, importance) && LinkedToOne(untested, s.k, w, importance)
    && FindState(s.k.states, u).Some? && StateOf(s.k, u).misconceived && FindState(s.k.states, w).None?
    && 0.0 <= StateOf(s.k, u).mastery <= 1.0 && 0.0 <= StateOf(s.k, u).confidence <= 1.0
    && EffectiveDifficulty(observed) == EffectiveDifficulty(untested)
    && Novelty(observed, s.k, s.current) == Novelty(untested, s.k, s.current)
    && ServesUnmet(observed, s.questions, s.p, s.asked) == ServesUnmet(untested, s.questions, s.p, s.asked)
  }

  lemma ScoresOfPair(observed: Question, untested: Question, s: Setting, u: string, w: string, importance: real)
    requires AllElseEqual(observed, untested, s, u, w, importance)
    ensures var base := UntestedScore(untested, s, importance);
            Scored(untested, s).total == RoundTo(base, 1000000)
            && Scored(observed, s).total == RoundTo(base + Lead(StateOf(s.k, u)), 1000000)
            && Scored(untested, s).priority == Scored(observed, s).priority
  {
    var target := BoundedTarget(s.k, s.p);
    OneUnitComponents(observed, s.k, target, s.current, u, importance);
    OneUnitComponents(untested, s.k, target, s.current, w, importance);
  }

  /**
   Untested units count as weakly mastered and uncertain, so as not to outrank an observed
   misconception. All else equal the misconception comes first exactly when its lead survives rounding
   to six decimals, or rounding leaves a tie and its question has the smaller identifier.
   */
  lemma MisconceptionOutranksExactly(observed: Question, untested: Question, s: Setting, u: string, w: string, importance: real)
    requires AllElseEqual(observed, untested, s, u, w, importance)
    ensures var base := UntestedScore(untested, s, importance);
            var first, second := RoundTo(base + Lead(StateOf(s.k, u)), 1000000), RoundTo(base, 1000000);
            Before(Scored(observed, s), Scored(untested, s)) <==>
              first > second || (first == second && StrLess(observed.id, untested.id))
  {
    ScoresOfPair(observed, untested, s, u, w, importance);
  }

  /** A lead of more than one unit of the last decimal decides either way, whatever the identifiers. */
  lemma ClearLeadDecides(observed: Question, untested: Question, s: Setting, u: string, w: string, importance: real)
    requires AllElseEqual(observed, untested, s, u, w, importance)
    ensures Lead(StateOf(s.k, u)) > 0.000001 ==> Before(Scored(observed, s), Scored(untested, s))
    ensures Lead(StateOf(s.k, u)) < -0.000001 ==> Before(Scored(untested, s), Scored(observed, s))
  {
    ScoresOfPair(observed, untested, s, u, w, importance);
    LeadSurvives(UntestedScore(untested, s, importance), Lead(StateOf(s.k, u)));
  }

  lemma LeadSurvives(base: real, lead: real)
    ensures lead > 0.000001 ==> RoundTo(base + lead, 1000000) > RoundTo(base, 1000000)
    ensures lead < -0.000001 ==> RoundTo(base + lead, 1000000) < RoundTo(base, 1000000)
  {
    if lead > 0.000001 { RoundApart(base, base + lead, 1000000); }
    if lead < -0.000001 { RoundApart(base + lead, base, 1000000); }
  }

  /** A learner known on one misconceived unit of mastery 0.35 is asked at difficulty 2. */
  lemma OneStateTarget(k: Knowledge, state: UnitState)
    requires k.states == [("u", state)] && state.mastery == 0.35 && state.misconceived
    ensures BoundedTarget(k, SelectionPolicy({}, [], 1, 5)) == 2
  {
    var rated := Rated(k);
    assert rated[0].state == state && Misconceived(rated);
    MasteryMeanWithin(rated, 0.35, 0.35);
    assert Level(MasteryMean(rated)) == 3;
  }

  const NEARLY_LOST := UnitState(0.35, 0.899999, true)

  /** Two questions of one difficulty, on a misconceived unit and on an untested one. */
  lemma PairExample() returns (observed: Question, untested: Question, s: Setting)
    ensures AllElseEqual(observed, untested, s, "u", "w", 0.7) && StateOf(s.k, "u") == NEARLY_LOST
    ensures observed.id == "B" && untested.id == "A" && UntestedScore(untested, s, 0.7) == 0.63
  {
    var unit := Unit("code", 0.7, []);
    var k := Knowledge([("u", unit), ("w", unit)], map["B" := ["u"], "A" := ["w"]], [("u", NEARLY_LOST)], {});
    observed := Question("B", "method", "", 3, [], [], [], "");
    untested := Question("A", "method", "", 3, [], [], [], "");
    s := Setting([observed, untested], k, SelectionPolicy({}, [], 1, 5), {}, "");
    assert k.units[1..][0] == ("w", unit);
    assert FindUnit(k.units, "u") == Some(unit) && FindUnit(k.units, "w") == FindUnit(k.units[1..], "w") == Some(unit);
    assert FindState(k.states, "u") == Some(NEARLY_LOST);
    assert k.states[1..] == [] && FindState(k.states, "w") == None;
    OneStateTarget(k, NEARLY_LOST);
  }

  lemma SixDecimals()
    ensures RoundTo(0.63, 1000000) == 0.63 == RoundTo(0.6300002, 1000000)
  {
    assert 0.63 * 1000000.0 == 630000.0 && 0.6300002 * 1000000.0 == 630000.2;
  }

  /**
   An instance: the lead is positive, but both scores round to 0.63 and the identifier puts the
   untested unit first.
   */
  lemma RoundedLeadLoses() returns (observed: Question, untested: Question, s: Setting)
    ensures AllElseEqual(observed, untested, s, "u", "w", 0.7)
    ensures 0.0 < Lead(StateOf(s.k, "u")) && Before(Scored(untested, s), Scored(observed, s))
  {
    observed, untested, s := PairExample();
    ScoresOfPair(observed, untested, s, "u", "w", 0.7);
    SixDecimals();
    assert Lead(NEARLY_LOST) == 0.0000002;
    assert StrLess("A", "B");
  }
}
