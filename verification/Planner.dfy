/**
 `planner.py`: holding a drafted blueprint to the scenario template, with up to three repairs of a
 draft that breaks the contract. Whether a text stacks several requests is an arbitrary measure.
 */
module Planner {
  import opened Numbers
  import opened Wrappers
  import opened Assessment
  import opened Questions
  import opened Selector

  datatype DraftQuestion = DraftQuestion(
    id: Option<string>,
    kind: string,
    text: string,
    difficulty: Option<int>,
    objectives: seq<string>,
    followups: seq<string>,
    expected: seq<ExpectedPoint>,
    excerpt: string)

  /** One reply of the planning model, and whether it is in the requested language. */
  datatype Draft = Draft(questions: seq<DraftQuestion>, inLanguage: bool)

  datatype Template = Template(
    allowedTypes: set<string>,
    objectives: seq<string>,
    coverage: seq<(string, int)>,
    minimum: int,
    maximum: int,
    limit: nat,
    stacked: string -> bool)

  datatype Violation = StackedQuestion(text: string) | StackedFollowup(text: string) | TypeNotAllowed(kind: string) | DifficultyOutOfBounds(difficulty: int)

  datatype PlanError = NoQuestions | WrongLanguage | Broken(violation: Violation)

  datatype CoverageStatus = Met | Impossible

  /** `status` is absent without a template. */
  datatype Blueprint = Blueprint(questions: seq<Question>, status: Option<CoverageStatus>)

  // ----- defaults -----

  function Named(q: DraftQuestion, index: nat): Question {
    Question(if q.id.Some? then q.id.value else "Q" + Digits(index), q.kind, q.text,
             if q.difficulty.Some? then q.difficulty.value else 3,
             q.objectives, q.followups, q.expected, q.excerpt)
  }

  function Normalized(draft: Draft): seq<Question> {
    seq(|draft.questions|, i requires 0 <= i < |draft.questions| => Named(draft.questions[i], i + 1))
  }

  // ----- the contract -----

  /** `OBJECTIVE_BY_QUESTION_TYPE`. */
  const PREFERRED: map<string, string> := map[
    "motivation" := "contribution", "novelty" := "contribution",
    "method" := "methodology", "assumption" := "methodology",
    "evidence" := "evidence_quality", "counterexample" := "evidence_quality",
    "limitation" := "limitations", "generalization" := "limitations", "transfer" := "limitations"]

  function Declared(ids: seq<string>, objectives: seq<string>): seq<string> {
    if ids == [] then []
    else Declared(ids[..|ids| - 1], objectives) + if ids[|ids| - 1] in objectives then [ids[|ids| - 1]] else []
  }

  /** The declared objectives a question names, else the usual one for its type, else the first. */
  function ObjectivesFor(t: Template, q: Question): seq<string> {
    var named := Declared(q.objectives, t.objectives);
    if named != [] then named
    else if q.kind in PREFERRED && PREFERRED[q.kind] in t.objectives then [PREFERRED[q.kind]]
    else if t.objectives != [] then [t.objectives[0]]
    else []
  }

  function FirstStacked(t: Template, texts: seq<string>): Option<string> {
    if texts == [] then None else if t.stacked(texts[0]) then Some(texts[0]) else FirstStacked(t, texts[1..])
  }

  function ViolationOf(t: Template, q: Question): Option<Violation> {
    if t.stacked(q.text) then Some(StackedQuestion(q.text))
    else if FirstStacked(t, q.followups).Some? then Some(StackedFollowup(FirstStacked(t, q.followups).value))
    else if q.kind !in t.allowedTypes then Some(TypeNotAllowed(q.kind))
    else if !(t.minimum <= q.difficulty <= t.maximum) then Some(DifficultyOutOfBounds(q.difficulty))
    else None
  }

  function Mapped(t: Template, q: Question): Question {
    q.(objectives := ObjectivesFor(t, q))
  }

  function Taken(t: Template, questions: seq<Question>): seq<Question> {
    questions[..MinInt(t.limit, |questions|)]
  }

  function FirstViolation(t: Template, questions: seq<Question>): Option<Violation> {
    if questions == [] then None
    else
      var v := ViolationOf(t, questions[0]);
      if v.Some? then v else FirstViolation(t, questions[1..])
  }

  function AllMapped(t: Template, questions: seq<Question>): seq<Question> {
    seq(|questions|, i requires 0 <= i < |questions| => Mapped(t, questions[i]))
  }

  function StatusOf(t: Template, questions: seq<Question>): CoverageStatus {
    if forall i :: 0 <= i < |t.coverage| ==> CountAll(questions, t.coverage[i].0) >= t.coverage[i].1 then Met else Impossible
  }

  /** The blueprint under construction; applying the contract writes into its questions. */
  class BlueprintData {
    var questions: seq<Question>
    var status: Option<CoverageStatus>

    constructor (questions: seq<Question>)
      ensures this.questions == questions && status == None
    {
      this.questions, status := questions, None;
    }

    method ApplyTemplateContract(t: Template) returns (violation: Option<Violation>)
      modifies this
      ensures violation == FirstViolation(t, Taken(t, old(questions)))
      ensures violation == None ==>
                questions == AllMapped(t, Taken(t, old(questions))) && status == Some(StatusOf(t, questions))
      ensures violation != None ==> |questions| == |old(questions)| && status == old(status)
    {
      var limit := MinInt(t.limit, |questions|);
      ghost var taken := Taken(t, questions);
      var i := 0;
      while i < limit
        invariant 0 <= i <= limit && |questions| == |old(questions)| && status == old(status)
        invariant forall j :: 0 <= j < i ==> questions[j] == Mapped(t, taken[j])
        invariant forall j :: i <= j < limit ==> questions[j] == taken[j]
        invariant FirstViolation(t, taken) == FirstViolation(t, taken[i..])
      {
        assert taken[i..][1..] == taken[i + 1..];
        var question := questions[i];
        violation := ViolationOf(t, question);
        if violation.Some? {
          return;
        }
        questions := questions[i := question.(objectives := ObjectivesFor(t, question))];
        i := i + 1;
      }
      questions := questions[..limit];
      assert questions == AllMapped(t, taken);
      status := Some(StatusOf(t, questions));
      violation := None;
    }
  }

  // ----- planning with repairs -----

  /** What a draft and the repairs still to come lead to. */
  function Planned(t: Template, questions: seq<Question>, repairs: seq<Draft>): Result<Blueprint, PlanError>
    decreases |repairs|
  {
    var violation := FirstViolation(t, Taken(t, questions));
    if violation.None? then
      var mapped := AllMapped(t, Taken(t, questions));
      Success(Blueprint(mapped, Some(StatusOf(t, mapped))))
    else if repairs == [] then Failure(Broken(violation.value))
    else if !repairs[0].inLanguage then Failure(WrongLanguage)
    else if repairs[0].questions == [] then Failure(NoQuestions)
    else Planned(t, Normalized(repairs[0]), repairs[1..])
  }

  function PlanOf(t: Option<Template>, first: Draft, translated: Draft, repairs: seq<Draft>): Result<Blueprint, PlanError> {
    var draft := if first.inLanguage then first else translated;
    if !draft.inLanguage then Failure(WrongLanguage)
    else if draft.questions == [] then Failure(NoQuestions)
    else if t.None? then Success(Blueprint(Normalized(draft), None))
    else Planned(t.value, Normalized(draft), repairs)
  }

  method Plan(t: Option<Template>, first: Draft, translated: Draft, repairs: seq<Draft>)
    returns (result: Result<Blueprint, PlanError>)
    requires |repairs| == 3
    ensures result == PlanOf(t, first, translated, repairs)
  {
    var draft := first;
    if !draft.inLanguage {
      draft := translated;
      if !draft.inLanguage {
        return Failure(WrongLanguage);
      }
    }
    if draft.questions == [] {
      return Failure(NoQuestions);
    }
    var data := new BlueprintData(Normalized(draft));
    if t.None? {
      return Success(Blueprint(data.questions, None));
    }
    var attempt := 0;
    while true
      invariant 0 <= attempt <= 3 && data.status == None && fresh(data)
      invariant Planned(t.value, data.questions, repairs[attempt..]) == PlanOf(t, first, translated, repairs)
      decreases 3 - attempt
    {
      var violation := data.ApplyTemplateContract(t.value);
      if violation.None? {
        return Success(Blueprint(data.questions, data.status));
      }
      if attempt == 3 {
        return Failure(Broken(violation.value));
      }
      assert repairs[attempt..][1..] == repairs[attempt + 1..];
      var reply := repairs[attempt];
      if !reply.inLanguage {
        return Failure(WrongLanguage);
      }
      if reply.questions == [] {
        return Failure(NoQuestions);
      }
      data := new BlueprintData(Normalized(reply));
      attempt := attempt + 1;
    }
  }

  // ----- the contract is met -----

  ghost predicate MeetsContract(t: Template, b: Blueprint) {
    |b.questions| <= t.limit
    && (forall q :: q in b.questions ==>
          q.kind in t.allowedTypes && t.minimum <= q.difficulty <= t.maximum
          && !t.stacked(q.text) && (forall f :: f in q.followups ==> !t.stacked(f))
          && (forall o :: o in q.objectives ==> o in t.objectives)
          && (t.objectives != [] ==> q.objectives != []))
    && b.status.Some?
    && (b.status.value == Met <==>
        forall i :: 0 <= i < |t.coverage| ==> CountAll(b.questions, t.coverage[i].0) >= t.coverage[i].1)
  }

  lemma {:induction false} DeclaredOnly(ids: seq<string>, objectives: seq<string>)
    ensures forall o :: o in Declared(ids, objectives) <==> o in ids && o in objectives
  {
    if ids != [] {
      DeclaredOnly(ids[..|ids| - 1], objectives);
      assert ids == ids[..|ids| - 1] + [ids[|ids| - 1]];
    }
  }

  lemma {:induction false} NoneStacked(t: Template, texts: seq<string>)
    ensures FirstStacked(t, texts).None? <==> forall f :: f in texts ==> !t.stacked(f)
  {
    if texts != [] {
      NoneStacked(t, texts[1..]);
      assert texts == [texts[0]] + texts[1..];
    }
  }

  lemma {:induction false} NoViolation(t: Template, questions: seq<Question>)
    ensures FirstViolation(t, questions).None? <==> forall q :: q in questions ==> ViolationOf(t, q).None?
  {
    if questions != [] {
      NoViolation(t, questions[1..]);
      assert questions == [questions[0]] + questions[1..];
    }
  }

  lemma MappedMeets(t: Template, questions: seq<Question>)
    requires FirstViolation(t, Taken(t, questions)).None?
    ensures var mapped := AllMapped(t, Taken(t, questions));
            MeetsContract(t, Blueprint(mapped, Some(StatusOf(t, mapped))))
  {
    var taken := Taken(t, questions);
    var mapped := AllMapped(t, taken);
    NoViolation(t, taken);
    forall q | q in mapped
      ensures q.kind in t.allowedTypes && t.minimum <= q.difficulty <= t.maximum
      ensures !t.stacked(q.text) && (forall f :: f in q.followups ==> !t.stacked(f))
      ensures (forall o :: o in q.objectives ==> o in t.objectives) && (t.objectives != [] ==> q.objectives != [])
    {
      var i :| 0 <= i < |mapped| && mapped[i] == q;
      assert taken[i] in taken;
      NoneStacked(t, taken[i].followups);
      DeclaredOnly(taken[i].objectives, t.objectives);
    }
  }

  lemma {:induction false} PlannedMeets(t: Template, questions: seq<Question>, repairs: seq<Draft>)
    requires Planned(t, questions, repairs).Success?
    ensures MeetsContract(t, Planned(t, questions, repairs).value)
    decreases |repairs|
  {
    if FirstViolation(t, Taken(t, questions)).None? {
      MappedMeets(t, questions);
    } else {
      PlannedMeets(t, Normalized(repairs[0]), repairs[1..]);
    }
  }

  /** Whatever the model drafts and repairs, a blueprint returned under a template meets its contract. */
  lemma PlanMeetsContract(t: Template, first: Draft, translated: Draft, repairs: seq<Draft>)
    requires PlanOf(Some(t), first, translated, repairs).Success?
    ensures MeetsContract(t, PlanOf(Some(t), first, translated, repairs).value)
  {
    PlannedMeets(t, Normalized(if first.inLanguage then first else translated), repairs);
  }

  /** Each question of the blueprint is the draft's question of the same place, but for its objectives. */
  ghost predicate TakenFrom(t: Template, b: Blueprint, draft: Draft) {
    |b.questions| == MinInt(t.limit, |draft.questions|)
    && forall i :: 0 <= i < |b.questions| ==>
         b.questions[i] == Named(draft.questions[i], i + 1).(objectives := b.questions[i].objectives)
         && (forall o :: o in draft.questions[i].objectives && o in t.objectives ==> o in b.questions[i].objectives)
         && ((exists o :: o in draft.questions[i].objectives && o in t.objectives) ==>
               forall o :: o in b.questions[i].objectives ==> o in draft.questions[i].objectives)
         && ((forall o :: o in draft.questions[i].objectives ==> o !in t.objectives) ==> |b.questions[i].objectives| <= 1)
  }

  lemma MappingKeepsDeclared(t: Template, q: Question)
    ensures forall o :: o in q.objectives && o in t.objectives ==> o in ObjectivesFor(t, q)
    ensures (exists o :: o in q.objectives && o in t.objectives) ==>
              forall o :: o in ObjectivesFor(t, q) ==> o in q.objectives
    ensures (forall o :: o in q.objectives ==> o !in t.objectives) ==> |ObjectivesFor(t, q)| <= 1
  {
    DeclaredOnly(q.objectives, t.objectives);
    var named := Declared(q.objectives, t.objectives);
    if named != [] { assert named[0] in named; }
  }

  lemma MappedIsTaken(t: Template, draft: Draft)
    ensures TakenFrom(t, Blueprint(AllMapped(t, Taken(t, Normalized(draft))), None), draft)
  {
    var taken := Taken(t, Normalized(draft));
    forall i | 0 <= i < |taken| { MappingKeepsDeclared(t, taken[i]); }
  }

  lemma {:induction false} PlannedIsTaken(t: Template, draft: Draft, repairs: seq<Draft>) returns (used: Draft)
    requires Planned(t, Normalized(draft), repairs).Success?
    ensures used == draft || used in repairs
    ensures TakenFrom(t, Planned(t, Normalized(draft), repairs).value, used)
    decreases |repairs|
  {
    if FirstViolation(t, Taken(t, Normalized(draft))).None? {
      MappedIsTaken(t, draft);
      used := draft;
    } else {
      used := PlannedIsTaken(t, repairs[0], repairs[1..]);
    }
  }

  /** The planner invents nothing: a returned blueprint is the beginning of one of the model's drafts. */
  lemma PlanIsADraft(t: Template, first: Draft, translated: Draft, repairs: seq<Draft>)
    requires PlanOf(Some(t), first, translated, repairs).Success?
    ensures exists draft :: draft in [first, translated] + repairs
              && TakenFrom(t, PlanOf(Some(t), first, translated, repairs).value, draft)
  {
    var draft := if first.inLanguage then first else translated;
    var used := PlannedIsTaken(t, draft, repairs);
    assert used in [first, translated] + repairs;
  }

  /** With bounds on the scale, the selector's type and difficulty filters pass every planned question. */
  lemma PlannedPassesFilters(t: Template, b: Blueprint, p: SelectionPolicy, k: Knowledge, q: Question)
    requires MeetsContract(t, b) && q in b.questions && 1 <= t.minimum && t.maximum <= 5
    requires p.allowedTypes == t.allowedTypes && p.minimum == t.minimum && p.maximum == t.maximum
    ensures Suitable(q, k, p) <==>
            q.id != "" && LinkedUnits(k, Linked(k, q.id)) != [] && !Blocked(k, LinkedUnits(k, Linked(k, q.id)))
  {}

  // ----- which draft is returned -----

  /** The number a drafted question has by its place, unless it names itself, and its difficulty unless it says none. */
  lemma NamedExactly(d: DraftQuestion, index: nat)
    ensures var q := Named(d, index);
            (d.id.Some? ==> q.id == d.id.value) && (d.id.None? ==> q.id == "Q" + Digits(index))
            && (d.difficulty.Some? ==> q.difficulty == d.difficulty.value) && (d.difficulty.None? ==> q.difficulty == 3)
            && q.kind == d.kind && q.text == d.text && q.objectives == d.objectives && q.followups == d.followups
            && q.expected == d.expected && q.excerpt == d.excerpt
  {}

  /** The drafted question makes a single request, also in its follow-ups, and is of an allowed type and difficulty. */
  ghost predicate KeepsTo(t: Template, d: DraftQuestion) {
    !t.stacked(d.text) && (forall f :: f in d.followups ==> !t.stacked(f))
    && d.kind in t.allowedTypes
    && t.minimum <= (if d.difficulty.Some? then d.difficulty.value else 3) <= t.maximum
  }

  /** All questions that will be used keep to the template. */
  ghost predicate DraftKeeps(t: Template, draft: Draft) {
    forall i :: 0 <= i < |draft.questions| && i < t.limit ==> KeepsTo(t, draft.questions[i])
  }

  lemma KeepsExactly(t: Template, draft: Draft)
    ensures FirstViolation(t, Taken(t, Normalized(draft))).None? <==> DraftKeeps(t, draft)
  {
    var taken := Taken(t, Normalized(draft));
    NoViolation(t, taken);
    forall i | 0 <= i < |taken| ensures ViolationOf(t, taken[i]).None? <==> KeepsTo(t, draft.questions[i]) {
      NoneStacked(t, draft.questions[i].followups);
    }
    if DraftKeeps(t, draft) {
      forall q | q in taken ensures ViolationOf(t, q).None? {
        var i :| 0 <= i < |taken| && taken[i] == q;
      }
    } else {
      var i :| 0 <= i < |draft.questions| && i < t.limit && !KeepsTo(t, draft.questions[i]);
      assert taken[i] in taken;
    }
  }

  /** Draft `k` is the first that keeps to the template, and every draft up to it was usable. */
  ghost predicate FirstKept(t: Template, drafts: seq<Draft>, k: int) {
    0 <= k < |drafts| && DraftKeeps(t, drafts[k])
    && (forall j :: 0 <= j < k ==> !DraftKeeps(t, drafts[j]))
    && forall j :: 0 < j <= k ==> drafts[j].inLanguage && drafts[j].questions != []
  }

  /** With a draft that breaks the template put before, the first kept one is one place later. */
  lemma KeptBehind(t: Template, draft: Draft, repairs: seq<Draft>, k: int)
    requires repairs != [] && !DraftKeeps(t, draft) && repairs[0].inLanguage && repairs[0].questions != []
    requires FirstKept(t, repairs, k)
    ensures FirstKept(t, [draft] + repairs, k + 1)
  {
    var all := [draft] + repairs;
    forall j | 0 <= j < k + 1 ensures !DraftKeeps(t, all[j]) { assert j > 0 ==> all[j] == repairs[j - 1]; }
    forall j | 0 < j <= k + 1 ensures all[j].inLanguage && all[j].questions != [] { assert all[j] == repairs[j - 1]; }
    assert all[k + 1] == repairs[k];
  }

  lemma KeptBefore(t: Template, draft: Draft, repairs: seq<Draft>, k: int)
    requires FirstKept(t, [draft] + repairs, k + 1) && k >= 0
    ensures repairs != [] && repairs[0].inLanguage && repairs[0].questions != [] && FirstKept(t, repairs, k)
  {
    var all := [draft] + repairs;
    assert all[1] == repairs[0] && all[k + 1] == repairs[k];
    forall j | 0 <= j < k ensures !DraftKeeps(t, repairs[j]) { assert all[j + 1] == repairs[j]; }
    forall j | 0 < j <= k ensures repairs[j].inLanguage && repairs[j].questions != [] { assert all[j + 1] == repairs[j]; }
  }

  lemma FirstKeptLater(t: Template, draft: Draft, repairs: seq<Draft>, k: int)
    requires repairs != [] && !DraftKeeps(t, draft) && k >= 0
    ensures FirstKept(t, [draft] + repairs, k + 1) <==>
            repairs[0].inLanguage && repairs[0].questions != [] && FirstKept(t, repairs, k)
  {
    if FirstKept(t, [draft] + repairs, k + 1) { KeptBefore(t, draft, repairs, k); }
    if repairs[0].inLanguage && repairs[0].questions != [] && FirstKept(t, repairs, k) { KeptBehind(t, draft, repairs, k); }
  }

  /** The plan is made of the first draft that keeps to the template, exactly if there is one. */
  lemma {:induction false} PlannedExactly(t: Template, draft: Draft, repairs: seq<Draft>, k: int)
    ensures FirstKept(t, [draft] + repairs, k) ==>
              Planned(t, Normalized(draft), repairs).Success?
              && TakenFrom(t, Planned(t, Normalized(draft), repairs).value, ([draft] + repairs)[k])
    ensures Planned(t, Normalized(draft), repairs).Success? ==> exists m :: FirstKept(t, [draft] + repairs, m)
    decreases |repairs|
  {
    var all := [draft] + repairs;
    KeepsExactly(t, draft);
    if DraftKeeps(t, draft) {
      assert FirstKept(t, all, 0);
      MappedIsTaken(t, draft);
      assert all[0] == draft;
    } else {
      assert !FirstKept(t, all, 0);
      if repairs != [] {
        var rest := [repairs[0]] + repairs[1..];
        assert rest == repairs;
        if k > 0 { FirstKeptLater(t, draft, repairs, k - 1); }
        PlannedExactly(t, repairs[0], repairs[1..], k - 1);
        if Planned(t, Normalized(draft), repairs).Success? {
          var m :| FirstKept(t, rest, m);
          FirstKeptLater(t, draft, repairs, m);
        }
      }
    }
  }

  /** A blueprint is returned under a template exactly when some draft keeps to it before an unusable one comes. */
  lemma PlanSucceedsExactly(t: Template, first: Draft, translated: Draft, repairs: seq<Draft>)
    ensures var draft := if first.inLanguage then first else translated;
            PlanOf(Some(t), first, translated, repairs).Success? <==>
            draft.inLanguage && draft.questions != [] && exists k :: FirstKept(t, [draft] + repairs, k)
  {
    var draft := if first.inLanguage then first else translated;
    if k :| FirstKept(t, [draft] + repairs, k) { PlannedExactly(t, draft, repairs, k); }
    PlannedExactly(t, draft, repairs, -1);
  }

  /** The blueprint returned is the beginning of that very draft. */
  lemma PlanIsFirstKept(t: Template, first: Draft, translated: Draft, repairs: seq<Draft>, k: int)
    requires var draft := if first.inLanguage then first else translated;
             draft.inLanguage && draft.questions != [] && FirstKept(t, [draft] + repairs, k)
    ensures PlanOf(Some(t), first, translated, repairs).Success?
    ensures TakenFrom(t, PlanOf(Some(t), first, translated, repairs).value,
                      ([if first.inLanguage then first else translated] + repairs)[k])
  {
    PlannedExactly(t, if first.inLanguage then first else translated, repairs, k);
  }

  // ----- what is reported -----

  /** The violation is the first the drafted question commits: of single requests, then type, then difficulty. */
  ghost predicate Commits(t: Template, d: DraftQuestion, v: Violation) {
    match v
    case StackedQuestion(text) => text == d.text && t.stacked(text)
    case StackedFollowup(text) => FirstStackedIn(t, d.followups, text) && !t.stacked(d.text)
    case TypeNotAllowed(kind) => kind == d.kind && kind !in t.allowedTypes && SingleRequests(t, d)
    case DifficultyOutOfBounds(difficulty) =>
      difficulty == (if d.difficulty.Some? then d.difficulty.value else 3) && !(t.minimum <= difficulty <= t.maximum)
      && d.kind in t.allowedTypes && SingleRequests(t, d)
  }

  ghost predicate SingleRequests(t: Template, d: DraftQuestion) {
    !t.stacked(d.text) && forall f :: f in d.followups ==> !t.stacked(f)
  }

  ghost predicate FirstStackedIn(t: Template, texts: seq<string>, text: string) {
    exists i :: 0 <= i < |texts| && texts[i] == text && t.stacked(text) && forall j :: 0 <= j < i ==> !t.stacked(texts[j])
  }

  /** Question `i` of the draft is the first that does not keep to the template, and the violation is its. */
  ghost predicate FirstBreach(t: Template, draft: Draft, v: Violation, i: int) {
    0 <= i < |draft.questions| && i < t.limit && !KeepsTo(t, draft.questions[i]) && Commits(t, draft.questions[i], v)
    && forall j :: 0 <= j < i ==> KeepsTo(t, draft.questions[j])
  }

  lemma {:induction false} FirstStackedIs(t: Template, texts: seq<string>)
    ensures FirstStacked(t, texts).Some? ==> FirstStackedIn(t, texts, FirstStacked(t, texts).value)
  {
    if texts != [] {
      var rest := texts[1..];
      FirstStackedIs(t, rest);
      if !t.stacked(texts[0]) && FirstStacked(t, rest).Some? {
        var text := FirstStacked(t, rest).value;
        var i :| 0 <= i < |rest| && rest[i] == text && t.stacked(text) && forall j :: 0 <= j < i ==> !t.stacked(rest[j]);
        forall j | 0 <= j < i + 1 ensures !t.stacked(texts[j]) { assert j > 0 ==> texts[j] == rest[j - 1]; }
        assert texts[i + 1] == text;
      }
    }
  }

  lemma ViolationIs(t: Template, d: DraftQuestion, index: nat)
    ensures var v := ViolationOf(t, Named(d, index));
            (v.None? <==> KeepsTo(t, d)) && (v.Some? ==> Commits(t, d, v.value))
  {
    NoneStacked(t, d.followups);
    FirstStackedIs(t, d.followups);
  }

  lemma {:induction false} FirstViolationIs(t: Template, questions: seq<Question>)
    ensures FirstViolation(t, questions).Some? ==>
              exists i :: 0 <= i < |questions| && ViolationOf(t, questions[i]) == FirstViolation(t, questions)
                          && forall j :: 0 <= j < i ==> ViolationOf(t, questions[j]).None?
  {
    if questions != [] && ViolationOf(t, questions[0]).None? {
      var rest := questions[1..];
      FirstViolationIs(t, rest);
      if FirstViolation(t, rest).Some? {
        var i :| 0 <= i < |rest| && ViolationOf(t, rest[i]) == FirstViolation(t, rest)
                 && forall j :: 0 <= j < i ==> ViolationOf(t, rest[j]).None?;
        forall j | 0 <= j < i + 1 ensures ViolationOf(t, questions[j]).None? { assert j > 0 ==> questions[j] == rest[j - 1]; }
        assert questions[i + 1] == rest[i];
      }
    }
  }

  lemma BreachFound(t: Template, draft: Draft, v: Violation)
    requires FirstViolation(t, Taken(t, Normalized(draft))) == Some(v)
    ensures exists i :: FirstBreach(t, draft, v, i)
  {
    var taken := Taken(t, Normalized(draft));
    FirstViolationIs(t, taken);
    var i :| 0 <= i < |taken| && ViolationOf(t, taken[i]) == Some(v) && forall j :: 0 <= j < i ==> ViolationOf(t, taken[j]).None?;
    forall j | 0 <= j <= i ensures ViolationOf(t, taken[j]).None? <==> KeepsTo(t, draft.questions[j]) {
      ViolationIs(t, draft.questions[j], j + 1);
    }
    ViolationIs(t, draft.questions[i], i + 1);
    assert FirstBreach(t, draft, v, i);
  }

  function LastDraft(draft: Draft, repairs: seq<Draft>): Draft {
    if repairs == [] then draft else repairs[|repairs| - 1]
  }

  lemma LastLater(draft: Draft, repairs: seq<Draft>)
    requires repairs != []
    ensures LastDraft(draft, repairs) == LastDraft(repairs[0], repairs[1..])
  {}

  /** The error reports a breach only after every draft, the last one too, broke the template. */
  lemma {:induction false} BrokenKeepsNone(t: Template, draft: Draft, repairs: seq<Draft>, v: Violation, j: nat)
    requires Planned(t, Normalized(draft), repairs) == Failure(Broken(v)) && j <= |repairs|
    ensures !DraftKeeps(t, ([draft] + repairs)[j])
    decreases |repairs|
  {
    KeepsExactly(t, draft);
    if j > 0 {
      BrokenKeepsNone(t, repairs[0], repairs[1..], v, j - 1);
      assert [repairs[0]] + repairs[1..] == repairs;
    }
  }

  ghost predicate SomeBreach(t: Template, draft: Draft, v: Violation) {
    exists i :: FirstBreach(t, draft, v, i)
  }

  /** When all repairs are used up, the error names the first breach of the last draft. */
  lemma {:induction false} BrokenNamesBreach(t: Template, draft: Draft, repairs: seq<Draft>, v: Violation)
    requires Planned(t, Normalized(draft), repairs) == Failure(Broken(v))
    ensures SomeBreach(t, LastDraft(draft, repairs), v)
    decreases |repairs|
  {
    if repairs == [] {
      BreachFound(t, draft, v);
    } else {
      LastLater(draft, repairs);
      BrokenNamesBreach(t, repairs[0], repairs[1..], v);
    }
  }

  /** A first draft that stays in another language, or has no questions, is refused as that. */
  lemma FirstRefusedExactly(t: Option<Template>, first: Draft, translated: Draft, repairs: seq<Draft>)
    ensures !first.inLanguage && !translated.inLanguage ==> PlanOf(t, first, translated, repairs) == Failure(WrongLanguage)
    ensures first.inLanguage && first.questions == [] ==> PlanOf(t, first, translated, repairs) == Failure(NoQuestions)
    ensures !first.inLanguage && translated.inLanguage && translated.questions == [] ==>
              PlanOf(t, first, translated, repairs) == Failure(NoQuestions)
  {}

  /** So is a repair, if every draft before it broke the template. */
  lemma {:induction false} RepairRefusedExactly(t: Template, draft: Draft, repairs: seq<Draft>, k: nat)
    requires k < |repairs| && !(repairs[k].inLanguage && repairs[k].questions != [])
    requires !DraftKeeps(t, draft)
    requires forall j :: 0 <= j < k ==> !DraftKeeps(t, repairs[j]) && repairs[j].inLanguage && repairs[j].questions != []
    ensures Planned(t, Normalized(draft), repairs) == Failure(if repairs[k].inLanguage then NoQuestions else WrongLanguage)
    decreases |repairs|
  {
    KeepsExactly(t, draft);
    if k > 0 {
      assert !DraftKeeps(t, repairs[0]);
      forall j | 0 <= j < k - 1
        ensures !DraftKeeps(t, repairs[1..][j]) && repairs[1..][j].inLanguage && repairs[1..][j].questions != []
      {
        assert repairs[1..][j] == repairs[j + 1];
      }
      RepairRefusedExactly(t, repairs[0], repairs[1..], k - 1);
    }
  }

  // ----- objectives -----

  /** The objective that questions of a type usually serve. */
  predicate Usual(kind: string, objective: string) {
    (kind in {"motivation", "novelty"} && objective == "contribution")
    || (kind in {"method", "assumption"} && objective == "methodology")
    || (kind in {"evidence", "counterexample"} && objective == "evidence_quality")
    || (kind in {"limitation", "generalization", "transfer"} && objective == "limitations")
  }

  /**
   A question keeps the declared objectives it names; naming none, it gets the usual one of its type if that
   is declared, else the first declared one, else none.
   */
  lemma ObjectivesExactly(t: Template, q: Question, o: string)
    ensures (exists x :: x in q.objectives && x in t.objectives) ==>
              (o in ObjectivesFor(t, q) <==> o in q.objectives && o in t.objectives)
    ensures (forall x :: x in q.objectives ==> x !in t.objectives) && Usual(q.kind, o) && o in t.objectives ==>
              ObjectivesFor(t, q) == [o]
    ensures (forall x :: x in q.objectives ==> x !in t.objectives) && (forall x :: x in t.objectives ==> !Usual(q.kind, x)) ==>
              ObjectivesFor(t, q) == if |t.objectives| > 0 then [t.objectives[0]] else []
  {
    var named := Declared(q.objectives, t.objectives);
    DeclaredOnly(q.objectives, t.objectives);
    if named != [] { assert named[0] in named; }
    if q.kind in PREFERRED { assert Usual(q.kind, PREFERRED[q.kind]); }
  }
}
