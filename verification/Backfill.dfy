/**
 Migration 0010: giving every tenant table a direct owner, table by table, from the rows it hangs
 on. A missing table is skipped; a missing parent table counts as an empty one.
 */
module Backfill {
  import opened Wrappers

  datatype Table =
    | Projects
    | ScenarioTemplates | TemplateVersions | ValidationRuns | PromptVersions | Concepts
    | TemplateBindings | Documents | Blueprints | ExamSessions | Turns | UsageEvents
    | GoldenDatasets | BenchmarkRuns | ExpertRatings | EvidenceAssets | VisualAnalyses
    | BackgroundJobs | JointAnalyses | VoiceSessions | VoiceEvents | KnowledgeUnits
    | QuestionKnowledgeUnits | LearnerSubjects | LearnerIdentities | IdentityLinks
    | UnitConceptMaps | MemoryEvents | ConceptStates | RetestPlans | RetestItems
    | LearnerPreferences | MemoryExports | MemoryDeletionAudits
    | KnowledgeStates | EvidenceEvents | AdaptiveDecisions

  datatype Column =
    | ProjectId | TemplateId | TemplateVersionId | SessionId | GoldenDatasetId | VoiceSessionId
    | KnowledgeUnitId | IdentityId | SubjectId | EvidenceEventId | RetestPlanId
    | DocumentId | BlueprintId | EvidenceAssetId | ExamSessionId | TurnId

  /** A row: its owner, its references (an absent column is NULL), and whether it is built in. */
  datatype Row = Row(owner: Option<string>, refs: map<Column, string>, builtIn: bool)

  type Rows = map<string, Row>

  type Database = map<Table, Rows>

  /** A table, a reference of its rows, and the table referred to. */
  datatype Link = Link(child: Table, column: Column, parent: Table)

  const LEGACY := "00000000-0000-0000-0000-000000000001"

  const TEMPLATE_CHILDREN: seq<Link> := [
    Link(TemplateVersions, TemplateId, ScenarioTemplates),
    Link(ValidationRuns, TemplateVersionId, TemplateVersions)]

  const PROJECT_CHILDREN: seq<Link> := [
    Link(TemplateBindings, ProjectId, Projects), Link(Documents, ProjectId, Projects),
    Link(Blueprints, ProjectId, Projects), Link(ExamSessions, ProjectId, Projects),
    Link(GoldenDatasets, ProjectId, Projects), Link(BenchmarkRuns, ProjectId, Projects),
    Link(EvidenceAssets, ProjectId, Projects), Link(VisualAnalyses, ProjectId, Projects),
    Link(JointAnalyses, ProjectId, Projects), Link(VoiceSessions, ProjectId, Projects),
    Link(KnowledgeUnits, ProjectId, Projects), Link(LearnerSubjects, ProjectId, Projects)]

  const GRANDCHILDREN: seq<Link> := [
    Link(Turns, SessionId, ExamSessions), Link(ExpertRatings, GoldenDatasetId, GoldenDatasets),
    Link(VoiceEvents, VoiceSessionId, VoiceSessions), Link(QuestionKnowledgeUnits, KnowledgeUnitId, KnowledgeUnits),
    Link(UnitConceptMaps, KnowledgeUnitId, KnowledgeUnits), Link(KnowledgeStates, SessionId, ExamSessions),
    Link(EvidenceEvents, SessionId, ExamSessions), Link(AdaptiveDecisions, SessionId, ExamSessions)]

  const OPTIONAL_PROJECT_CHILDREN: seq<Link> := [
    Link(UsageEvents, ProjectId, Projects), Link(BackgroundJobs, ProjectId, Projects)]

  const IDENTITY_CHILDREN: seq<Link> := [
    Link(IdentityLinks, IdentityId, LearnerIdentities), Link(ConceptStates, IdentityId, LearnerIdentities),
    Link(RetestPlans, IdentityId, LearnerIdentities), Link(LearnerPreferences, IdentityId, LearnerIdentities),
    Link(MemoryExports, IdentityId, LearnerIdentities), Link(MemoryDeletionAudits, IdentityId, LearnerIdentities)]

  const PLAN_CHILDREN: seq<Link> := [Link(RetestItems, RetestPlanId, RetestPlans)]

  const REQUIRED: seq<Table> := [
    TemplateBindings, Documents, Blueprints, ExamSessions, Turns, UsageEvents,
    GoldenDatasets, BenchmarkRuns, ExpertRatings, EvidenceAssets, VisualAnalyses,
    BackgroundJobs, JointAnalyses, VoiceSessions, VoiceEvents, KnowledgeUnits,
    QuestionKnowledgeUnits, LearnerSubjects, LearnerIdentities, IdentityLinks,
    UnitConceptMaps, MemoryEvents, ConceptStates, RetestPlans, RetestItems,
    LearnerPreferences, MemoryExports, MemoryDeletionAudits,
    KnowledgeStates, EvidenceEvents, AdaptiveDecisions]

  function RowsOf(db: Database, t: Table): Rows {
    if t in db then db[t] else map[]
  }

  function WithRows(db: Database, t: Table, rows: Rows): Database {
    if t in db then db[t := rows] else db
  }

  // ----- statements -----

  function OwnerOf(db: Database, t: Table, id: string): Option<string> {
    if id in RowsOf(db, t) then RowsOf(db, t)[id].owner else None
  }

  function ReferredOwner(db: Database, row: Row, column: Column, parent: Table): Option<string> {
    if column in row.refs then OwnerOf(db, parent, row.refs[column]) else None
  }

  function OrElse(a: Option<string>, b: Option<string>): Option<string> {
    if a.Some? then a else b
  }

  /** The owner a statement writes into a row that has none. */
  datatype Statement = Inherit(link: Link) | Scope | Fill(table: Table) | FromLinks | FromHistory

  function TargetOf(s: Statement): Table {
    match s
    case Inherit(link) => link.child
    case Scope => ScenarioTemplates
    case Fill(table) => table
    case FromLinks => LearnerIdentities
    case FromHistory => MemoryEvents
  }

  /** The links of an identity to subjects that exist. */
  function JoinedLinks(db: Database, identity: string): set<string> {
    set l | l in RowsOf(db, IdentityLinks)
      && IdentityId in RowsOf(db, IdentityLinks)[l].refs
      && RowsOf(db, IdentityLinks)[l].refs[IdentityId] == identity
      && SubjectId in RowsOf(db, IdentityLinks)[l].refs
      && RowsOf(db, IdentityLinks)[l].refs[SubjectId] in RowsOf(db, LearnerSubjects)
  }

  /** `LIMIT 1` without an order: which of the joined links is found first is up to the database. */
  type Choice = (string, set<string>) -> string

  function LinkedOwner(db: Database, choose: Choice, identity: string): Option<string> {
    var links := JoinedLinks(db, identity);
    var l := choose(identity, links);
    if l in links then OwnerOf(db, LearnerSubjects, RowsOf(db, IdentityLinks)[l].refs[SubjectId]) else None
  }

  function NewOwner(db: Database, choose: Choice, s: Statement, id: string, row: Row): Option<string> {
    match s
    case Inherit(link) => ReferredOwner(db, row, link.column, link.parent)
    case Scope => if row.builtIn then None else Some(LEGACY)
    case Fill(_) => Some(LEGACY)
    case FromLinks => OrElse(LinkedOwner(db, choose, id), Some(LEGACY))
    case FromHistory =>
      OrElse(ReferredOwner(db, row, IdentityId, LearnerIdentities),
             OrElse(ReferredOwner(db, row, SubjectId, LearnerSubjects),
                    OrElse(ReferredOwner(db, row, EvidenceEventId, EvidenceEvents), Some(LEGACY))))
  }

  /** One `UPDATE ... WHERE organization_id IS NULL`. */
  function Execute(db: Database, choose: Choice, s: Statement): Database {
    var rows := RowsOf(db, TargetOf(s));
    WithRows(db, TargetOf(s), map id | id in rows ::
      rows[id].(owner := OrElse(rows[id].owner, NewOwner(db, choose, s, id, rows[id]))))
  }

  function ExecuteAll(db: Database, choose: Choice, statements: seq<Statement>): Database {
    if statements == [] then db
    else Execute(ExecuteAll(db, choose, statements[..|statements| - 1]), choose, statements[|statements| - 1])
  }

  function Inherits(links: seq<Link>): seq<Statement> {
    seq(|links|, i requires 0 <= i < |links| => Inherit(links[i]))
  }

  function Fills(tables: seq<Table>): seq<Statement> {
    seq(|tables|, i requires 0 <= i < |tables| => Fill(tables[i]))
  }

  const INHERITANCE: seq<Statement> :=
    [Scope] + Inherits(TEMPLATE_CHILDREN) + [Fill(Concepts)]
    + Inherits(PROJECT_CHILDREN) + Inherits(GRANDCHILDREN) + Inherits(OPTIONAL_PROJECT_CHILDREN)
    + [FromLinks] + Inherits(IDENTITY_CHILDREN) + [FromHistory] + Inherits(PLAN_CHILDREN)

  function Upgraded(db: Database, choose: Choice): Database {
    ExecuteAll(ExecuteAll(db, choose, INHERITANCE), choose, Fills(REQUIRED))
  }

  lemma {:induction false} ExecuteSplit(db: Database, choose: Choice, a: seq<Statement>, b: seq<Statement>)
    ensures ExecuteAll(db, choose, a + b) == ExecuteAll(ExecuteAll(db, choose, a), choose, b)
  {
    if b == [] {
      assert a + b == a;
    } else {
      assert (a + b)[..|a + b| - 1] == a + b[..|b| - 1];
      ExecuteSplit(db, choose, a, b[..|b| - 1]);
    }
  }

  /** A row that has an owner stays as it is; another one gets the owner found for it, and nothing else. */
  ghost predicate RowWritten(db: Database, choose: Choice, s: Statement, id: string, was: Row, now: Row) {
    if was.owner.Some? then now == was
    else now.owner == NewOwner(db, choose, s, id, was) && now.refs == was.refs && now.builtIn == was.builtIn
  }

  ghost predicate RowsWritten(db: Database, choose: Choice, s: Statement, was: Rows, now: Rows) {
    now.Keys == was.Keys && forall id :: id in was ==> RowWritten(db, choose, s, id, was[id], now[id])
  }

  /** The statement touched no other table, and in its own no row came or went. */
  ghost predicate Written(db: Database, choose: Choice, s: Statement, now: Database) {
    now.Keys == db.Keys
    && (forall t :: t in db && t != TargetOf(s) ==> now[t] == db[t])
    && (TargetOf(s) in db ==> RowsWritten(db, choose, s, db[TargetOf(s)], now[TargetOf(s)]))
  }

  lemma RowsWrittenOnlyOneWay(db: Database, choose: Choice, s: Statement, was: Rows, a: Rows, b: Rows)
    requires RowsWritten(db, choose, s, was, a) && RowsWritten(db, choose, s, was, b)
    ensures a == b
  {
    forall id | id in was ensures a[id] == b[id] {
      assert RowWritten(db, choose, s, id, was[id], a[id]) && RowWritten(db, choose, s, id, was[id], b[id]);
    }
  }

  /** Nothing but the specified statement has that effect. */
  lemma WrittenIsExecuted(db: Database, choose: Choice, s: Statement, now: Database)
    requires Written(db, choose, s, now)
    ensures now == Execute(db, choose, s)
  {
    var specified := Execute(db, choose, s);
    if TargetOf(s) in db {
      RowsWrittenOnlyOneWay(db, choose, s, db[TargetOf(s)], now[TargetOf(s)], specified[TargetOf(s)]);
    }
    forall t | t in db ensures now[t] == specified[t] {}
  }

  /** The database the migration runs on, updated in place statement by statement. */
  class TenantDatabase {
    var tables: Database

    constructor (tables: Database)
      ensures this.tables == tables
    {
      this.tables := tables;
    }

    method Update(choose: Choice, s: Statement)
      modifies this
      ensures Written(old(tables), choose, s, tables)
    {
      var target := TargetOf(s);
      if target in tables {
        var db: Database, was: Rows := tables, tables[target];
        var now: Rows := map id | id in was ::
          was[id].(owner := OrElse(was[id].owner, NewOwner(db, choose, s, id, was[id])));
        assert RowsWritten(db, choose, s, was, now) by {
          forall id | id in was ensures RowWritten(db, choose, s, id, was[id], now[id]) {}
        }
        tables := tables[target := now];
      }
    }

    /** The statement as one step of the specified series. */
    method Run(choose: Choice, s: Statement)
      modifies this
      ensures tables == Execute(old(tables), choose, s)
    {
      ghost var was := tables;
      Update(choose, s);
      WrittenIsExecuted(was, choose, s, tables);
    }

    method UpdateFromParents(choose: Choice, links: seq<Link>)
      modifies this
      ensures tables == ExecuteAll(old(tables), choose, Inherits(links))
    {
      for i := 0 to |links|
        invariant tables == ExecuteAll(old(tables), choose, Inherits(links)[..i])
      {
        Run(choose, Inherit(links[i]));
        assert Inherits(links)[..i + 1][..i] == Inherits(links)[..i];
      }
      assert Inherits(links)[..|links|] == Inherits(links);
    }

    /** Fills what is left and checks that nothing is missing. */
    method FillRequired(choose: Choice) returns (incomplete: Option<Table>)
      modifies this
      ensures incomplete == None && tables == ExecuteAll(old(tables), choose, Fills(REQUIRED))
    {
      for i := 0 to |REQUIRED|
        invariant tables == ExecuteAll(old(tables), choose, Fills(REQUIRED)[..i])
      {
        var table := REQUIRED[i];
        Run(choose, Fill(table));
        assert Fills(REQUIRED)[..i + 1][..i] == Fills(REQUIRED)[..i];
        var missing := set id | id in RowsOf(tables, table) && RowsOf(tables, table)[id].owner.None?;
        if missing != {} {
          return Some(table);
        }
      }
      assert Fills(REQUIRED)[..|REQUIRED|] == Fills(REQUIRED);
      incomplete := None;
    }

    method Upgrade(choose: Choice) returns (incomplete: Option<Table>)
      modifies this
      ensures incomplete == None && tables == Upgraded(old(tables), choose)
    {
      ghost var db := tables;
      Run(choose, Scope);
      UpdateFromParents(choose, TEMPLATE_CHILDREN);
      Run(choose, Fill(Concepts));
      UpdateFromParents(choose, PROJECT_CHILDREN);
      UpdateFromParents(choose, GRANDCHILDREN);
      UpdateFromParents(choose, OPTIONAL_PROJECT_CHILDREN);
      Run(choose, FromLinks);
      UpdateFromParents(choose, IDENTITY_CHILDREN);
      Run(choose, FromHistory);
      UpdateFromParents(choose, PLAN_CHILDREN);
      InheritanceInOrder(db, choose);
      incomplete := FillRequired(choose);
    }
  }

  /** The inheritance statements one group after the other. */
  function Inherited(db: Database, choose: Choice): Database {
    var a := ExecuteAll(Execute(db, choose, Scope), choose, Inherits(TEMPLATE_CHILDREN));
    var b := ExecuteAll(Execute(a, choose, Fill(Concepts)), choose, Inherits(PROJECT_CHILDREN));
    var o := ExecuteAll(ExecuteAll(b, choose, Inherits(GRANDCHILDREN)), choose, Inherits(OPTIONAL_PROJECT_CHILDREN));
    var c := Execute(o, choose, FromLinks);
    var d := Execute(ExecuteAll(c, choose, Inherits(IDENTITY_CHILDREN)), choose, FromHistory);
    ExecuteAll(d, choose, Inherits(PLAN_CHILDREN))
  }

  lemma ExecuteOne(db: Database, choose: Choice, s: Statement)
    ensures ExecuteAll(db, choose, [s]) == Execute(db, choose, s)
  {
    assert [s][..0] == [] && ExecuteAll(db, choose, []) == db;
  }

  lemma ExecuteThen(db: Database, choose: Choice, a: seq<Statement>, s: Statement)
    ensures ExecuteAll(db, choose, a + [s]) == Execute(ExecuteAll(db, choose, a), choose, s)
  {
    assert (a + [s])[..|a|] == a;
  }

  lemma InheritanceInOrder(db: Database, choose: Choice)
    ensures Inherited(db, choose) == ExecuteAll(db, choose, INHERITANCE)
  {
    var s1 := [Scope];
    var s2 := s1 + Inherits(TEMPLATE_CHILDREN);
    var s3 := s2 + [Fill(Concepts)];
    var s4 := s3 + Inherits(PROJECT_CHILDREN);
    var s5 := s4 + Inherits(GRANDCHILDREN);
    var s0 := s5 + Inherits(OPTIONAL_PROJECT_CHILDREN);
    var s6 := s0 + [FromLinks];
    var s7 := s6 + Inherits(IDENTITY_CHILDREN);
    var s8 := s7 + [FromHistory];
    ExecuteOne(db, choose, Scope);
    ExecuteSplit(db, choose, s1, Inherits(TEMPLATE_CHILDREN));
    ExecuteThen(db, choose, s2, Fill(Concepts));
    ExecuteSplit(db, choose, s3, Inherits(PROJECT_CHILDREN));
    ExecuteSplit(db, choose, s4, Inherits(GRANDCHILDREN));
    ExecuteSplit(db, choose, s5, Inherits(OPTIONAL_PROJECT_CHILDREN));
    ExecuteThen(db, choose, s0, FromLinks);
    ExecuteSplit(db, choose, s6, Inherits(IDENTITY_CHILDREN));
    ExecuteThen(db, choose, s7, FromHistory);
    ExecuteSplit(db, choose, s8, Inherits(PLAN_CHILDREN));
    assert INHERITANCE == s8 + Inherits(PLAN_CHILDREN);
  }
}
