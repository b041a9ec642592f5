/** What the backfill comes to: the owner every row ends with. */
module Ownership {
  import opened Wrappers
  import opened Backfill

  // ----- the owner a row inherits -----

  /** The statement that first writes owners into a table; tables the inheritance leaves alone have none. */
  function SourceOf(t: Table): Option<Statement> {
    match t
    case Projects => None
    case PromptVersions => None
    case ScenarioTemplates => Some(Scope)
    case Concepts => Some(Fill(Concepts))
    case LearnerIdentities => Some(FromLinks)
    case MemoryEvents => Some(FromHistory)
    case TemplateVersions => Some(Inherit(Link(t, TemplateId, ScenarioTemplates)))
    case ValidationRuns => Some(Inherit(Link(t, TemplateVersionId, TemplateVersions)))
    case Turns => Some(Inherit(Link(t, SessionId, ExamSessions)))
    case KnowledgeStates => Some(Inherit(Link(t, SessionId, ExamSessions)))
    case EvidenceEvents => Some(Inherit(Link(t, SessionId, ExamSessions)))
    case AdaptiveDecisions => Some(Inherit(Link(t, SessionId, ExamSessions)))
    case ExpertRatings => Some(Inherit(Link(t, GoldenDatasetId, GoldenDatasets)))
    case VoiceEvents => Some(Inherit(Link(t, VoiceSessionId, VoiceSessions)))
    case QuestionKnowledgeUnits => Some(Inherit(Link(t, KnowledgeUnitId, KnowledgeUnits)))
    case UnitConceptMaps => Some(Inherit(Link(t, KnowledgeUnitId, KnowledgeUnits)))
    case IdentityLinks => Some(Inherit(Link(t, IdentityId, LearnerIdentities)))
    case ConceptStates => Some(Inherit(Link(t, IdentityId, LearnerIdentities)))
    case RetestPlans => Some(Inherit(Link(t, IdentityId, LearnerIdentities)))
    case LearnerPreferences => Some(Inherit(Link(t, IdentityId, LearnerIdentities)))
    case MemoryExports => Some(Inherit(Link(t, IdentityId, LearnerIdentities)))
    case MemoryDeletionAudits => Some(Inherit(Link(t, IdentityId, LearnerIdentities)))
    case RetestItems => Some(Inherit(Link(t, RetestPlanId, RetestPlans)))
    case _ => Some(Inherit(Link(t, ProjectId, Projects)))
  }

  /** How far a table is from the projects in the order of inheritance. */
  function Depth(t: Table): nat {
    match t
    case Projects => 0
    case PromptVersions => 0
    case ScenarioTemplates => 0
    case Concepts => 0
    case TemplateVersions => 1
    case ValidationRuns => 2
    case Turns => 2
    case KnowledgeStates => 2
    case EvidenceEvents => 2
    case AdaptiveDecisions => 2
    case ExpertRatings => 2
    case VoiceEvents => 2
    case QuestionKnowledgeUnits => 2
    case UnitConceptMaps => 2
    case LearnerIdentities => 2
    case IdentityLinks => 3
    case ConceptStates => 3
    case RetestPlans => 3
    case LearnerPreferences => 3
    case MemoryExports => 3
    case MemoryDeletionAudits => 3
    case MemoryEvents => 3
    case RetestItems => 4
    case _ => 1
  }

  /** The owner a row has or inherits on the original database, before anything left over is filled. */
  function Inheritance(db: Database, choose: Choice, t: Table, id: string): Option<string>
    decreases Depth(t), 1
  {
    if id !in RowsOf(db, t) then None
    else
      var row := RowsOf(db, t)[id];
      if row.owner.Some? then row.owner
      else match SourceOf(t)
        case None => None
        case Some(Scope) => if row.builtIn then None else Some(LEGACY)
        case Some(Fill(_)) => Some(LEGACY)
        case Some(Inherit(link)) => ThroughLink(db, choose, row, link.column, link.parent)
        case Some(FromLinks) =>
          var links := JoinedLinks(db, id);
          var l := choose(id, links);
          OrElse(if l in links then Inheritance(db, choose, LearnerSubjects, RowsOf(db, IdentityLinks)[l].refs[SubjectId])
                 else None, Some(LEGACY))
        case Some(FromHistory) =>
          OrElse(ThroughLink(db, choose, row, IdentityId, LearnerIdentities),
                 OrElse(ThroughLink(db, choose, row, SubjectId, LearnerSubjects),
                        OrElse(ThroughLink(db, choose, row, EvidenceEventId, EvidenceEvents), Some(LEGACY))))
  }

  function ThroughLink(db: Database, choose: Choice, row: Row, column: Column, parent: Table): Option<string>
    decreases Depth(parent), 2
  {
    if column in row.refs then Inheritance(db, choose, parent, row.refs[column]) else None
  }

  /** The owner a row of a required table ends with. */
  function FinalOwner(db: Database, choose: Choice, t: Table, id: string): Option<string> {
    var inherited := Inheritance(db, choose, t, id);
    if inherited.None? && t in REQUIRED then Some(LEGACY) else inherited
  }

  // ----- progress of the inheritance -----

  /** When a table is written; projects count as written before everything, prompt versions never are. */
  function Rank(t: Table): int {
    match t
    case Projects => -1
    case ScenarioTemplates => 0
    case TemplateVersions => 1
    case ValidationRuns => 2
    case Concepts => 3
    case TemplateBindings => 4
    case Documents => 5
    case Blueprints => 6
    case ExamSessions => 7
    case GoldenDatasets => 8
    case BenchmarkRuns => 9
    case EvidenceAssets => 10
    case VisualAnalyses => 11
    case JointAnalyses => 12
    case VoiceSessions => 13
    case KnowledgeUnits => 14
    case LearnerSubjects => 15
    case Turns => 16
    case ExpertRatings => 17
    case VoiceEvents => 18
    case QuestionKnowledgeUnits => 19
    case UnitConceptMaps => 20
    case KnowledgeStates => 21
    case EvidenceEvents => 22
    case AdaptiveDecisions => 23
    case UsageEvents => 24
    case BackgroundJobs => 25
    case LearnerIdentities => 26
    case IdentityLinks => 27
    case ConceptStates => 28
    case RetestPlans => 29
    case LearnerPreferences => 30
    case MemoryExports => 31
    case MemoryDeletionAudits => 32
    case MemoryEvents => 33
    case RetestItems => 34
    case PromptVersions => 35
  }

  /** The same rows in a table, but for their owners. */
  ghost predicate ShapeAt(db: Database, now: Database, t: Table) {
    RowsOf(now, t).Keys == RowsOf(db, t).Keys
    && forall id :: id in RowsOf(db, t) ==> RowsOf(now, t)[id] == RowsOf(db, t)[id].(owner := RowsOf(now, t)[id].owner)
  }

  ghost predicate SameShape(db: Database, now: Database) {
    now.Keys == db.Keys && forall t: Table :: ShapeAt(db, now, t)
  }

  ghost predicate OwnedAt(db: Database, choose: Choice, now: Database, r: int, t: Table, id: string) {
    id in RowsOf(db, t) ==>
      OwnerOf(now, t, id) == if Rank(t) < r then Inheritance(db, choose, t, id) else OwnerOf(db, t, id)
  }

  /** Tables written before rank `r` carry their inherited owners; the others are untouched. */
  ghost predicate Progress(db: Database, choose: Choice, now: Database, r: int) {
    SameShape(db, now) && forall t: Table, id: string :: OwnedAt(db, choose, now, r, t, id)
  }

  /** The statement writes the table of rank `r` and reads only owners of tables written before. */
  ghost predicate Fits(s: Statement, r: int) {
    SourceOf(TargetOf(s)) == Some(s) && Rank(TargetOf(s)) == r
    && match s
       case Inherit(link) => Rank(link.parent) < r
       case FromLinks => Rank(LearnerSubjects) < r
       case FromHistory => Rank(LearnerIdentities) < r && Rank(LearnerSubjects) < r && Rank(EvidenceEvents) < r
       case _ => true
  }

  lemma OwnersAgree(db: Database, choose: Choice, now: Database, r: int, t: Table, id: string)
    requires Progress(db, choose, now, r) && Rank(t) < r
    ensures OwnerOf(now, t, id) == Inheritance(db, choose, t, id)
  {
    assert ShapeAt(db, now, t) && OwnedAt(db, choose, now, r, t, id);
  }

  lemma ReferredAgree(db: Database, choose: Choice, now: Database, r: int, row: Row, column: Column, parent: Table)
    requires Progress(db, choose, now, r) && Rank(parent) < r
    ensures ReferredOwner(now, row, column, parent) == ThroughLink(db, choose, row, column, parent)
  {
    if column in row.refs { OwnersAgree(db, choose, now, r, parent, row.refs[column]); }
  }

  lemma JoinedLinksKept(db: Database, now: Database, identity: string)
    requires SameShape(db, now)
    ensures JoinedLinks(now, identity) == JoinedLinks(db, identity)
  {
    assert ShapeAt(db, now, IdentityLinks) && ShapeAt(db, now, LearnerSubjects);
  }

  /** What a statement writes into a row without an owner is what the row inherits. */
  lemma WritesInheritance(db: Database, choose: Choice, now: Database, r: int, s: Statement, id: string)
    requires Progress(db, choose, now, r) && Fits(s, r)
    requires id in RowsOf(db, TargetOf(s)) && OwnerOf(db, TargetOf(s), id).None?
    ensures id in RowsOf(now, TargetOf(s))
    ensures NewOwner(now, choose, s, id, RowsOf(now, TargetOf(s))[id]) == Inheritance(db, choose, TargetOf(s), id)
  {
    var row := RowsOf(db, TargetOf(s))[id];
    assert ShapeAt(db, now, TargetOf(s)) && OwnedAt(db, choose, now, r, TargetOf(s), id);
    assert RowsOf(now, TargetOf(s))[id] == row;
    match s
    case Inherit(link) => ReferredAgree(db, choose, now, r, row, link.column, link.parent);
    case Scope =>
    case Fill(_) =>
    case FromLinks =>
      JoinedLinksKept(db, now, id);
      var l := choose(id, JoinedLinks(db, id));
      if l in JoinedLinks(db, id) {
        assert ShapeAt(db, now, IdentityLinks);
        OwnersAgree(db, choose, now, r, LearnerSubjects, RowsOf(db, IdentityLinks)[l].refs[SubjectId]);
      }
    case FromHistory =>
      ReferredAgree(db, choose, now, r, row, IdentityId, LearnerIdentities);
      ReferredAgree(db, choose, now, r, row, SubjectId, LearnerSubjects);
      ReferredAgree(db, choose, now, r, row, EvidenceEventId, EvidenceEvents);
  }

  lemma OtherTablesKept(now: Database, choose: Choice, s: Statement, t: Table)
    requires t != TargetOf(s)
    ensures RowsOf(Execute(now, choose, s), t) == RowsOf(now, t)
  {}

  lemma TargetWritten(now: Database, choose: Choice, s: Statement, id: string)
    requires id in RowsOf(now, TargetOf(s))
    ensures OwnerOf(Execute(now, choose, s), TargetOf(s), id) ==
            OrElse(OwnerOf(now, TargetOf(s), id), NewOwner(now, choose, s, id, RowsOf(now, TargetOf(s))[id]))
  {}

  lemma ExecuteShape(now: Database, choose: Choice, s: Statement)
    ensures SameShape(now, Execute(now, choose, s))
  {
    forall t: Table ensures ShapeAt(now, Execute(now, choose, s), t) {
      if t != TargetOf(s) { OtherTablesKept(now, choose, s, t); }
    }
  }

  lemma RanksDiffer(a: Table, b: Table)
    ensures Rank(a) == Rank(b) ==> a == b
  {}

  lemma ExecuteProgress(db: Database, choose: Choice, now: Database, r: int, s: Statement)
    requires Progress(db, choose, now, r) && Fits(s, r)
    ensures Progress(db, choose, Execute(now, choose, s), r + 1)
  {
    var after := Execute(now, choose, s);
    ExecuteShape(now, choose, s);
    ShapeTransitive(db, now, after);
    var next := r + 1;
    forall t: Table, id: string ensures OwnedAt(db, choose, after, next, t, id) {
      assert OwnedAt(db, choose, now, r, t, id) && ShapeAt(db, now, t);
      RanksDiffer(t, TargetOf(s));
      if t != TargetOf(s) {
        OtherTablesKept(now, choose, s, t);
      } else if id in RowsOf(db, t) {
        TargetWritten(now, choose, s, id);
        if OwnerOf(db, t, id).None? { WritesInheritance(db, choose, now, r, s, id); }
      }
    }
  }

  lemma ShapeTransitive(a: Database, b: Database, c: Database)
    requires SameShape(a, b) && SameShape(b, c)
    ensures SameShape(a, c)
  {
    forall t: Table ensures ShapeAt(a, c, t) {
      assert ShapeAt(a, b, t) && ShapeAt(b, c, t);
    }
  }

  // ----- the whole upgrade -----

  ghost predicate FitsAt(links: seq<Link>, r: int, i: nat) {
    i < |links| ==> Fits(Inherit(links[i]), r + i)
  }

  ghost predicate GroupFits(links: seq<Link>, r: int) {
    forall i: nat :: FitsAt(links, r, i)
  }

  lemma {:induction false} GroupProgress(db: Database, choose: Choice, now: Database, r: int, links: seq<Link>)
    requires Progress(db, choose, now, r) && GroupFits(links, r)
    ensures Progress(db, choose, ExecuteAll(now, choose, Inherits(links)), r + |links|)
  {
    if links != [] {
      var n := |links| - 1;
      var front := links[..n];
      forall i: nat ensures FitsAt(front, r, i) { assert FitsAt(links, r, i); }
      assert FitsAt(links, r, n);
      GroupProgress(db, choose, now, r, front);
      assert Inherits(links) == Inherits(front) + [Inherit(links[n])];
      ExecuteThen(now, choose, Inherits(front), Inherit(links[n]));
      ExecuteProgress(db, choose, ExecuteAll(now, choose, Inherits(front)), r + n, Inherit(links[n]));
    }
  }

  lemma ProjectsFit()
    ensures GroupFits(PROJECT_CHILDREN, 4)
  {
    forall i: nat ensures FitsAt(PROJECT_CHILDREN, 4, i) { ProjectsFitAt(i); }
  }

  lemma ProjectsFitAt(i: nat)
    ensures FitsAt(PROJECT_CHILDREN, 4, i)
  {
    match i case 0 => case 1 => case 2 => case 3 => case 4 => case 5 =>
            case 6 => case 7 => case 8 => case 9 => case 10 => case 11 => case _ =>
  }

  lemma GrandchildrenFit()
    ensures GroupFits(GRANDCHILDREN, 16)
  {
    forall i: nat ensures FitsAt(GRANDCHILDREN, 16, i) { GrandchildrenFitAt(i); }
  }

  lemma GrandchildrenFitAt(i: nat)
    ensures FitsAt(GRANDCHILDREN, 16, i)
  {
    match i case 0 => case 1 => case 2 => case 3 => case 4 => case 5 => case 6 => case 7 => case _ =>
  }

  lemma IdentitiesFit()
    ensures GroupFits(IDENTITY_CHILDREN, 27)
  {
    forall i: nat ensures FitsAt(IDENTITY_CHILDREN, 27, i) { IdentitiesFitAt(i); }
  }

  lemma IdentitiesFitAt(i: nat)
    ensures FitsAt(IDENTITY_CHILDREN, 27, i)
  {
    match i case 0 => case 1 => case 2 => case 3 => case 4 => case 5 => case _ =>
  }

  lemma TemplatesFit()
    ensures GroupFits(TEMPLATE_CHILDREN, 1)
  {
    forall i: nat ensures FitsAt(TEMPLATE_CHILDREN, 1, i) {}
  }

  lemma SmallGroupsFit()
    ensures GroupFits(OPTIONAL_PROJECT_CHILDREN, 24) && GroupFits(PLAN_CHILDREN, 34)
  {
    forall i: nat ensures FitsAt(OPTIONAL_PROJECT_CHILDREN, 24, i) {}
    forall i: nat ensures FitsAt(PLAN_CHILDREN, 34, i) {}
  }

  lemma ProgressStarts(db: Database, choose: Choice)
    ensures Progress(db, choose, db, 0)
  {
    forall t: Table ensures ShapeAt(db, db, t) {}
    forall t: Table, id: string ensures OwnedAt(db, choose, db, 0, t, id) {}
  }

  lemma StatementThenGroup(db: Database, choose: Choice, now: Database, r: int, s: Statement, links: seq<Link>)
    requires Progress(db, choose, now, r) && Fits(s, r) && GroupFits(links, r + 1)
    ensures Progress(db, choose, ExecuteAll(Execute(now, choose, s), choose, Inherits(links)), r + 1 + |links|)
  {
    ExecuteProgress(db, choose, now, r, s);
    GroupProgress(db, choose, Execute(now, choose, s), r + 1, links);
  }

  lemma GroupThenStatement(db: Database, choose: Choice, now: Database, r: int, links: seq<Link>, s: Statement)
    requires Progress(db, choose, now, r) && GroupFits(links, r) && Fits(s, r + |links|)
    ensures Progress(db, choose, Execute(ExecuteAll(now, choose, Inherits(links)), choose, s), r + |links| + 1)
  {
    GroupProgress(db, choose, now, r, links);
    ExecuteProgress(db, choose, ExecuteAll(now, choose, Inherits(links)), r + |links|, s);
  }

  lemma TemplatesWritten(db: Database, choose: Choice)
    ensures Progress(db, choose, ExecuteAll(Execute(db, choose, Scope), choose, Inherits(TEMPLATE_CHILDREN)), 3)
  {
    ProgressStarts(db, choose);
    TemplatesFit();
    StatementThenGroup(db, choose, db, 0, Scope, TEMPLATE_CHILDREN);
  }

  lemma ProjectsWritten(db: Database, choose: Choice, now: Database)
    requires Progress(db, choose, now, 3)
    ensures Progress(db, choose, ExecuteAll(Execute(now, choose, Fill(Concepts)), choose, Inherits(PROJECT_CHILDREN)), 16)
  {
    ProjectsFit();
    StatementThenGroup(db, choose, now, 3, Fill(Concepts), PROJECT_CHILDREN);
  }

  lemma GrandchildrenWritten(db: Database, choose: Choice, now: Database)
    requires Progress(db, choose, now, 16)
    ensures Progress(db, choose, ExecuteAll(now, choose, Inherits(GRANDCHILDREN)), 24)
  {
    GrandchildrenFit();
    GroupProgress(db, choose, now, 16, GRANDCHILDREN);
  }

  lemma IdentitiesOwned(db: Database, choose: Choice, now: Database)
    requires Progress(db, choose, now, 24)
    ensures Progress(db, choose, Execute(ExecuteAll(now, choose, Inherits(OPTIONAL_PROJECT_CHILDREN)), choose, FromLinks), 27)
  {
    SmallGroupsFit();
    GroupThenStatement(db, choose, now, 24, OPTIONAL_PROJECT_CHILDREN, FromLinks);
  }

  lemma IdentitiesWritten(db: Database, choose: Choice, now: Database)
    requires Progress(db, choose, now, 27)
    ensures Progress(db, choose, Execute(ExecuteAll(now, choose, Inherits(IDENTITY_CHILDREN)), choose, FromHistory), 34)
  {
    IdentitiesFit();
    GroupThenStatement(db, choose, now, 27, IDENTITY_CHILDREN, FromHistory);
  }

  lemma PlansWritten(db: Database, choose: Choice, now: Database)
    requires Progress(db, choose, now, 34)
    ensures Progress(db, choose, ExecuteAll(now, choose, Inherits(PLAN_CHILDREN)), 35)
  {
    SmallGroupsFit();
    GroupProgress(db, choose, now, 34, PLAN_CHILDREN);
  }

  /** Every statement of the upgrade finds the owners it reads already written. */
  lemma InheritanceProgress(db: Database, choose: Choice)
    ensures Progress(db, choose, Inherited(db, choose), 35)
  {
    TemplatesWritten(db, choose);
    var a := ExecuteAll(Execute(db, choose, Scope), choose, Inherits(TEMPLATE_CHILDREN));
    ProjectsWritten(db, choose, a);
    var b := ExecuteAll(Execute(a, choose, Fill(Concepts)), choose, Inherits(PROJECT_CHILDREN));
    GrandchildrenWritten(db, choose, b);
    var o := ExecuteAll(b, choose, Inherits(GRANDCHILDREN));
    IdentitiesOwned(db, choose, o);
    var c := Execute(ExecuteAll(o, choose, Inherits(OPTIONAL_PROJECT_CHILDREN)), choose, FromLinks);
    IdentitiesWritten(db, choose, c);
    PlansWritten(db, choose, Execute(ExecuteAll(c, choose, Inherits(IDENTITY_CHILDREN)), choose, FromHistory));
  }

  ghost predicate FilledAt(now: Database, after: Database, tables: seq<Table>, t: Table, id: string) {
    id in RowsOf(now, t) ==>
      OwnerOf(after, t, id) == if t in tables then OrElse(OwnerOf(now, t, id), Some(LEGACY)) else OwnerOf(now, t, id)
  }

  lemma {:induction false} FillsEffect(now: Database, choose: Choice, tables: seq<Table>)
    ensures var after := ExecuteAll(now, choose, Fills(tables));
            SameShape(now, after) && forall t: Table, id: string :: FilledAt(now, after, tables, t, id)
  {
    if tables == [] {
      forall t: Table ensures ShapeAt(now, now, t) {}
      forall t: Table, id: string ensures FilledAt(now, now, tables, t, id) {}
    } else {
      var n := |tables| - 1;
      var front := tables[..n];
      FillsEffect(now, choose, front);
      assert Fills(tables) == Fills(front) + [Fill(tables[n])];
      ExecuteThen(now, choose, Fills(front), Fill(tables[n]));
      var reached := ExecuteAll(now, choose, Fills(front));
      var after := Execute(reached, choose, Fill(tables[n]));
      ExecuteShape(reached, choose, Fill(tables[n]));
      ShapeTransitive(now, reached, after);
      assert tables == front + [tables[n]];
      forall t: Table, id: string ensures FilledAt(now, after, tables, t, id) {
        assert FilledAt(now, reached, front, t, id) && ShapeAt(now, reached, t);
        if t != tables[n] {
          OtherTablesKept(reached, choose, Fill(tables[n]), t);
        } else if id in RowsOf(now, t) {
          TargetWritten(reached, choose, Fill(tables[n]), id);
        }
      }
    }
  }

  lemma FilledOwner(db: Database, choose: Choice, now: Database, tables: seq<Table>, t: Table, id: string)
    requires Progress(db, choose, now, 35) && id in RowsOf(db, t)
    ensures var after := ExecuteAll(now, choose, Fills(tables));
            id in RowsOf(after, t)
            && OwnerOf(after, t, id) ==
               if t in tables then OrElse(Inheritance(db, choose, t, id), Some(LEGACY)) else Inheritance(db, choose, t, id)
  {
    var after := ExecuteAll(now, choose, Fills(tables));
    FillsEffect(now, choose, tables);
    assert ShapeAt(db, now, t) && OwnedAt(db, choose, now, 35, t, id);
    assert FilledAt(now, after, tables, t, id) && ShapeAt(now, after, t);
  }

  /** The upgrade gives every row its final owner. */
  lemma UpgradeGivesFinalOwner(db: Database, choose: Choice, t: Table, id: string)
    requires id in RowsOf(db, t)
    ensures id in RowsOf(Upgraded(db, choose), t)
    ensures OwnerOf(Upgraded(db, choose), t, id) == FinalOwner(db, choose, t, id)
  {
    InheritanceProgress(db, choose);
    InheritanceInOrder(db, choose);
    FilledOwner(db, choose, Inherited(db, choose), REQUIRED, t, id);
  }

  /** The upgrade changes nothing but owners. */
  lemma UpgradeKeepsShape(db: Database, choose: Choice)
    ensures SameShape(db, Upgraded(db, choose))
  {
    InheritanceProgress(db, choose);
    InheritanceInOrder(db, choose);
    FillsEffect(Inherited(db, choose), choose, REQUIRED);
    ShapeTransitive(db, Inherited(db, choose), Upgraded(db, choose));
  }
}
