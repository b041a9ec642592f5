/** When the composite foreign keys that migration 0011 adds hold after the backfill. */
module TenantKeys {
  import opened Wrappers
  import opened Backfill
  import opened Ownership

  /** `COMPOSITE_LINKS`, without the constraint names. */
  const COMPOSITE_LINKS: seq<Link> := [
    Link(Documents, ProjectId, Projects), Link(Blueprints, ProjectId, Projects),
    Link(Blueprints, DocumentId, Documents), Link(ExamSessions, ProjectId, Projects),
    Link(ExamSessions, BlueprintId, Blueprints), Link(Turns, SessionId, ExamSessions),
    Link(GoldenDatasets, ProjectId, Projects), Link(GoldenDatasets, DocumentId, Documents),
    Link(BenchmarkRuns, ProjectId, Projects), Link(BenchmarkRuns, GoldenDatasetId, GoldenDatasets),
    Link(ExpertRatings, GoldenDatasetId, GoldenDatasets), Link(EvidenceAssets, ProjectId, Projects),
    Link(EvidenceAssets, DocumentId, Documents), Link(VisualAnalyses, EvidenceAssetId, EvidenceAssets),
    Link(JointAnalyses, ProjectId, Projects), Link(VoiceSessions, ProjectId, Projects),
    Link(VoiceSessions, ExamSessionId, ExamSessions), Link(VoiceEvents, VoiceSessionId, VoiceSessions),
    Link(KnowledgeUnits, ProjectId, Projects), Link(KnowledgeUnits, BlueprintId, Blueprints),
    Link(QuestionKnowledgeUnits, KnowledgeUnitId, KnowledgeUnits), Link(LearnerSubjects, ProjectId, Projects),
    Link(IdentityLinks, IdentityId, LearnerIdentities), Link(IdentityLinks, SubjectId, LearnerSubjects),
    Link(ConceptStates, IdentityId, LearnerIdentities), Link(RetestPlans, IdentityId, LearnerIdentities),
    Link(RetestItems, RetestPlanId, RetestPlans), Link(LearnerPreferences, IdentityId, LearnerIdentities),
    Link(MemoryExports, IdentityId, LearnerIdentities), Link(KnowledgeStates, SessionId, ExamSessions),
    Link(KnowledgeStates, KnowledgeUnitId, KnowledgeUnits), Link(EvidenceEvents, SessionId, ExamSessions),
    Link(EvidenceEvents, TurnId, Turns), Link(EvidenceEvents, KnowledgeUnitId, KnowledgeUnits),
    Link(AdaptiveDecisions, SessionId, ExamSessions)]

  /** The reference of a row, if the row exists and the column is not NULL. */
  function RefOf(db: Database, link: Link, id: string): Option<string> {
    if id in RowsOf(db, link.child) && link.column in RowsOf(db, link.child)[id].refs
    then Some(RowsOf(db, link.child)[id].refs[link.column])
    else None
  }

  /** The composite foreign key: a row with an owner and a reference refers to a row of the same owner. */
  ghost predicate LinkHolds(db: Database, link: Link) {
    forall id :: RefOf(db, link, id).Some? && OwnerOf(db, link.child, id).Some? ==>
      RefOf(db, link, id).value in RowsOf(db, link.parent)
      && OwnerOf(db, link.parent, RefOf(db, link, id).value) == OwnerOf(db, link.child, id)
  }

  /** The plain foreign key. */
  ghost predicate ReferencesExist(db: Database, link: Link) {
    forall id :: RefOf(db, link, id).Some? ==> RefOf(db, link, id).value in RowsOf(db, link.parent)
  }

  /** On the original database, both ends of every reference are bound for the same owner. */
  ghost predicate Agrees(db: Database, choose: Choice, link: Link) {
    forall id :: RefOf(db, link, id).Some? ==>
      FinalOwner(db, choose, link.child, id) == FinalOwner(db, choose, link.parent, RefOf(db, link, id).value)
  }

  // ----- what the upgrade never does -----

  /** No owner that was set is overwritten, and every row of a required table ends with one. */
  lemma OwnersKeptAndComplete(db: Database, choose: Choice, t: Table, id: string)
    requires id in RowsOf(db, t)
    ensures OwnerOf(db, t, id).Some? ==> OwnerOf(Upgraded(db, choose), t, id) == OwnerOf(db, t, id)
    ensures t in REQUIRED ==> OwnerOf(Upgraded(db, choose), t, id).Some?
  {
    UpgradeGivesFinalOwner(db, choose, t, id);
  }

  /** The tables outside the required ones that may keep rows without an owner. */
  lemma StillOwnerless(db: Database, choose: Choice, t: Table, id: string)
    requires id in RowsOf(db, t) && FinalOwner(db, choose, t, id).None?
    ensures t in {Projects, PromptVersions, ScenarioTemplates, TemplateVersions, ValidationRuns}
    ensures t == ScenarioTemplates ==> RowsOf(db, t)[id].builtIn
    ensures t == TemplateVersions ==> ThroughLink(db, choose, RowsOf(db, t)[id], TemplateId, ScenarioTemplates).None?
    ensures t == ValidationRuns ==> ThroughLink(db, choose, RowsOf(db, t)[id], TemplateVersionId, TemplateVersions).None?
  {
    assert Inheritance(db, choose, t, id).None?;
    if t !in {Projects, PromptVersions, ScenarioTemplates, TemplateVersions, ValidationRuns, Concepts} {
      RequiredTables(t);
    }
  }

  lemma RequiredTables(t: Table)
    requires t !in {Projects, PromptVersions, ScenarioTemplates, TemplateVersions, ValidationRuns, Concepts}
    ensures t in REQUIRED
  {}

  lemma OwnedInheritsItself(db: Database, choose: Choice, t: Table, id: string)
    requires OwnerOf(db, t, id).Some?
    ensures Inheritance(db, choose, t, id) == OwnerOf(db, t, id)
  {}

  /** The three ways a template row stays without an owner. */
  lemma OwnerlessInherits(db: Database, choose: Choice, t: Table, id: string)
    requires id in RowsOf(db, t) && OwnerOf(db, t, id).None?
    requires t in {Projects, PromptVersions, ScenarioTemplates, TemplateVersions, ValidationRuns}
    requires t == ScenarioTemplates ==> RowsOf(db, t)[id].builtIn
    requires t == TemplateVersions ==> ThroughLink(db, choose, RowsOf(db, t)[id], TemplateId, ScenarioTemplates).None?
    requires t == ValidationRuns ==> ThroughLink(db, choose, RowsOf(db, t)[id], TemplateVersionId, TemplateVersions).None?
    ensures Inheritance(db, choose, t, id).None?
  {}

  /** What a row of the upgraded database inherits is what it already has. */
  lemma UpgradedInherits(db: Database, choose: Choice, t: Table, id: string)
    requires id in RowsOf(db, t)
    ensures Inheritance(Upgraded(db, choose), choose, t, id) == OwnerOf(Upgraded(db, choose), t, id)
    decreases Depth(t), 2
  {
    UpgradeGivesFinalOwner(db, choose, t, id);
    if OwnerOf(Upgraded(db, choose), t, id).Some? {
      OwnedInheritsItself(Upgraded(db, choose), choose, t, id);
    } else {
      NothingToInherit(db, choose, t, id);
    }
  }

  lemma NothingToInherit(db: Database, choose: Choice, t: Table, id: string)
    requires id in RowsOf(db, t) && FinalOwner(db, choose, t, id).None?
    ensures Inheritance(Upgraded(db, choose), choose, t, id).None?
    decreases Depth(t), 1
  {
    var up := Upgraded(db, choose);
    StillOwnerless(db, choose, t, id);
    UpgradeGivesFinalOwner(db, choose, t, id);
    UpgradeKeepsShape(db, choose);
    assert ShapeAt(db, up, t);
    var row, after := RowsOf(db, t)[id], RowsOf(up, t)[id];
    assert after.refs == row.refs && after.builtIn == row.builtIn;
    if t == TemplateVersions {
      NothingThrough(db, choose, row, after, TemplateId, ScenarioTemplates);
    } else if t == ValidationRuns {
      NothingThrough(db, choose, row, after, TemplateVersionId, TemplateVersions);
    }
    OwnerlessInherits(up, choose, t, id);
  }

  lemma NothingThrough(db: Database, choose: Choice, row: Row, after: Row, column: Column, parent: Table)
    requires after.refs == row.refs
    requires parent in {ScenarioTemplates, TemplateVersions} && ThroughLink(db, choose, row, column, parent).None?
    ensures ThroughLink(Upgraded(db, choose), choose, after, column, parent).None?
    decreases Depth(parent), 3
  {
    var up := Upgraded(db, choose);
    UpgradeKeepsShape(db, choose);
    assert ShapeAt(db, up, parent);
    if column in row.refs && row.refs[column] in RowsOf(db, parent) {
      UpgradedInherits(db, choose, parent, row.refs[column]);
      UpgradeGivesFinalOwner(db, choose, parent, row.refs[column]);
      NotRequired(parent);
    }
  }

  lemma NotRequired(t: Table)
    requires t in {ScenarioTemplates, TemplateVersions}
    ensures t !in REQUIRED
  {}

  /** Running the upgrade again changes nothing, whichever linked rows the database finds first each time. */
  lemma UpgradeIsIdempotent(db: Database, choose: Choice, later: Choice)
    ensures Upgraded(Upgraded(db, choose), later) == Upgraded(db, choose)
  {
    var up := Upgraded(db, choose);
    var again := Upgraded(up, later);
    UpgradeKeepsShape(db, choose);
    UpgradeKeepsShape(up, later);
    forall t: Table ensures RowsOf(again, t) == RowsOf(up, t) {
      assert ShapeAt(up, again, t) && ShapeAt(db, up, t);
      forall id | id in RowsOf(up, t) ensures RowsOf(again, t)[id] == RowsOf(up, t)[id] {
        SecondRunKeeps(db, choose, later, t, id);
      }
    }
    forall t | t in up ensures again[t] == up[t] {
      assert RowsOf(again, t) == RowsOf(up, t);
    }
  }

  lemma SecondRunKeeps(db: Database, choose: Choice, later: Choice, t: Table, id: string)
    requires id in RowsOf(Upgraded(db, choose), t) && id in RowsOf(db, t)
    ensures OwnerOf(Upgraded(Upgraded(db, choose), later), t, id) == OwnerOf(Upgraded(db, choose), t, id)
  {
    var up := Upgraded(db, choose);
    if OwnerOf(up, t, id).Some? {
      OwnersKeptAndComplete(up, later, t, id);
    } else {
      OwnersKeptAndComplete(db, choose, t, id);
      UpgradedInherits(db, choose, t, id);
      UpgradeGivesFinalOwner(db, choose, t, id);
      StillOwnerless(db, choose, t, id);
      ChoiceIrrelevant(up, choose, later, t, id);
      UpgradeGivesFinalOwner(up, later, t, id);
    }
  }

  /** Only learner identities and what hangs on them depend on the row found first. */
  lemma ChoiceIrrelevant(db: Database, a: Choice, b: Choice, t: Table, id: string)
    requires t in {Projects, PromptVersions, ScenarioTemplates, TemplateVersions, ValidationRuns}
    ensures Inheritance(db, a, t, id) == Inheritance(db, b, t, id)
    decreases Depth(t)
  {
    if id in RowsOf(db, t) {
      var row := RowsOf(db, t)[id];
      if t == TemplateVersions && TemplateId in row.refs {
        ChoiceIrrelevant(db, a, b, ScenarioTemplates, row.refs[TemplateId]);
      } else if t == ValidationRuns && TemplateVersionId in row.refs {
        ChoiceIrrelevant(db, a, b, TemplateVersions, row.refs[TemplateVersionId]);
      }
    }
  }

  // ----- the composite keys -----

  /** After the upgrade a composite key holds exactly when both ends of its references are bound for one owner. */
  lemma LinkHoldsExactly(db: Database, choose: Choice, link: Link)
    requires link.child in REQUIRED && ReferencesExist(db, link)
    ensures LinkHolds(Upgraded(db, choose), link) <==> Agrees(db, choose, link)
  {
    var up := Upgraded(db, choose);
    UpgradeKeepsShape(db, choose);
    assert ShapeAt(db, up, link.child) && ShapeAt(db, up, link.parent);
    forall id
      ensures RefOf(up, link, id) == RefOf(db, link, id)
      ensures RefOf(db, link, id).Some? ==>
                OwnerOf(up, link.child, id) == FinalOwner(db, choose, link.child, id)
                && OwnerOf(up, link.child, id).Some?
                && OwnerOf(up, link.parent, RefOf(db, link, id).value) ==
                   FinalOwner(db, choose, link.parent, RefOf(db, link, id).value)
                && RefOf(db, link, id).value in RowsOf(up, link.parent)
    {
      if RefOf(db, link, id).Some? {
        OwnersKeptAndComplete(db, choose, link.child, id);
        UpgradeGivesFinalOwner(db, choose, link.child, id);
        UpgradeGivesFinalOwner(db, choose, link.parent, RefOf(db, link, id).value);
      }
    }
  }

  /** Before the migration: every project has an owner and nothing else does. */
  ghost predicate NotYetOwned(db: Database) {
    (forall id :: id in RowsOf(db, Projects) ==> OwnerOf(db, Projects, id).Some?)
    && forall t: Table, id :: t != Projects ==> OwnerOf(db, t, id).None?
  }

  predicate IsInherited(link: Link) {
    SourceOf(link.child) == Some(Inherit(link))
  }

  /** A key along which owners are inherited holds by itself. */
  lemma InheritedLinksAgree(db: Database, choose: Choice, link: Link)
    requires NotYetOwned(db) && IsInherited(link) && ReferencesExist(db, link)
    requires link.child in REQUIRED && (link.parent in REQUIRED || link.parent == Projects)
    ensures Agrees(db, choose, link)
  {
    forall id | RefOf(db, link, id).Some?
      ensures FinalOwner(db, choose, link.child, id) == FinalOwner(db, choose, link.parent, RefOf(db, link, id).value)
    {
      var parent := RefOf(db, link, id).value;
      assert OwnerOf(db, link.child, id).None?;
      assert Inheritance(db, choose, link.child, id) == Inheritance(db, choose, link.parent, parent);
      if link.parent == Projects {
        assert OwnerOf(db, Projects, parent).Some?;
        OwnedInheritsItself(db, choose, Projects, parent);
      }
    }
  }

  lemma CompositeTables(i: nat)
    requires i < |COMPOSITE_LINKS|
    ensures COMPOSITE_LINKS[i].child in REQUIRED
    ensures COMPOSITE_LINKS[i].parent in REQUIRED || COMPOSITE_LINKS[i].parent == Projects
  {
    var link := COMPOSITE_LINKS[i];
    if link.child !in REQUIRED { NeverChild(link, i); }
    if link.parent != Projects && link.parent !in REQUIRED { NeverParent(link, i); }
  }

  lemma NeverChild(link: Link, i: nat)
    requires i < |COMPOSITE_LINKS| && link == COMPOSITE_LINKS[i]
    ensures link.child in REQUIRED
  {
    if link.child in {Projects, PromptVersions, ScenarioTemplates, TemplateVersions, ValidationRuns, Concepts} {
      assert false;
    }
    RequiredTables(link.child);
  }

  lemma NeverParent(link: Link, i: nat)
    requires i < |COMPOSITE_LINKS| && link == COMPOSITE_LINKS[i] && link.parent != Projects
    ensures link.parent in REQUIRED
  {
    if link.parent in {PromptVersions, ScenarioTemplates, TemplateVersions, ValidationRuns, Concepts} {
      assert false;
    }
    RequiredTables(link.parent);
  }

  /**
   On a database whose plain foreign keys hold, where projects are owned and nothing else is yet: after
   the backfill all composite keys hold exactly when the references along which owners are not
   inherited join rows bound for the same owner.
   */
  lemma BackfillEstablishesKeys(db: Database, choose: Choice)
    requires NotYetOwned(db)
    requires forall i :: 0 <= i < |COMPOSITE_LINKS| ==> ReferencesExist(db, COMPOSITE_LINKS[i])
    ensures (forall i :: 0 <= i < |COMPOSITE_LINKS| ==> LinkHolds(Upgraded(db, choose), COMPOSITE_LINKS[i])) <==>
            (forall i :: 0 <= i < |COMPOSITE_LINKS| && !IsInherited(COMPOSITE_LINKS[i]) ==>
               Agrees(db, choose, COMPOSITE_LINKS[i]))
  {
    var links := COMPOSITE_LINKS;
    forall i | 0 <= i < |links|
      ensures LinkHolds(Upgraded(db, choose), links[i]) <==> IsInherited(links[i]) || Agrees(db, choose, links[i])
    {
      CompositeTables(i);
      LinkHoldsExactly(db, choose, links[i]);
      if IsInherited(links[i]) { InheritedLinksAgree(db, choose, links[i]); }
    }
  }

  // ----- premises in terms of projects -----

  /** The project a row leads to along the references owners are inherited by. */
  function RootProject(db: Database, t: Table, id: string): Option<string>
    decreases Depth(t)
  {
    if id !in RowsOf(db, t) then None
    else if t == Projects then Some(id)
    else match SourceOf(t)
      case Some(Inherit(link)) =>
        var row := RowsOf(db, t)[id];
        if link.column in row.refs then RootProject(db, link.parent, row.refs[link.column]) else None
      case _ => None
  }

  lemma InheritsThrough(db: Database, choose: Choice, link: Link, id: string)
    requires IsInherited(link) && RefOf(db, link, id).Some? && OwnerOf(db, link.child, id).None?
    ensures Inheritance(db, choose, link.child, id) == Inheritance(db, choose, link.parent, RefOf(db, link, id).value)
  {}

  lemma LeadsThrough(db: Database, t: Table, id: string) returns (link: Link)
    requires t != Projects && RootProject(db, t, id).Some?
    ensures link.child == t && IsInherited(link) && RefOf(db, link, id).Some? && Depth(link.parent) < Depth(t)
    ensures RootProject(db, link.parent, RefOf(db, link, id).value) == RootProject(db, t, id)
  {
    link := SourceOf(t).value.link;
    InheritsFromAbove(t, link);
  }

  lemma InheritsFromAbove(t: Table, link: Link)
    requires SourceOf(t) == Some(Inherit(link))
    ensures link.child == t && Depth(link.parent) < Depth(t)
  {}

  /** A row that leads to a project ends with the project's owner. */
  lemma {:induction false} RootDecides(db: Database, choose: Choice, t: Table, id: string)
    requires NotYetOwned(db) && RootProject(db, t, id).Some?
    ensures RootProject(db, t, id).value in RowsOf(db, Projects)
    ensures Inheritance(db, choose, t, id) == OwnerOf(db, Projects, RootProject(db, t, id).value)
    ensures Inheritance(db, choose, t, id).Some?
    decreases Depth(t)
  {
    if t == Projects {
      OwnedInheritsItself(db, choose, t, id);
    } else {
      assert OwnerOf(db, t, id).None?;
      var link := LeadsThrough(db, t, id);
      RootDecides(db, choose, link.parent, RefOf(db, link, id).value);
      InheritsThrough(db, choose, link, id);
    }
  }

  /** Both ends of every reference lead to one project. */
  ghost predicate OneProject(db: Database, link: Link) {
    forall id :: RefOf(db, link, id).Some? ==>
      RootProject(db, link.child, id).Some?
      && RootProject(db, link.child, id) == RootProject(db, link.parent, RefOf(db, link, id).value)
  }

  const SUBJECT_LINK := Link(IdentityLinks, SubjectId, LearnerSubjects)
  const IDENTITY_LINK := Link(IdentityLinks, IdentityId, LearnerIdentities)

  /** Two links of one identity to subjects lead to projects of one organization. */
  ghost predicate SameOrganization(db: Database, a: string, b: string) {
    RefOf(db, SUBJECT_LINK, a).Some? && RefOf(db, SUBJECT_LINK, b).Some?
    && RefOf(db, IDENTITY_LINK, a).Some? && RefOf(db, IDENTITY_LINK, a) == RefOf(db, IDENTITY_LINK, b) ==>
      var s, t := RefOf(db, SUBJECT_LINK, a).value, RefOf(db, SUBJECT_LINK, b).value;
      RootProject(db, LearnerSubjects, s).Some? && RootProject(db, LearnerSubjects, t).Some?
      && OwnerOf(db, Projects, RootProject(db, LearnerSubjects, s).value) ==
         OwnerOf(db, Projects, RootProject(db, LearnerSubjects, t).value)
  }

  /** The subjects linked to one identity share one organization. */
  ghost predicate OneOrganization(db: Database) {
    forall a, b :: SameOrganization(db, a, b)
  }

  /** The database picks one of the rows it found. */
  ghost predicate Picks(choose: Choice) {
    forall identity, found :: found != {} ==> choose(identity, found) in found
  }

  lemma ProjectLinksAgree(db: Database, choose: Choice, link: Link)
    requires NotYetOwned(db) && OneProject(db, link)
    ensures Agrees(db, choose, link)
  {
    forall id | RefOf(db, link, id).Some?
      ensures FinalOwner(db, choose, link.child, id) == FinalOwner(db, choose, link.parent, RefOf(db, link, id).value)
    {
      RootDecides(db, choose, link.child, id);
      RootDecides(db, choose, link.parent, RefOf(db, link, id).value);
    }
  }

  lemma IdentityInherits(db: Database, choose: Choice, identity: string, l: string)
    requires identity in RowsOf(db, LearnerIdentities) && OwnerOf(db, LearnerIdentities, identity).None?
    requires l == choose(identity, JoinedLinks(db, identity)) && l in JoinedLinks(db, identity)
    ensures RefOf(db, SUBJECT_LINK, l).Some? && RefOf(db, IDENTITY_LINK, l) == Some(identity)
    ensures Inheritance(db, choose, LearnerIdentities, identity) ==
            OrElse(Inheritance(db, choose, LearnerSubjects, RefOf(db, SUBJECT_LINK, l).value), Some(LEGACY))
  {}

  /** The link ties the identity to a subject that exists. */
  ghost predicate Ties(db: Database, l: string, identity: string, subject: string) {
    RefOf(db, IDENTITY_LINK, l) == Some(identity) && RefOf(db, SUBJECT_LINK, l) == Some(subject)
    && subject in RowsOf(db, LearnerSubjects)
  }

  /**
   An identity without an owner ends with that of a subject it is tied to, whichever link is found first;
   a link to a subject that does not exist never counts; and without any tie it ends with the legacy owner.
   */
  lemma IdentityOwnerExactly(db: Database, choose: Choice, identity: string)
    requires Picks(choose) && identity in RowsOf(db, LearnerIdentities) && OwnerOf(db, LearnerIdentities, identity).None?
    ensures (exists l, subject :: Ties(db, l, identity, subject)) ==>
              exists l, subject :: Ties(db, l, identity, subject)
                && FinalOwner(db, choose, LearnerIdentities, identity) ==
                   OrElse(Inheritance(db, choose, LearnerSubjects, subject), Some(LEGACY))
    ensures (forall l, subject :: !Ties(db, l, identity, subject)) ==>
              FinalOwner(db, choose, LearnerIdentities, identity) == Some(LEGACY)
  {
    var links := JoinedLinks(db, identity);
    forall l ensures l in links <==> exists subject :: Ties(db, l, identity, subject) {
      if l in links { assert Ties(db, l, identity, RowsOf(db, IdentityLinks)[l].refs[SubjectId]); }
    }
    if l, subject :| Ties(db, l, identity, subject) {
      assert l in links;
      var found := choose(identity, links);
      IdentityInherits(db, choose, identity, found);
      assert Ties(db, found, identity, RefOf(db, SUBJECT_LINK, found).value);
    } else {
      assert links == {};
    }
  }

  /** Whichever link is found first, an identity belongs to the organization of all its subjects. */
  lemma SubjectLinksAgree(db: Database, choose: Choice)
    requires NotYetOwned(db) && Picks(choose) && OneOrganization(db)
    requires ReferencesExist(db, SUBJECT_LINK) && ReferencesExist(db, IDENTITY_LINK)
    requires forall id :: RefOf(db, SUBJECT_LINK, id).Some? ==> RefOf(db, IDENTITY_LINK, id).Some?
    ensures Agrees(db, choose, SUBJECT_LINK)
  {
    forall id | RefOf(db, SUBJECT_LINK, id).Some?
      ensures FinalOwner(db, choose, IdentityLinks, id) ==
              FinalOwner(db, choose, LearnerSubjects, RefOf(db, SUBJECT_LINK, id).value)
    {
      SubjectLinkAgrees(db, choose, id, RefOf(db, IDENTITY_LINK, id).value, RefOf(db, SUBJECT_LINK, id).value);
    }
  }

  lemma SubjectLinkAgrees(db: Database, choose: Choice, id: string, identity: string, subject: string)
    requires NotYetOwned(db) && Picks(choose) && OneOrganization(db)
    requires RefOf(db, SUBJECT_LINK, id) == Some(subject) && subject in RowsOf(db, LearnerSubjects)
    requires RefOf(db, IDENTITY_LINK, id) == Some(identity) && identity in RowsOf(db, LearnerIdentities)
    ensures Inheritance(db, choose, IdentityLinks, id) == Inheritance(db, choose, LearnerSubjects, subject)
    ensures Inheritance(db, choose, LearnerSubjects, subject).Some?
  {
    assert id in JoinedLinks(db, identity);
    var l := choose(identity, JoinedLinks(db, identity));
    assert l in JoinedLinks(db, identity);
    assert OwnerOf(db, LearnerIdentities, identity).None? && OwnerOf(db, IdentityLinks, id).None?;
    IdentityInherits(db, choose, identity, l);
    InheritsThrough(db, choose, IDENTITY_LINK, id);
    assert SameOrganization(db, id, l);
    SameOwners(db, choose, subject, RefOf(db, SUBJECT_LINK, l).value);
  }

  lemma SameOwners(db: Database, choose: Choice, s: string, t: string)
    requires NotYetOwned(db)
    requires RootProject(db, LearnerSubjects, s).Some? && RootProject(db, LearnerSubjects, t).Some?
    requires OwnerOf(db, Projects, RootProject(db, LearnerSubjects, s).value) ==
             OwnerOf(db, Projects, RootProject(db, LearnerSubjects, t).value)
    ensures Inheritance(db, choose, LearnerSubjects, s) == Inheritance(db, choose, LearnerSubjects, t)
    ensures Inheritance(db, choose, LearnerSubjects, s).Some?
  {
    RootDecides(db, choose, LearnerSubjects, s);
    RootDecides(db, choose, LearnerSubjects, t);
  }

  /**
   Rows whose several parents lead to one project, identities whose linked subjects share one
   organization: after the backfill every composite key of migration 0011 holds.
   */
  lemma KeysHoldForConsistentData(db: Database, choose: Choice)
    requires NotYetOwned(db) && Picks(choose) && OneOrganization(db)
    requires forall i :: 0 <= i < |COMPOSITE_LINKS| ==> ReferencesExist(db, COMPOSITE_LINKS[i])
    requires forall id :: RefOf(db, SUBJECT_LINK, id).Some? ==> RefOf(db, IDENTITY_LINK, id).Some?
    requires forall i :: 0 <= i < |COMPOSITE_LINKS| && !IsInherited(COMPOSITE_LINKS[i]) && COMPOSITE_LINKS[i] != SUBJECT_LINK
               ==> OneProject(db, COMPOSITE_LINKS[i])
    ensures forall i :: 0 <= i < |COMPOSITE_LINKS| ==> LinkHolds(Upgraded(db, choose), COMPOSITE_LINKS[i])
  {
    var links := COMPOSITE_LINKS;
    forall i | 0 <= i < |links| && !IsInherited(links[i]) ensures Agrees(db, choose, links[i]) {
      if links[i] == SUBJECT_LINK {
        assert links[22] == IDENTITY_LINK;
        SubjectLinksAgree(db, choose);
      } else {
        ProjectLinksAgree(db, choose, links[i]);
      }
    }
    BackfillEstablishesKeys(db, choose);
  }
}
