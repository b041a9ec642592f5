/** Which questions may be put and how they score, told from the learner's record entry by entry. */
module Eligibility {
  import opened Numbers
  import opened Wrappers
  import opened Questions
  import opened Selector

  // ----- entries -----

  /** `u` is the unit on record under `id`. */
  ghost predicate IsUnit(units: seq<(string, Unit)>, id: string, u: Unit) {
    exists i :: IsUnitAt(units, id, u, i)
  }

  ghost predicate IsUnitAt(units: seq<(string, Unit)>, id: string, u: Unit, i: int) {
    0 <= i < |units| && units[i] == (id, u) && forall m :: 0 <= m < i ==> units[m].0 != id
  }

  lemma {:induction false} UnitExactly(units: seq<(string, Unit)>, id: string, u: Unit)
    ensures FindUnit(units, id) == Some(u) <==> IsUnit(units, id, u)
  {
    if units != [] {
      var rest := units[1..];
      UnitExactly(rest, id, u);
      if units[0].0 == id {
        if units[0].1 == u { assert IsUnitAt(units, id, u, 0); }
      } else {
        if i :| IsUnitAt(units, id, u, i) {
          forall m | 0 <= m < i - 1 ensures rest[m].0 != id { assert rest[m] == units[m + 1]; }
          assert IsUnitAt(rest, id, u, i - 1);
        }
        if i :| IsUnitAt(rest, id, u, i) {
          forall m | 0 <= m < i + 1 ensures units[m].0 != id { assert m > 0 ==> units[m] == rest[m - 1]; }
          assert IsUnitAt(units, id, u, i + 1);
        }
      }
    }
  }

  /** `state` is the learner's state on record under `id`. */
  ghost predicate IsState(states: seq<(string, UnitState)>, id: string, state: UnitState) {
    exists i :: IsStateAt(states, id, state, i)
  }

  ghost predicate IsStateAt(states: seq<(string, UnitState)>, id: string, state: UnitState, i: int) {
    0 <= i < |states| && states[i] == (id, state) && forall m :: 0 <= m < i ==> states[m].0 != id
  }

  lemma {:induction false} StateExactly(states: seq<(string, UnitState)>, id: string, state: UnitState)
    ensures FindState(states, id) == Some(state) <==> IsState(states, id, state)
  {
    if states != [] {
      var rest := states[1..];
      StateExactly(rest, id, state);
      if states[0].0 == id {
        if states[0].1 == state { assert IsStateAt(states, id, state, 0); }
      } else {
        if i :| IsStateAt(states, id, state, i) {
          forall m | 0 <= m < i - 1 ensures rest[m].0 != id { assert rest[m] == states[m + 1]; }
          assert IsStateAt(rest, id, state, i - 1);
        }
        if i :| IsStateAt(rest, id, state, i) {
          forall m | 0 <= m < i + 1 ensures states[m].0 != id { assert m > 0 ==> states[m] == rest[m - 1]; }
          assert IsStateAt(states, id, state, i + 1);
        }
      }
    }
  }

  /** The code stands for the unit `id`: the last one with that code. */
  ghost predicate StandsFor(units: seq<(string, Unit)>, code: string, id: string) {
    exists i :: StandsForAt(units, code, id, i)
  }

  ghost predicate StandsForAt(units: seq<(string, Unit)>, code: string, id: string, i: int) {
    0 <= i < |units| && units[i].0 == id && units[i].1.code == code && forall m :: i < m < |units| ==> units[m].1.code != code
  }

  lemma {:induction false} OwnerExactly(units: seq<(string, Unit)>, code: string, id: string)
    ensures CodeOwner(units, code) == Some(id) <==> StandsFor(units, code, id)
  {
    if units != [] {
      var n := |units| - 1;
      var front := units[..n];
      OwnerExactly(front, code, id);
      if units[n].1.code == code {
        if units[n].0 == id { assert StandsForAt(units, code, id, n); }
      } else {
        if i :| StandsForAt(units, code, id, i) {
          forall m | i < m < n ensures front[m].1.code != code { assert front[m] == units[m]; }
          assert StandsForAt(front, code, id, i);
        }
        if i :| StandsForAt(front, code, id, i) {
          forall m | i < m < |units| ensures units[m].1.code != code { assert m < n ==> units[m] == front[m]; }
          assert StandsForAt(units, code, id, i);
        }
      }
    }
  }

  // ----- prerequisites -----

  /** The learner has mastered the unit at least to 0.35. */
  ghost predicate Mastered(k: Knowledge, id: string) {
    exists state :: IsState(k.states, id, state) && state.mastery >= 0.35
  }

  lemma MasteredExactly(k: Knowledge, id: string)
    ensures Mastered(k, id) <==> MasteryOf(k, id) >= 0.35
  {
    forall state ensures FindState(k.states, id) == Some(state) <==> IsState(k.states, id, state) {
      StateExactly(k.states, id, state);
    }
    if FindState(k.states, id).Some? { assert IsState(k.states, id, FindState(k.states, id).value); }
  }

  /** A prerequisite the learner lacks: its code stands for a unit that is not mastered. */
  ghost predicate Lacks(k: Knowledge, code: string) {
    code != "" && exists id :: StandsFor(k.units, code, id) && !Mastered(k, id)
  }

  lemma LacksExactly(k: Knowledge, code: string)
    ensures Blocks(k, code) <==> Lacks(k, code)
  {
    forall id
      ensures CodeOwner(k.units, code) == Some(id) <==> StandsFor(k.units, code, id)
      ensures Mastered(k, id) <==> MasteryOf(k, id) >= 0.35
    {
      OwnerExactly(k.units, code, id);
      MasteredExactly(k, id);
    }
    if CodeOwner(k.units, code).Some? { assert StandsFor(k.units, code, CodeOwner(k.units, code).value); }
  }

  /** The question is linked to the unit. */
  ghost predicate LinksTo(k: Knowledge, q: Question, u: Unit) {
    q.id in k.links && exists i :: 0 <= i < |k.links[q.id]| && IsUnit(k.units, k.links[q.id][i], u)
  }

  lemma {:induction false} LinkedAre(k: Knowledge, ids: seq<string>, u: Unit)
    ensures u in LinkedUnits(k, ids) <==> exists i :: 0 <= i < |ids| && IsUnit(k.units, ids[i], u)
  {
    if ids != [] {
      LinkedAre(k, ids[1..], u);
      UnitExactly(k.units, ids[0], u);
      if i :| 0 <= i < |ids| && IsUnit(k.units, ids[i], u) {
        assert i > 0 ==> ids[1..][i - 1] == ids[i];
      }
      if i :| 0 <= i < |ids[1..]| && IsUnit(k.units, ids[1..][i], u) {
        assert ids[1..][i] == ids[i + 1];
      }
    }
  }

  /** The unit waits for a prerequisite the learner lacks. */
  ghost predicate Waits(k: Knowledge, u: Unit) {
    exists i :: 0 <= i < |u.prerequisites| && Lacks(k, u.prerequisites[i])
  }

  lemma WaitsExactly(k: Knowledge, linked: seq<Unit>)
    ensures Blocked(k, linked) <==> exists u :: u in linked && Waits(k, u)
  {
    forall code ensures Blocks(k, code) <==> Lacks(k, code) { LacksExactly(k, code); }
    if i, j :| 0 <= i < |linked| && 0 <= j < |linked[i].prerequisites| && Blocks(k, linked[i].prerequisites[j]) {
      assert linked[i] in linked && Waits(k, linked[i]);
    }
    if u :| u in linked && Waits(k, u) {
      var i :| 0 <= i < |linked| && linked[i] == u;
      var j :| 0 <= j < |u.prerequisites| && Lacks(k, u.prerequisites[j]);
      assert Blocks(k, linked[i].prerequisites[j]);
    }
  }

  /** Some unit is linked, and no linked unit waits. */
  ghost predicate Ready(k: Knowledge, q: Question) {
    (exists u :: LinksTo(k, q, u)) && forall u :: LinksTo(k, q, u) ==> !Waits(k, u)
  }

  lemma ReadyExactly(k: Knowledge, q: Question)
    ensures var linked := LinkedUnits(k, Linked(k, q.id));
            linked != [] && !Blocked(k, linked) <==> Ready(k, q)
  {
    var linked := LinkedUnits(k, Linked(k, q.id));
    forall u ensures u in linked <==> LinksTo(k, q, u) { LinkedAre(k, Linked(k, q.id), u); }
    WaitsExactly(k, linked);
    if linked != [] { assert LinksTo(k, q, linked[0]); }
  }

  /** The question's difficulty, moved to the nearest end of the scale from 1 to 5. */
  predicate OnScaleWithin(difficulty: int, minimum: int, maximum: int) {
    if difficulty < 1 then minimum <= 1 <= maximum
    else if difficulty > 5 then minimum <= 5 <= maximum
    else minimum <= difficulty <= maximum
  }

  /**
   A question may be put exactly when it has an identifier and was not asked, its type is allowed, it is
   linked to a unit and no linked unit waits for a prerequisite, and its difficulty is within bounds.
   */
  lemma EligibleExactly(q: Question, k: Knowledge, p: SelectionPolicy, asked: set<string>)
    ensures Eligible(q, k, p, asked) <==>
            |q.id| > 0 && q.id !in asked
            && (p.allowedTypes == {} || q.kind in p.allowedTypes)
            && Ready(k, q)
            && OnScaleWithin(q.difficulty, p.minimum, p.maximum)
  {
    ReadyExactly(k, q);
  }

  /** A selected question has no linked unit that waits for a unit unknown to the learner or below 0.35. */
  lemma SelectedIsReady(s: Setting, q: Question, u: Unit, i: nat, id: string)
    requires DistinctIds(s.questions) && Selected(s).question == Some(q)
    requires LinksTo(s.k, q, u) && i < |u.prerequisites| && |u.prerequisites[i]| > 0
    requires StandsFor(s.k.units, u.prerequisites[i], id)
    ensures exists state :: IsState(s.k.states, id, state) && state.mastery >= 0.35
  {
    SelectorIsExact(s);
    assert IsBest(q, s);
    EligibleExactly(q, s.k, s.p, s.asked);
    assert !Lacks(s.k, u.prerequisites[i]);
    assert Mastered(s.k, id);
  }

  // ----- better mastery -----

  lemma {:induction false} RaisedState(a: seq<(string, UnitState)>, b: seq<(string, UnitState)>, id: string)
    requires |a| == |b|
    requires forall i :: 0 <= i < |a| ==> b[i].0 == a[i].0 && b[i].1.mastery <= a[i].1.mastery
    ensures FindState(a, id).Some? == FindState(b, id).Some?
    ensures FindState(a, id).Some? ==> FindState(b, id).value.mastery <= FindState(a, id).value.mastery
  {
    if a != [] && a[0].0 != id { RaisedState(a[1..], b[1..], id); }
  }

  /** Knowing units better never makes an eligible question ineligible. */
  lemma BetterStaysEligible(q: Question, k: Knowledge, weaker: Knowledge, p: SelectionPolicy, asked: set<string>)
    requires KnowsNoMore(k, weaker) && Eligible(q, weaker, p, asked)
    ensures Eligible(q, k, p, asked)
  {
    var linked := LinkedUnits(k, Linked(k, q.id));
    SameLinkedUnits(k, weaker, Linked(k, q.id));
    forall code ensures Blocks(k, code) ==> Blocks(weaker, code) {
      var owner := CodeOwner(k.units, code);
      if owner.Some? { RaisedState(k.states, weaker.states, owner.value); }
    }
  }

  // ----- the target -----

  function WeightIn(s: RatedState): real {
    if s.importance < 0.1 then 0.1 else s.importance
  }

  /** The weights of all states. */
  function Mass(states: seq<RatedState>): real {
    if states == [] then 0.0 else WeightIn(states[0]) + Mass(states[1..])
  }

  /** The masteries, each with its weight. */
  function Moment(states: seq<RatedState>): real {
    if states == [] then 0.0 else states[0].state.mastery * WeightIn(states[0]) + Moment(states[1..])
  }

  lemma {:induction false} MeanIs(states: seq<RatedState>)
    ensures TotalWeight(MasteryItems(states)) == Mass(states) && WeightedSum(MasteryItems(states)) == Moment(states)
    ensures states != [] ==> Mass(states) > 0.0
    ensures Mass(states) >= 0.0
  {
    if states != [] {
      MeanIs(states[1..]);
      assert MasteryItems(states)[1..] == MasteryItems(states[1..]);
    }
  }

  /** The level a mean mastery of `moment / mass` aims at. */
  predicate AimsAt(moment: real, mass: real, level: int)
    requires mass > 0.0
  {
    (level == 2 <==> moment / mass < 0.30)
    && (level == 3 <==> 0.30 <= moment / mass < 0.55)
    && (level == 4 <==> 0.55 <= moment / mass < 0.75)
    && (level == 5 <==> moment / mass >= 0.75)
  }

  /** The target is the level of the weighted mean mastery, one less with an active misconception but never below 2. */
  lemma TargetExactly(states: seq<RatedState>) returns (level: int)
    requires states != []
    ensures Mass(states) > 0.0 && AimsAt(Moment(states), Mass(states), level)
    ensures (forall i :: 0 <= i < |states| ==> !states[i].state.misconceived) ==> Target(states) == level
    ensures (exists i :: 0 <= i < |states| && states[i].state.misconceived) ==>
              Target(states) == if level == 2 then 2 else level - 1
  {
    MeanIs(states);
    level := Level(MasteryMean(states));
  }

  /** The selection aims at the target of all states on record, a unit unknown to the blueprint weighing 0.7, within bounds. */
  lemma AimExactly(s: Setting, i: nat)
    requires i < |s.k.states|
    ensures |Rated(s.k)| == |s.k.states| && Rated(s.k)[i].state == s.k.states[i].1
    ensures forall u :: IsUnit(s.k.units, s.k.states[i].0, u) ==> Rated(s.k)[i].importance == u.importance
    ensures (forall u :: !IsUnit(s.k.units, s.k.states[i].0, u)) ==> Rated(s.k)[i].importance == 0.7
    ensures s.p.minimum <= s.p.maximum ==>
              s.p.minimum <= Selected(s).target <= s.p.maximum
              && (s.p.minimum <= Target(Rated(s.k)) <= s.p.maximum ==> Selected(s).target == Target(Rated(s.k)))
              && (Target(Rated(s.k)) < s.p.minimum ==> Selected(s).target == s.p.minimum)
              && (Target(Rated(s.k)) > s.p.maximum ==> Selected(s).target == s.p.maximum)
  {
    forall u ensures FindUnit(s.k.units, s.k.states[i].0) == Some(u) <==> IsUnit(s.k.units, s.k.states[i].0, u) {
      UnitExactly(s.k.units, s.k.states[i].0, u);
    }
    var found := FindUnit(s.k.units, s.k.states[i].0);
    if found.Some? { assert IsUnit(s.k.units, s.k.states[i].0, found.value); }
  }

  // ----- score components -----

  /** The state that counts for a unit: the one on record, else the prior for untested knowledge. */
  ghost predicate CountsAs(k: Knowledge, id: string, state: UnitState) {
    if exists x :: IsState(k.states, id, x) then IsState(k.states, id, state) else state == UnitState(0.35, 0.15, false)
  }

  lemma CountsAsExactly(k: Knowledge, id: string, state: UnitState)
    ensures StateOf(k, id) == state <==> CountsAs(k, id, state)
  {
    forall x ensures FindState(k.states, id) == Some(x) <==> IsState(k.states, id, x) { StateExactly(k.states, id, x); }
    if FindState(k.states, id).Some? { assert IsState(k.states, id, FindState(k.states, id).value); }
  }

  /** `states` are what counts for the units linked to `q`. */
  ghost predicate StatesFor(k: Knowledge, q: Question, states: seq<UnitState>) {
    q.id in k.links && |states| == |k.links[q.id]|
    && forall i :: 0 <= i < |states| ==> CountsAs(k, k.links[q.id][i], states[i])
  }

  function MasteriesIn(states: seq<UnitState>): seq<real> {
    seq(|states|, i requires 0 <= i < |states| => states[i].mastery)
  }

  function ConfidencesIn(states: seq<UnitState>): seq<real> {
    seq(|states|, i requires 0 <= i < |states| => states[i].confidence)
  }

  /** Two questions share a linked unit. */
  predicate Related(k: Knowledge, a: string, b: string) {
    a in k.links && b in k.links && exists id :: id in k.links[a] && id in k.links[b]
  }

  /**
   A question's components: the gap to full mastery and confidence on average, whether any linked unit is
   misconceived, the closeness of its difficulty to the target, and whether it or its units are new.
   */
  lemma ComponentsExactly(q: Question, k: Knowledge, target: int, current: string, states: seq<UnitState>)
    requires StatesFor(k, q, states)
    requires forall i :: 0 <= i < |states| ==> 0.0 <= states[i].mastery <= 1.0 && 0.0 <= states[i].confidence <= 1.0
    ensures var c := ComponentsOf(q, k, target, current);
            c.gap == 1.0 - Mean(MasteriesIn(states)) && c.uncertainty == 1.0 - Mean(ConfidencesIn(states))
            && (c.misconception == 1.0 <==> exists i :: 0 <= i < |states| && states[i].misconceived)
            && (c.misconception == 0.0 <==> forall i :: 0 <= i < |states| ==> !states[i].misconceived)
            && (1 <= q.difficulty <= 5 && 1 <= target <= 5 ==>
                  c.fit == 1.0 - (if q.difficulty >= target then q.difficulty - target else target - q.difficulty) as real / 4.0)
            && (q.id in k.prior ==> c.novelty == 0.1)
            && (q.id !in k.prior && Related(k, current, q.id) ==> c.novelty == 0.4)
            && (q.id !in k.prior && !Related(k, current, q.id) ==> c.novelty == 1.0)
  {
    var ids := k.links[q.id];
    forall i | 0 <= i < |ids| ensures StateOf(k, ids[i]) == states[i] { CountsAsExactly(k, ids[i], states[i]); }
    assert Masteries(k, ids) == MasteriesIn(states) && Confidences(k, ids) == ConfidencesIn(states);
    MeanInUnit(MasteriesIn(states));
    MeanInUnit(ConfidencesIn(states));
    if i :| 0 <= i < |states| && states[i].misconceived { assert ids[i] in ids; }
  }

  lemma MeanInUnit(values: seq<real>)
    requires forall i :: 0 <= i < |values| ==> 0.0 <= values[i] <= 1.0
    ensures 0.0 <= Mean(values) <= 1.0
  {
    if values != [] { AverageWithin(values, 0.0, 1.0); }
  }

  /** `units` are the units linked to `q`, all of them on record. */
  ghost predicate UnitsFor(k: Knowledge, q: Question, units: seq<Unit>) {
    q.id in k.links && |units| == |k.links[q.id]|
    && forall i :: 0 <= i < |units| ==> IsUnit(k.units, k.links[q.id][i], units[i])
  }

  lemma {:induction false} LinkedInOrder(k: Knowledge, ids: seq<string>, units: seq<Unit>)
    requires |units| == |ids| && forall i :: 0 <= i < |ids| ==> IsUnit(k.units, ids[i], units[i])
    ensures LinkedUnits(k, ids) == units
  {
    if ids != [] {
      LinkedInOrder(k, ids[1..], units[1..]);
      UnitExactly(k.units, ids[0], units[0]);
    }
  }

  /** The importance of a question is the mean of its units'. */
  lemma ImportanceExactly(q: Question, k: Knowledge, target: int, current: string, units: seq<Unit>)
    requires UnitsFor(k, q, units)
    requires forall i :: 0 <= i < |units| ==> 0.0 <= units[i].importance <= 1.0
    ensures ComponentsOf(q, k, target, current).importance == Mean(seq(|units|, i requires 0 <= i < |units| => units[i].importance))
  {
    LinkedInOrder(k, k.links[q.id], units);
    MeanInUnit(Importances(units));
    assert Importances(units) == seq(|units|, i requires 0 <= i < |units| => units[i].importance);
  }

  /** What the list of candidates says of a question: its difficulty on the scale, and whether it serves an unmet objective. */
  lemma CandidateExactly(q: Question, s: Setting)
    ensures var c := Scored(q, s);
            c.id == q.id
            && c.difficulty == (if q.difficulty < 1 then 1 else if q.difficulty > 5 then 5 else q.difficulty)
            && (c.priority <==>
                exists i :: 0 <= i < |s.p.coverage| && s.p.coverage[i].0 in q.objectives
                  && CountServing(s.questions, s.asked, s.p.coverage[i].0) < s.p.coverage[i].1)
  {
    forall i | 0 <= i < |s.p.coverage|
      ensures Unmet(s.questions, s.asked, s.p.coverage[i]) <==>
              CountServing(s.questions, s.asked, s.p.coverage[i].0) < s.p.coverage[i].1
    {}
  }
}
