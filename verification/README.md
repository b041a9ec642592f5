# Verification of the AI examiner's exam engine

The project models the behaviour that an examination depends on, and proves what holds over whole
examinations rather than in single branches:

- **The exam engine.** A session puts a first question, takes answers, and after each answer gives a
  hint, asks a follow-up, moves to another question or ends. `Policy` decides and authorises the
  action, `Selector` chooses adaptive questions, `Assessment` and `Analyzer` turn an untrusted model
  judgement into the coverage number the policy acts on, `Exam` is the session itself, and `Reporter`
  reads the finished run back. `Runs`, `Guarantees`, `Coverage` and `Agreement` prove properties of
  all runs: the invariants, bounds on answers and questions, objective coverage, and that the report
  tells what happened. `Credit`, `Eligibility`, `Conduct` and `Scoring` say of each stage what it comes to
  in terms of what it is given: which points gain and lose credit, which questions may be put and how they
  score, what the examiner does next, and what every score is made of. `Contracts` is how a session gets its conversation contract when it is created,
  and what that means for its runs. `Planner` and `Scenario` connect the planner's promise to covered
  runs.
- **Two protocols of the web layer.** `VoiceCompletion` is the exclusive completion of a voice
  session among interleaved callers; `VoiceFinalization` and `VoiceResumption` are the resumable
  recording of its transcript, which may grow meanwhile; `VoiceProtocol` and `VoiceOverlap` put the two
  together, and `VoiceLimit` is what they do to the question limit. `LearnerAnswer` is the queued and
  retried learner answer.
- **The tenant-ownership backfill.** `Backfill` executes the migration's updates in order;
  `Ownership` and `TenantKeys` prove the owner every row ends with and when the composite foreign
  keys of the next migration hold.

Where the source changes fields or dictionaries in place, the model is a class or a loop proved
against a function of the old state; what the source promises is then proved about that function.
`Numbers`, `Wrappers`, `Questions` and `Transcript` hold shared definitions.

Model replies, evaluator scores, similarity ratios, learner states and governance rejections are
arbitrary inputs. Python floats are exact reals, and `round` rounds halves to even on the exact value.
The premises on a blueprint are that question ids are distinct and non-empty.

## What the code does not do

Each of these statements fails of the code as it stands. A lemma says exactly when it holds, and where
the failure is a run, a reply or a choice, another lemma gives an instance.

- Adjudication acts on every point the reply names, although the prompt asks for the candidates and
  no others; a contradicted point can gain full credit (`ContradictedKeptExactly`,
  `ContradictedPointPromoted`).
- A resumed voice finalisation counts answers from the first one it records itself, so an answer may
  be filed under another question than in one uncut run (`SameQuestionExactly`, `ResumedRunMismatches`).
- Asked question ids are stored only by the finalisation run that ends, and only from the turns that
  run recorded; the questions of turns recorded by earlier, cut runs can be missing
  (`AskedAfterResumingExactly`, `ResumedRunForgets`). Either needs an effective connect write between two
  claims (`ResumedRunFollowsConnect`); without one, nothing mismatches (`WithoutConnectNothingMismatches`).
- A connect request can overwrite a claim, unless it had read `connected` at its start; then two callers
  finalise side by side (`SecondFinaliserExactly`, `SharedExactly`, `ConnectBreaksExclusion`), and as each
  reads only once what is recorded, an answer can be recorded twice (`RecordedTwiceExactly`,
  `AnswerRecordedTwice`).
- A claim whose caller dies is not completed by further calls; it takes an effective connect write and then
  a caller that works through (`DeadClaimCompletedExactly`, `ConnectRevivesDeadClaim`).
- The examination of a completed voice session becomes active again with the write of any connect request
  still under way (`ExamStaysCompletedExactly`, `LateReconnectReopensExam`).
- A voice session does not read its question limit: its asked questions stay within it exactly when the
  answers are matched with no more questions than that (`VoiceLimitExactly`, `VoicePassesLimit`).
- An answer added to a voice transcript after the last run read it is never recorded (`RecordedOnce`,
  `LateAnswerLost`).
- The selector clamps difficulty into 1..5 before testing it against the bounds
  (`ClampedDifficultyTest`, `BeyondScaleIsSuitable`).
- Untested units are meant not to outrank an observed misconception; they do once the misconceived
  unit's mastery and confidence are high enough, and rounding to six decimals with the identifier as
  tie-break decides close cases (`MisconceptionOutranksExactly`, `RoundedLeadLoses`).
- Full coverage is recognised after rounding to four decimals; a missing point of small weight is then
  not reported as missing (`FullMarksExactly`, `RoundedUpMissesNothing`).
- An overall score is 0 whatever the objective scores if only objectives without weight are assessed
  (`OverallWithinObjectives`, `OverallStaysOnScale`, `OnlyZeroWeightAssessed`).

The orchestrator taken by itself keeps an adaptive session's question limit only by ending
(`LimitPassedExactly`). For text sessions, locked examinations and retests that is no failure of the
system: every way of creating one makes sure that it may end, so that none that can be created passes its
limit (`CreatedMayEnd`, `CreatedRunsKeepLimit`).

## Model

| member | source | states |
|---|---|---|
| `Assessment.ExpectedPointRecords` | src/ai_examiner/assessment.py:122-138 | one record per expected point in order, numbered from 1, weights never negative, and never an empty list |
| `Credit.RecordsExactly` | src/ai_examiner/assessment.py:122-138 | plain points are numbered and weigh one, described ones keep identifier and weight, and no two points get the same number |
| `Credit.DefaultPointExactly` | src/ai_examiner/assessment.py:122-126 | a question without expected points is assessed on whether its own text was answered |
| `Assessment.NormalizationIsExact` | src/ai_examiner/assessment.py:141-193 | a reply is accepted exactly when every expected point is judged with known labels, and then yields one point per record in the records' order |
| `Assessment.NormalizePointAssessments` | src/ai_examiner/assessment.py:141-193 | the loop returns the normalised points or the error of the first record that fails |
| `Assessment.CoverageMono` | src/ai_examiner/assessment.py:196-205 | judging no point worse never lowers coverage, also after rounding |
| `Assessment.CoverageAtMost` | src/ai_examiner/assessment.py:196-205 | if no point is worth more than a bound, neither is the coverage |
| `Credit.CoverageExactly` | src/ai_examiner/assessment.py:196-205 | coverage is the earned part of the weight: all of a covered point, half of a partial one, none of any other, and zero without weight |
| `Analyzer.AnswerAnalyzer.Normalize` | src/ai_examiner/agents/analyzer.py:333-427 | an accepted reply fills the analysis dictionary with reconciled points; a refused one leaves it alone |
| `Analyzer.AnswerAnalyzer.AdjudicateOpenAnswer` | src/ai_examiner/agents/analyzer.py:243-331 | promotes exactly the points with an accepting decision, and only for open questions with a candidate and a reply that arrived |
| `Analyzer.AnswerAnalyzer.ApplyRelevanceGuard` | src/ai_examiner/agents/analyzer.py:171-241 | demotes full credit, recomputes coverage and lists what is missing once the answer is capped |
| `Analyzer.AnswerAnalyzer.Analyze` | src/ai_examiner/agents/analyzer.py:143-165 | one correction of a contract breach, then adjudication, then the guard; a second breach leaves the dictionary alone |
| `Credit.AcceptedExactly` | src/ai_examiner/assessment.py:141-193 | a reply is accepted exactly when its conclusion is known and it has a last word in known labels on every record |
| `Credit.RefusedForFirst` | src/ai_examiner/assessment.py:141-193 | a refused reply is refused for the first record it omits or labels unknowably |
| `Credit.CreditExactly` | src/ai_examiner/agents/analyzer.py:340-355 | a point ends covered exactly when the reply's last word covers it, or short of contradiction and conflict finds it equivalent, an alternative, or functional beside a rubric issue; else it keeps its status |
| `Credit.ReconciledExactly` | src/ai_examiner/agents/analyzer.py:340-355 | the reconciled ids are exactly those of points whose status that changed |
| `Credit.ReplyTold` | src/ai_examiner/agents/analyzer.py:356-425 | which errors count, when full coverage overrules the reply's conclusion and empties what is missing, and that everything else is the reply's own |
| `Credit.AdjudicatedExactly` | src/ai_examiner/agents/analyzer.py:251-331 | without a candidate, an open question or a reply nothing changes; else exactly the points whose last decision grants them gain credit |
| `Credit.GuardedExactly` | src/ai_examiner/agents/analyzer.py:171-241 | the cap by effective relevance and directness, what a repeated answer counts as, and what being capped or not does to every field |
| `Credit.AnalyzedExactly` | src/ai_examiner/agents/analyzer.py:143-165 | the first accepted reply of two counts, adjudicated before it is guarded |
| `Analyzer.NormalizedIsConsistent` | src/ai_examiner/agents/analyzer.py:340-388 | cached coverage belongs to the stored points and lies in 0..1, reconciliation never lowers it and never touches contradicted or conflicting points, full coverage without errors is supported |
| `Analyzer.AdjudicatedIsConsistent` | src/ai_examiner/agents/analyzer.py:301-331 | adjudication keeps cached coverage true and never lowers it |
| `Analyzer.GuardedIsConsistent` | src/ai_examiner/agents/analyzer.py:201-241 | the guard keeps cached coverage true, never raises it, and a capped answer gets at most one half and is not supported |
| `Analyzer.PipelineIsConsistent` | src/ai_examiner/agents/analyzer.py:143-165 | whatever the model replies, a delivered analysis carries the coverage of its own points, and a capped one at most one half and not supported |
| `Analyzer.GuardCapsExactly` | src/ai_examiner/agents/analyzer.py:188-216 | an answer is capped exactly when its relevance is below 0.6, it misses the question, or it repeats an answer to another question |
| `Analyzer.FullMarksExactly` | src/ai_examiner/agents/analyzer.py:356-425 | coverage counts as complete exactly when the points reach 0.99995 |
| `Analyzer.RoundedUpMissesNothing` | src/ai_examiner/agents/analyzer.py:356-425 | an instance where a point the reply finds missing is rounded away, and the answer is supported with nothing missing |
| `Analyzer.CappedMissesEverything` | src/ai_examiner/agents/analyzer.py:218-230 | a capped answer is told that every expected point is missing |
| `Analyzer.PromotedIdsExactly` | src/ai_examiner/agents/analyzer.py:301-327 | adjudication adds to the reconciled ids exactly those of points it accepts |
| `Analyzer.ContradictedKeptExactly` | src/ai_examiner/agents/analyzer.py:296-323 | contradicted points stay contradicted exactly when no accepting decision names one |
| `Analyzer.ContradictedPointPromoted` | src/ai_examiner/agents/analyzer.py:302-319 | an instance where a decision about a point not asked about turns a contradiction into full credit |
| `Analyzer.ContradictionsSurvive` | src/ai_examiner/agents/analyzer.py:243-355 | if adjudications name only candidates, a contradicted judgement is still contradicted at the end of the pipeline |
| `Policy.DecisionIsAllowed` | src/ai_examiner/agents/policy.py:40-101 | only allowed actions are taken, hints only first, follow-ups only while left, no move after the last question if ending is allowed |
| `Policy.NoSafeActionExactly` | src/ai_examiner/agents/policy.py:74-101 | the policy fails exactly when the wanted action, its help fallback, moving on and ending are all ruled out |
| `Policy.WantedExactly` | src/ai_examiner/agents/policy.py:40-51 | a hint is wanted exactly for an unanswered first try where hints are allowed, else a follow-up for a weak answer with some left, else the end at the last question, else to move on |
| `Policy.HintIsGiven` | src/ai_examiner/agents/policy.py:40-73 | a contract that allows hints gives one exactly then, also when it allows no follow-up |
| `Policy.TakenExactly` | src/ai_examiner/agents/policy.py:74-101 | the action taken is the first allowed one of the wanted, ending at the last question, a follow-up for a hint, moving on, ending |
| `Policy.FollowupPutExactly` | src/ai_examiner/agents/policy.py:42-47 | the text put is the candidate of the try's number, of the analysis's or else the question's, the last one again when they run out |
| `Policy.SettingsExactly` | src/ai_examiner/agents/policy.py:22-36 | contract before session settings before defaults, for actions, follow-ups and hints |
| `Policy.WeakAnswerStays` | src/ai_examiner/agents/policy.py:40-99 | a weak answer with follow-ups left wants help, and leaves the question exactly when the contract forbids that help |
| `Policy.StrongAnswerLeaves` | src/ai_examiner/agents/policy.py:40-51 | a good answer gets no further help, and ends the session exactly when it was the last or moving on is not allowed |
| `Policy.OffTopicNeverPasses` | src/ai_examiner/agents/policy.py:40-51 | a capped answer has at most half coverage, is not supported, and with follow-ups left never moves on or ends if both kinds of help are allowed |
| `Selector.Target` | src/ai_examiner/agents/adaptive.py:23-46 | the target lies in 2..5 |
| `Selector.MasteryMeanWithin` | src/ai_examiner/agents/adaptive.py:26-30 | the weighted mean lies between the least and the greatest mastery |
| `Selector.TargetMonotone` | src/ai_examiner/agents/adaptive.py:23-46 | better mastery of any units never lowers the target |
| `Selector.MisconceptionLowersByOne` | src/ai_examiner/agents/adaptive.py:31-46 | an active misconception lowers the target by one level, but never below 2 |
| `Selector.ClampedDifficultyTest` | src/ai_examiner/agents/adaptive.py:159-161 | the bounds test differs from one on the question's own difficulty exactly beyond the ends of the scale |
| `Selector.BeyondScaleIsSuitable` | src/ai_examiner/agents/adaptive.py:159-161 | an instance of a question of difficulty 7 that may be put within the bounds 3 and 5 |
| `Selector.Select` | src/ai_examiner/agents/adaptive.py:109-213 | the loop with its skipped questions returns the specified selection |
| `Selector.SelectorIsExact` | src/ai_examiner/agents/adaptive.py:109-213 | candidates are precisely the eligible questions in sorted order, none is chosen exactly when none is eligible, the chosen one is the unique best by coverage, score and id |
| `Eligibility.EligibleExactly` | src/ai_examiner/agents/adaptive.py:111-161 | which questions may be put, over the entries of units, links and states: not asked, allowed type, a linked unit and none waiting, clamped difficulty within bounds |
| `Eligibility.SelectedIsReady` | src/ai_examiner/agents/adaptive.py:119-136 | a selected question has no linked unit naming the code of a unit the learner is unknown on or below 0.35 |
| `Eligibility.LacksExactly` | src/ai_examiner/agents/adaptive.py:126-134 | a prerequisite blocks exactly when its code stands for a unit whose state is absent or below 0.35 |
| `Eligibility.BetterStaysEligible` | src/ai_examiner/agents/adaptive.py:126-136 | knowing units better never makes an eligible question ineligible |
| `Eligibility.TargetExactly` | src/ai_examiner/agents/adaptive.py:23-46 | the target is the level of the weighted mean mastery, one less with an active misconception, never below 2 |
| `Eligibility.AimExactly` | src/ai_examiner/agents/adaptive.py:73-84 | the selection aims at the target of all states, an unknown unit weighing 0.7, held within the bounds |
| `Eligibility.ComponentsExactly` | src/ai_examiner/agents/adaptive.py:138-173 | every component of a score from the learner's record, the prior for untested units included |
| `Eligibility.ImportanceExactly` | src/ai_examiner/agents/adaptive.py:148-150 | a question's importance is the mean of its linked units' |
| `Eligibility.CandidateExactly` | src/ai_examiner/agents/adaptive.py:177-190 | a listed candidate shows the difficulty on the scale and whether it serves an objective still short of its minimum |
| `Selector.SelectionIgnoresOrder` | src/ai_examiner/agents/adaptive.py:109-213 | permuting the blueprint's questions does not change the choice |
| `Selector.TotalInUnit` | src/ai_examiner/agents/adaptive.py:168-176 | candidate scores lie in 0..1 |
| `Selector.WeakerScoresNoLower` | src/ai_examiner/agents/adaptive.py:138-176 | for a fixed target, knowing any linked unit less well never lowers a question's score |
| `Selector.MisconceptionOutranksExactly` | src/ai_examiner/agents/adaptive.py:136-188 | all else equal, an observed misconception is sorted before an untested unit exactly when its lead of 0.285 less 0.3 mastery less 0.2 confidence survives rounding to six decimals, or leaves a tie and the smaller identifier |
| `Selector.ClearLeadDecides` | src/ai_examiner/agents/adaptive.py:136-188 | a lead of more than one millionth either way decides the order whatever the identifiers |
| `Selector.RoundedLeadLoses` | src/ai_examiner/agents/adaptive.py:174-188 | an instance with a positive lead where rounding and the identifier put the untested unit first |
| `Exam.ExamSession.Start` | src/ai_examiner/agents/orchestrator.py:102-162 | starting twice or without questions changes nothing; otherwise one question is asked and the whole state committed |
| `Exam.ExamSession.SubmitAnswer` | src/ai_examiner/agents/orchestrator.py:164-338 | an accepted answer is recorded, decided on and committed as a whole; an aborted one leaves the committed session untouched |
| `Exam.ExamSession.Continue` | src/ai_examiner/agents/orchestrator.py:233-310 | carries the decision out on fields and turns, ending when no next question is found |
| `Conduct.StartAcceptedExactly` | src/ai_examiner/agents/orchestrator.py:102-108 | a session starts exactly when it waits to be started and has questions, and which error any other gets |
| `Conduct.SubmitAcceptedExactly` | src/ai_examiner/agents/orchestrator.py:164-232 | exactly which submissions are accepted, and which error any other gets |
| `Conduct.FirstTryGetsHint` | src/ai_examiner/agents/orchestrator.py:222-238 | in any run a first try judged unanswered is followed by a hint on the same question, where one is allowed |
| `Conduct.HintsComeFirst` | src/ai_examiner/agents/orchestrator.py:222-238 | a hint follows only an unanswered first try |
| `Conduct.WeakAnswerGetsFollowup` | src/ai_examiner/agents/orchestrator.py:222-238 | a weak answer with follow-ups left is followed by one on the same question, with the text of its number |
| `Conduct.MovesOnExactly` | src/ai_examiner/agents/orchestrator.py:239-290 | moving on puts the best eligible question, or in fixed order the following one within the limit, and closes the session exactly when there is none |
| `Conduct.EndsExactly` | src/ai_examiner/agents/orchestrator.py:291-294 | ending closes the session on the current question |
| `Conduct.MasteryTold` | src/ai_examiner/agents/orchestrator.py:205-221 | in any reachable session the mastery record of a question is its last answer's score, confidence and missing points |
| `Conduct.JudgementTold` | src/ai_examiner/agents/policy.py:35-38 | what the policy reads of an analysis is the accepted reply's word on whether it was answered, its errors and follow-ups, and the coverage after all stages |
| `Conduct.UnansweredReplyGetsHint` | src/ai_examiner/agents/policy.py:40-41 | a reply that finds the question unanswered leads to a hint on the first try, where hints are allowed, however much it covers |
| `Conduct.OpensWithBest` | src/ai_examiner/agents/orchestrator.py:118-150 | an adaptive session without a target opens with the best eligible question, or the first if none is eligible |
| `Runs.ReachableSessions` | src/ai_examiner/agents/orchestrator.py:102-310 | in every reachable session asked ids are distinct blueprint ids, the current question is the last asked, tries equal the help given since it was put and stay within bound, fixed order walks a contiguous stretch |
| `Runs.ReachableTranscripts` | src/ai_examiner/agents/orchestrator.py:164-361 | in every reachable transcript the answered questions are the asked ones in order, first answers are judged on the question itself, every answer is on record against the very text it answers, follow-up marks match follow-up texts, mastery holds each latest evaluation |
| `Runs.RecordKeepsTexts` | src/ai_examiner/agents/orchestrator.py:340-361 | an answer is recorded against the follow-up text that the turn before it put, and if it put none against the text of the blueprint's question |
| `Runs.ContextIsHonest` | src/ai_examiner/agents/orchestrator.py:340-361 | an answer is judged as a follow-up exactly when the last turn put a follow-up text |
| `Guarantees.CompletedIsFinal` | src/ai_examiner/agents/orchestrator.py:103-168 | nothing a caller sends changes a completed session |
| `Guarantees.AskedWithinBlueprint` | src/ai_examiner/agents/orchestrator.py:222-268 | no run asks more questions than the blueprint has |
| `Guarantees.AnswerMakesProgress` | src/ai_examiner/agents/orchestrator.py:233-294 | an accepted answer completes the session or lowers the pair of questions left and tries left |
| `Guarantees.RunsAreBounded` | src/ai_examiner/agents/policy.py:40-51 | a run takes at most asked questions times one plus the tries, counting the hint possible without follow-ups, and enough answers complete it |
| `Guarantees.GoodAnswersComplete` | src/ai_examiner/agents/orchestrator.py:222-294 | a session that may move on or end is completed by any series of good answers longer than the questions left to ask, whatever each of them says |
| `Guarantees.OpensWithTarget` | src/ai_examiner/agents/orchestrator.py:109-136 | without adaptation or with a target, every run opens with the target if the blueprint has it and else with the first question |
| `Guarantees.FixedRunsAskAll` | src/ai_examiner/agents/orchestrator.py:253-268 | a completed run in fixed order has asked the questions from the opening one on, as many as limit and blueprint allow |
| `Guarantees.LimitKept` | src/ai_examiner/agents/orchestrator.py:222-268 | with a fixed order, or if ending is allowed, no run asks more than the question limit |
| `Guarantees.LimitBoundsAnswers` | src/ai_examiner/agents/policy.py:40-51 | such a run takes no more answers than the questions within the limit allow, and that many complete it |
| `Guarantees.GoodAnswersCompleteWithinLimit` | src/ai_examiner/agents/orchestrator.py:222-294 | where the limit is kept, any good answers that outnumber what it leaves complete the session |
| `Guarantees.LimitPassedExactly` | src/ai_examiner/agents/orchestrator.py:239-268 | in the orchestrator taken by itself, at the limit another question follows exactly when the session is adaptive, must move on, and some question is eligible |
| `Guarantees.LimitCanBePassed` | src/ai_examiner/agents/orchestrator.py:239-252 | in the orchestrator taken by itself, on a contract session creation refuses, one good answer to the only allowed question leads to a second |
| `Guarantees.LimitExample` | src/ai_examiner/agents/orchestrator.py:239-252 | a concrete plan of the kind session creation refuses, on which the orchestrator alone does so |
| `Contracts.CreatedMayEnd` | src/ai_examiner/services/conversation_policy.py:15-69 | the contracts of text, locked, voice and retest sessions all allow END, whatever template and overrides they come from |
| `Contracts.LockedActions` | src/ai_examiner/services/assignments.py:108-123 | locking takes away exactly hints and corrections and adds nothing but END |
| `Contracts.TextSettingsExactly` | src/ai_examiner/main.py:2244-2293 | a text session goes by the overrides asked for, else the template's own, else the template, and without one by the request; locked, no hints |
| `Contracts.TextActionsExactly` | src/ai_examiner/services/conversation_policy.py:15-69 | an unlocked session allows what its template allows, and without one the four basic actions |
| `Contracts.VoiceSettingsExactly` | src/ai_examiner/services/voice.py:158-199 | a voice session goes by its template or the request, with at most four questions, and without a template one follow-up, where the provider asks for it |
| `Contracts.RetestSettingsExactly` | src/ai_examiner/services/retest.py:114-129 | a retest asks its one target in fixed order with neither hint nor follow-up |
| `Contracts.CreatedRunsKeepLimit` | src/ai_examiner/main.py:2262-2336 | no run of a text session, locked or not, or a retest that can be created asks more questions than its limit, or the one it opens with |
| `Contracts.CreatedRunsNeverStick` | src/ai_examiner/agents/policy.py:89-92 | in such a session, a voice session being none, every judged answer is accepted: the policy never runs out of safe actions |
| `Contracts.CreatedRunsComplete` | src/ai_examiner/main.py:2262-2336 | such a session, a voice session being none, takes at most limit times one plus the tries answers, and that many complete it |
| `Contracts.LockedRunsGiveNoHint` | src/ai_examiner/services/assignments.py:108-123 | no run of a locked examination ever gives a hint, whatever the template allows and the model says |
| `Guarantees.AssistanceIsLatestHelp` | src/ai_examiner/agents/orchestrator.py:475-485 | the recorded assistance is none before any help and afterwards the kind the last turn gave |
| `Coverage.GreedyStep` | src/ai_examiner/agents/adaptive.py:85-102 | a selection made while an eligible question serves an unmet objective lowers the total deficit |
| `Coverage.CompletedRunsCover` | src/ai_examiner/agents/adaptive.py:177-198 | every completed adaptive run with enough limit, enough questions and servable objectives has asked the minimum for every objective |
| `Reporter.GroupAnswers` | src/ai_examiner/agents/reporter.py:217-226 | groups every answer under its question, in the order of first answers |
| `Reporter.Generate` | src/ai_examiner/agents/reporter.py:217-447 | the loops over turns, trajectories, evidence and objectives give the specified trajectories, selected scores, objective scores and computed overall score |
| `Reporter.FileEvidence` | src/ai_examiner/agents/reporter.py:303-322 | one question's evidence is appended under each of its objectives and nowhere else |
| `Reporter.BlendedScoresBetween` | src/ai_examiner/agents/reporter.py:78-91 | a blended score lies between the independent and the assisted score after rounding |
| `Scoring.IndependentExactly` | src/ai_examiner/agents/reporter.py:31-41 | the independent answer is the first one on the question itself, or the first of all |
| `Scoring.UnblendedExactly` | src/ai_examiner/agents/reporter.py:78-91 | without blending a question's score is its independent answer's computed score in cents |
| `Scoring.BlendedExactly` | src/ai_examiner/agents/reporter.py:78-91 | blended it lies three tenths of the way to the last answer's score, to four decimals |
| `Scoring.LookedUpExactly` | src/ai_examiner/agents/reporter.py:231-234 | a report looks a question up by its identifier, the last one if several share it |
| `Scoring.HelpDoesNotScore` | src/ai_examiner/agents/reporter.py:227-447 | transcripts with the same independent answers have the same selected, objective and overall scores without blending, whatever is answered after help |
| `Scoring.ObjectiveScoreExactly` | src/ai_examiner/agents/reporter.py:297-411 | an objective's score is the mean, in cents, of the selected scores of the questions that count for it, each as often as it is listed |
| `Scoring.OverallExactly` | src/ai_examiner/agents/reporter.py:15-23 | the overall score is the weighted mean of the assessed objective scores, or the mean of the selected scores if none is assessed |
| `Reporter.AssessedExactly` | src/ai_examiner/agents/reporter.py:303-411 | an objective gets a score exactly when some answered question counts for it with the quote and excerpt it requires |
| `Reporter.OverallWithinObjectives` | src/ai_examiner/agents/reporter.py:19-23 | with non-negative weights the overall score lies between the least and greatest assessed objective score exactly when an answered question counts for some objective with weight, or zero lies there |
| `Reporter.OnlyZeroWeightAssessed` | src/ai_examiner/agents/reporter.py:19-23 | an instance with weights 1 and 0 where the assessed objective scores 3 and the overall score is 0 |
| `Reporter.EvidenceExactly` | src/ai_examiner/agents/reporter.py:303-322 | the evidence of an objective is exactly that of the questions counting for it, each with its own selected score |
| `Reporter.ReportStaysOnScale` | src/ai_examiner/agents/reporter.py:227-411 | if all answers score between two cent values, so do all selected and objective scores after every rounding |
| `Reporter.OverallStaysOnScale` | src/ai_examiner/agents/reporter.py:435-447 | the overall score stays on that scale exactly when an answered question counts for an objective with weight (or, if none counts for any objective, there is one) or the scale includes zero |
| `Reporter.EveryAnswerInOneTrajectory` | src/ai_examiner/agents/reporter.py:217-230 | the turns counted per question add up to the evaluated turns |
| `Agreement.ReportTellsTheRun` | src/ai_examiner/agents/reporter.py:30-76 | for every reachable session one trajectory per settled question in asked order, from first answer to last, counting answers to follow-up texts and agreeing with the mastery record |
| `Agreement.CompletedRunIsFullyReported` | src/ai_examiner/agents/reporter.py:217-230 | for every completed run one trajectory for each asked question, in asked order |
| `Agreement.FirstAnswersScore` | src/ai_examiner/agents/reporter.py:78-91 | without blending the selected score of every settled question of any reachable session is its first answer's |
| `LearnerAnswer.Semaphore.Acquire` | src/ai_examiner/services/rate_limit.py:83-85 | a slot is given exactly when one is free or another holder gives one back in time |
| `LearnerAnswer.Gate.Acquire` | src/ai_examiner/services/rate_limit.py:76-85 | the semaphore in place is used while the capacity stays the same, and a fresh one of at least one slot replaces it when the capacity changes |
| `LearnerAnswer.SubmitLearnerAnswer` | src/ai_examiner/main.py:3159-3189 | at most three tries, a slot acquired once is released once on every path and an unavailable one never, success commits the accepted submission and failure commits nothing, busy leaves the session as it was |
| `LearnerAnswer.SubmissionAddsTwoTurns` | src/ai_examiner/agents/orchestrator.py:193-311 | an accepted submission adds exactly the answer and the examiner's turn |
| `LearnerAnswer.ExactlyOnce` | src/ai_examiner/main.py:3175-3187 | a submit succeeds exactly through the first try that is not rejected, with one answer turn and one examiner turn, and is busy exactly when all tries were rejected |
| `LearnerAnswer.RetriedExactly` | src/ai_examiner/main.py:3172-3187 | only the four rejections that pass with time are retried, any other failure is final and reported as it is |
| `VoiceFinalization.MatchByTextOrPosition` | src/ai_examiner/agents/orchestrator.py:453-473 | the assistant's text decides the question when it is close enough to one, and otherwise the answer's number does |
| `VoiceFinalization.VoiceExam.FinalizeVoiceTranscripts` | src/ai_examiner/agents/orchestrator.py:363-451 | a run, cut anywhere, commits the turns, evaluations, mastery, evidence and asked ids that the specified run commits, and ends exactly when it is not cut or there are no questions |
| `VoiceFinalization.RunIsResumable` | src/ai_examiner/agents/orchestrator.py:379-450 | a run records the unrecorded answers before its cut in order, extends the log, matches each by its number within the run, and stores asked ids only if it ends |
| `VoiceResumption.RecordedOnce` | src/ai_examiner/agents/orchestrator.py:379-448 | over any series of cut runs on a growing transcript, evidence is in order and each non-blank answer recorded at most once, and exactly when some run had read it at its start and got past it |
| `VoiceResumption.EvaluatedExactly` | src/ai_examiner/agents/orchestrator.py:390-409 | over any such series each answer is evaluated for its question on the questions of the turns recorded before it |
| `VoiceResumption.LateAnswerLost` | src/ai_examiner/main.py:6504-6529 | an instance where an answer heard after the run read the transcript is not recorded, though the run ended |
| `VoiceResumption.MasteryIsLatest` | src/ai_examiner/agents/orchestrator.py:409-415 | over any such series, mastery is on record for just the recorded questions, each with the evaluation of its latest recorded answer |
| `VoiceResumption.SameQuestionExactly` | src/ai_examiner/agents/orchestrator.py:385-388 | an answer recorded by a resumed run gets the uncut run's question exactly when the text decides, nothing was recorded before, or both counts run past the last question |
| `VoiceResumption.ResumedRunMismatches` | src/ai_examiner/agents/orchestrator.py:385-388 | an instance where the resumed run files an answer under another question |
| `VoiceResumption.AskedAfterResumingExactly` | src/ai_examiner/agents/orchestrator.py:426-450 | once the last run ends every recorded question counts as asked exactly when each one recorded before that run was asked before or is matched again by an answer that was left |
| `VoiceResumption.ResumedRunForgets` | src/ai_examiner/agents/orchestrator.py:426-450 | an instance with three answers where the second question is recorded and never counts as asked |
| `VoiceResumption.UncutRunAsksAll` | src/ai_examiner/agents/orchestrator.py:426-450 | in one uncut run every recorded question counts as asked |
| `VoiceCompletion.ClaimsAreSeparated` | src/ai_examiner/main.py:6572-6588 | two successful claims always have between them a connect write that takes effect |
| `VoiceCompletion.CompletionIsExclusive` | src/ai_examiner/main.py:6552-6634 | unless a connect write takes effect after the claim, no other caller ever finalises, and a completed session stays completed |
| `VoiceCompletion.SecondFinaliserExactly` | src/ai_examiner/main.py:6398-6405 | while a lone claimant is at work, another caller's claim makes a second finaliser exactly when a connect write took effect in between, its request having read another status than connected |
| `VoiceCompletion.SharedExactly` | src/ai_examiner/main.py:6552-6634 | in any history two callers finalise at once exactly when two claims with an effective connect write between them are both unfinished |
| `VoiceCompletion.ClaimLives` | src/ai_examiner/main.py:6590-6634 | whether a claimant is still at work is told by its own mark, finish and crash alone |
| `VoiceCompletion.TurnedAwayExactly` | src/ai_examiner/main.py:6562-6588 | a call that finds the session completed, or claims when it is claimed or completed, never finalises |
| `VoiceCompletion.ClaimExactly` | src/ai_examiner/main.py:6572-6588 | any other claim succeeds and takes the session into finalisation |
| `VoiceCompletion.ConnectBreaksExclusion` | src/ai_examiner/main.py:6398-6405 | an instance where a connect request begun before the claim lets two callers finalise side by side |
| `VoiceCompletion.DeadClaimNeverCompletes` | src/ai_examiner/main.py:6572-6634 | if the claiming caller dies, further calls never complete the session |
| `VoiceCompletion.DeadClaimCompletedExactly` | src/ai_examiner/main.py:6398-6405 | a session whose claimant died is completed exactly when a connect write takes effect and then a caller claims, marks and finishes |
| `VoiceCompletion.ConnectRevivesDeadClaim` | src/ai_examiner/main.py:6398-6405 | an instance reaching a dead claim that turns a second caller away and, after a connect request, is completed by a third |
| `VoiceCompletion.ExamStaysCompletedExactly` | src/ai_examiner/main.py:6398-6405 | the voice session stays completed, and its examination exactly until the write of a connect request under way, also of one that leaves the voice status alone |
| `VoiceCompletion.LateReconnectReopensExam` | src/ai_examiner/main.py:6398-6405 | an instance where a reconnect begun before the claim makes the completed examination active again |
| `VoiceProtocol.HistoryIsSeries` | src/ai_examiner/main.py:6591-6634 | however callers interleave, fail and die and the transcript grows, as long as no connect write takes effect while one finalises, what is recorded is what a series of cut runs records, with at most one run more than there were such writes |
| `VoiceProtocol.HeardExactly` | src/ai_examiner/main.py:6504-6529 | the transcript has the turns heard so far, and a run goes by those heard when it began |
| `VoiceProtocol.RecordedInOrder` | src/ai_examiner/main.py:6591-6634 | in every such history answers are recorded in transcript order and each at most once |
| `VoiceProtocol.ResumedRunFollowsConnect` | src/ai_examiner/main.py:6572-6611 | in any history, a caller that starts its run when something is recorded already has an effective connect write between two claims before it |
| `VoiceProtocol.WithoutConnectNothingMismatches` | src/ai_examiner/agents/orchestrator.py:379-450 | without an effective connect write what is recorded is the beginning of what one uncut run over all turns records, questions and evaluations included |
| `VoiceProtocol.NothingAfterCompletion` | src/ai_examiner/main.py:6612-6634 | once a session is completed, also after a failed finalisation, nothing more is recorded until a connect write takes effect |
| `VoiceOverlap.RecordedIsTaken` | src/ai_examiner/agents/orchestrator.py:379-448 | in any history, overlapping or not, a turn is recorded exactly when it is a non-blank answer and some caller has taken it |
| `VoiceOverlap.RecordedTwiceExactly` | src/ai_examiner/agents/orchestrator.py:375-388 | in any history an answer is recorded twice exactly when another caller had begun its run before the answer was first taken and goes on to take it too |
| `VoiceOverlap.RecordedTwiceNeedsOverlap` | src/ai_examiner/main.py:6552-6634 | for that two callers must finalise at once, with an effective connect write between their claims |
| `VoiceOverlap.AnswerRecordedTwice` | src/ai_examiner/agents/orchestrator.py:375-388 | an instance of two callers that record the one answer of a transcript twice |
| `VoiceOverlap.MasteryKeptExactly` | src/ai_examiner/agents/orchestrator.py:409-415 | a committed mastery entry of another question survives a run's turn exactly when the run knows the same one or changes nothing |
| `VoiceOverlap.AskedKeptExactly` | src/ai_examiner/agents/orchestrator.py:448-450 | a run that ends writes the asked ids as it noted them, over what another run stored since, unless it noted nothing new |
| `VoiceLimit.AskedByEnding` | src/ai_examiner/agents/orchestrator.py:426-449 | the run that ends counts as asked, each once, what was asked before and every question its answers are matched with |
| `VoiceLimit.VoiceLimitExactly` | src/ai_examiner/agents/orchestrator.py:426-449 | a voice session's asked questions stay within its limit exactly when the answers its last run records are matched with no more questions than that, and never outnumber the blueprint's |
| `VoiceLimit.VoicePassesLimit` | src/ai_examiner/agents/orchestrator.py:426-449 | an instance limited to one question with two asked |
| `Planner.BlueprintData.ApplyTemplateContract` | src/ai_examiner/agents/planner.py:294-381 | reports the first violation among the questions within the limit, or keeps just those with their objectives mapped and the coverage status set |
| `Planner.Plan` | src/ai_examiner/agents/planner.py:167-213 | one language correction and at most three contract repairs lead to the specified blueprint or error |
| `Planner.PlanMeetsContract` | src/ai_examiner/agents/planner.py:179-211 | a returned blueprint has at most the limit of questions, allowed types, difficulties in bounds, single requests, declared and where declared non-empty objectives, and is met exactly when every minimum is reached |
| `Planner.PlanIsADraft` | src/ai_examiner/agents/planner.py:310-349 | a returned blueprint is the beginning of one of the model's drafts, changed only in its objectives, which keep every declared one |
| `Planner.PlanSucceedsExactly` | src/ai_examiner/agents/planner.py:179-211 | a blueprint is returned under a template exactly when some draft keeps to it, question by question, before an unusable draft comes |
| `Planner.PlanIsFirstKept` | src/ai_examiner/agents/planner.py:179-211 | the blueprint is the beginning of the first draft that keeps to the template |
| `Planner.BrokenNamesBreach` | src/ai_examiner/agents/planner.py:298-345 | when all repairs are used up the error names the first breach of the last draft, as that question commits it |
| `Planner.FirstRefusedExactly` | src/ai_examiner/agents/planner.py:167-213 | a first draft that stays in another language, or has no questions, is refused as that |
| `Planner.RepairRefusedExactly` | src/ai_examiner/agents/planner.py:179-211 | so is a repair, if every draft before it broke the template |
| `Planner.NamedExactly` | src/ai_examiner/agents/planner.py:216-224 | a drafted question keeps what it says and gets a number and difficulty 3 where it says nothing |
| `Planner.ObjectivesExactly` | src/ai_examiner/agents/planner.py:310-349 | a question keeps the declared objectives it names, else gets its type's usual one, else the first declared one |
| `Planner.PlannedPassesFilters` | src/ai_examiner/agents/adaptive.py:113-161 | with bounds on the scale every planned question passes the selector's type and difficulty filters |
| `Scenario.PlannedRunsCover` | src/ai_examiner/agents/planner.py:350-380 | a blueprint planned as met, with room for the minimums and no prerequisite in the way, is covered by every completed adaptive run |
| `Backfill.TenantDatabase.Update` | migrations/versions/20260728_0010_tenant_ownership_backfill.py:77-89 | other tables, owned rows and all but the owner of the rest stay as they were, no row comes or goes, and an ownerless row gets the owner found for it in the database before the statement |
| `Backfill.WrittenIsExecuted` | migrations/versions/20260728_0010_tenant_ownership_backfill.py:77-89 | nothing but the specified statement has that effect |
| `Backfill.TenantDatabase.Upgrade` | migrations/versions/20260728_0010_tenant_ownership_backfill.py:92-255 | the ordered statements run in place and the completeness check never fails |
| `Ownership.InheritanceProgress` | migrations/versions/20260728_0010_tenant_ownership_backfill.py:116-232 | every statement finds the owners it reads already written, so each row gets what it inherits on the original database |
| `Ownership.UpgradeGivesFinalOwner` | migrations/versions/20260728_0010_tenant_ownership_backfill.py:116-256 | every row ends with its own owner, else the inherited one, else for required tables the legacy one |
| `TenantKeys.IdentityOwnerExactly` | migrations/versions/20260728_0010_tenant_ownership_backfill.py:184-196 | an ownerless identity ends with the owner of an existing subject it is tied to, whichever link is found first, and with the legacy owner if there is none |
| `Ownership.UpgradeKeepsShape` | migrations/versions/20260728_0010_tenant_ownership_backfill.py:92-255 | nothing but owners changes |
| `TenantKeys.OwnersKeptAndComplete` | migrations/versions/20260728_0010_tenant_ownership_backfill.py:234-255 | no existing owner is overwritten and every required row ends with one |
| `TenantKeys.UpgradeIsIdempotent` | migrations/versions/20260728_0010_tenant_ownership_backfill.py:92-255 | running the upgrade again changes nothing, also if the database finds other linked rows first the second time |
| `TenantKeys.LinkHoldsExactly` | migrations/versions/20260728_0011_tenant_constraints_and_rls.py:69-205 | a composite key holds after the upgrade exactly when both ends of its references are bound for one owner |
| `TenantKeys.BackfillEstablishesKeys` | migrations/versions/20260728_0011_tenant_constraints_and_rls.py:69-205 | on a database not yet owned all composite keys hold exactly when the references that owners are not inherited along join rows bound for one owner |
| `TenantKeys.KeysHoldForConsistentData` | migrations/versions/20260728_0011_tenant_constraints_and_rls.py:69-205 | if several parents lead to one project and an identity's subjects share one organization, every composite key holds, whichever linked subject the database finds first |

## Left out

- LearnerAnswer.SubmitLearnerAnswer: after a refusal that is not retried only the committed session is stated; the request's in-memory copy is discarded with the request.
- VoiceFinalization.VoiceExam.FinalizeVoiceTranscripts: a turn's evidence events and its decision record are one log entry; the learner state they feed is not modelled.
- VoiceProtocol.HistoryIsSeries: of runs that go on side by side it is stated which answers are recorded, which twice, and which mastery entries and asked ids survive a commit (VoiceOverlap), but not what both come to over a whole history.
- Reporter.Generate: dimension scores, strengths, weaknesses, knowledge map, section order and hiding the total are not modelled; they are further lists over the same groups and do not enter the computed overall score.
- Backfill.TenantDatabase.Upgrade: a missing parent table counts as an empty one instead of a database error.
- Coverage.CompletedRunsCover: states nothing about the reason codes a selection records.
- Two text answers sent to one session at the same time: the code does not serialise them.
- The knowledge snapshot that the cognitive service keeps under its own key in the mastery record, and the service itself: the learner state is an arbitrary input at every selection.
- The score of an answer: `evaluate_with_policy` is an arbitrary input to the session.
- Keys of a model reply outside the requested schema, label aliases, language and stacked-request heuristics: text measures taken as inputs.
- Usage events, budgets, reservations, the retest record written after a completed session, clocks and wording of the examiner's sentences.
- Contracts.Compile: the other checks of a template and of its overrides are summed up in one input each.
- Row-level security, triggers and the other migrations.
