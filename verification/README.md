# Specsmith: a verified model of its core

Specsmith keeps a project's requirements, beliefs, decisions and agent runs in order. This project
models the parts of it that hold state, branch a lot or compute, and proves what they keep over
every input, every graph, every layout of files and every behaviour of a language model.

| part | files | what it is |
|---|---|---|
| belief certainty | `weakest_link`, `certainty` and their laws | base scores and in-place weakest-link propagation over an arbitrary, possibly cyclic graph, with a cap of 20 passes |
| epistemic pipeline | `belief`, `stress_tester`, `failure_graph`, `recovery`, `session`, `stress_challenges`, `knot_laws` and the laws | challenges, logic knots, the failure graph, recovery proposals, and the session that runs them all |
| requirement store | `grouped_files`, `grouped_files_ties`, `grouped_files_order`, `governance_yaml` and the laws | last-write-wins load, regrouping save, identifier generation |
| ledger archival | `compressor`, `ledger_laws`, `ledger_conservation`, `ledger_texts` | splitting a ledger at its headers and moving old entries to the archive |
| trace vault | `trace_vault`, `trace_laws` | a hash-chained, append-only log |
| context residency | `context_control`, `context_laws`, `claim_keys` | ranking, de-duplicating and fitting records into a token budget |
| layered configuration | `config_resolver`, `config_laws`, `config_provenance`, `config_admission` | a recursive merge that records where every value came from |
| benchmark | `agent_loop`, `agent_texts`, `message_translation`, `metrics`, `wilson` and the laws | the agent loop against an arbitrary model, two message translations, and the statistics of the results |
| record sweep | `esdb_sweep`, `sweep_laws`, `sweep_effects`, `sweep_counts`, `sweep_retention` | retention, orphan detection and dry runs over the record store |
| interview | `interview`, `interview_laws` | the lowest-confidence-first question loop |

`pydict`, `stable_sort`, `text` and `options` hold what Python supplies: dictionaries that remember
insertion order, stable sorting, the string operations the code uses, and `None`.

Classes whose methods update fields are classes here, loops are loops, and each such method is
proved equal to a specification function; the laws are proved about those functions. Scores and
rates are exact reals, confidences of the interview are hundredths, integers are unbounded as in
Python.

Where the code and its own documentation differ, the model follows the code:

- The weakest-link rule is documented without a limit; the code stops after 20 passes.
  `CertaintyLaws.CapDeliversIff` says for which graphs and listing orders that is enough.
- `score_answer` documents half a point for any answer with metrics; the code also asks for more
  than 60 characters.
- The boundary a session fills in, "Assumed correct environment", is not the one the stress tester
  treats as missing, "Assumed correct project environment", so it counts as a stated boundary.
- The sweep queries all branches of the record store but deletes on the main branch only, so it
  reaches a fixpoint exactly when the other branches hold nothing to flag. A record of another
  branch is reported and stays, and a record on main with its id is deleted in its place, expired
  or not (`SweepEffects.NamesakeIsDeleted`).
- A dry run is documented to compute what would be swept; it flags every phase against the records
  as they are, a real run against what its earlier phases left. `SweepEffects.DryRunReportsTheSameIff`
  says when both report the same.
- The number 9999 marks identifiers without digits, so identifier generation can hand out a taken
  identifier when 9998 is in use.
- A logic knot from a contradiction is treated as a duplicate identifier when the component's name
  contains "duplicate".
- `entries[:-0]` is empty, so an archival run with a window of 0 archives nothing, though it
  rewrites both files.

## Model

| member | source | states |
|---|---|---|
| WeakestLink.PassesAreExact | src/epistemic/certainty.py:173-196 | after k in-place passes every score is the least base score over exactly the dependencies that a path of cost at most k leads to, cost counting the links that run against the listing order |
| WeakestLinkLaws.ConvergedIsWeakest | src/epistemic/certainty.py:179-196 | when a pass changes nothing, every score is the least base score over everything reachable, for any graph with cycles and any listing order |
| WeakestLinkLaws.ConvergedIgnoresListingOrder | src/epistemic/certainty.py:179-196 | converged scores are the same in any listing order |
| WeakestLinkLaws.PassesSufficeIff | src/epistemic/certainty.py:179-182 | k passes are enough for every scoring if and only if every dependency has a path of cost at most k |
| WeakestLinkLaws.FewArtifactsSuffice | src/epistemic/certainty.py:179-182 | k passes are exact for any k + 1 artifacts |
| WeakestLinkLaws.DependenciesFirstNeedsOnePass | src/epistemic/certainty.py:179-196 | listing dependencies first makes one pass exact for any number of artifacts |
| WeakestLinkLaws.CapIsTight | src/epistemic/certainty.py:179-182 | on a chain in listing order 20 passes are exact if and only if it has at most 21 artifacts |
| WeakestLinkLaws.RaisingBasesNeverLowers | src/epistemic/certainty.py:173-196 | propagation is monotone in the base scores after any number of passes |
| WeakestLinkLaws.AddingLinksNeverRaises | src/epistemic/certainty.py:173-196 | more links never give a higher score after any number of passes |
| WeakestLinkLaws.PassesOnlyLower | src/epistemic/certainty.py:183-196 | further passes never raise a score |
| Certainty.CertaintyEngine.ComputeBase | src/epistemic/certainty.py:137-171 | the base record holds confidence times coverage times freshness, and a flag that agrees with the threshold |
| Certainty.CertaintyEngine.ComputeFreshness | src/epistemic/certainty.py:150-159 | the loop multiplies one factor for every unresolved failure, by severity |
| Certainty.CertaintyEngine.FollowLinks | src/epistemic/certainty.py:185-196 | one visit lowers the artifact's record in place to the least of its own and its links' current scores, keeps every flag in step with its score and reports whether anything changed |
| Certainty.CertaintyEngine.Propagate | src/epistemic/certainty.py:173-196 | the in-place loop with early exit gives exactly 20 passes' worth of propagation, and every flag still agrees with its score |
| Certainty.CertaintyEngine.Run | src/epistemic/certainty.py:107-135 | a report lists every identifier once with its final score and a matching flag, exactly those below the threshold, and the mean |
| CertaintyLaws.UpTo21IsWeakest | src/epistemic/certainty.py:107-196 | with at most 21 identifiers every reported score is the weakest link, for any links, order, confidences, coverage and failures |
| CertaintyLaws.CapDeliversIff | src/epistemic/certainty.py:107-196 | for given links and order, reports obey the weakest-link rule for all claims if and only if every dependency costs at most 20 passes |
| CertaintyLaws.FewerFailuresAreFresher | src/epistemic/certainty.py:150-159 | dropping, resolving or easing failures never lowers the freshness factor |
| CertaintyLaws.MoreSevereIsStaler | src/epistemic/certainty.py:150-159 | a more severe open failure in place of another strictly lowers the freshness, among any other failures |
| CertaintyLaws.BaseScoreCounts | src/epistemic/certainty.py:137-171 | a base score is zero exactly without propositions or with unknown confidence, and more confidence or coverage strictly raises it |
| CertaintyLaws.FresherScoresMore | src/epistemic/certainty.py:137-171 | of two claims that differ in their failures the fresher one has the higher base score, and no other, unless there are no propositions or no known confidence |
| CertaintyLaws.SumConcat | src/epistemic/certainty.py:107-135 | the sum behind the reported mean is taken over every listed identifier, as often as it is listed |
| CertaintyLaws.ImprovingRaisesComposite | src/epistemic/certainty.py:137-171 | better confidence, coverage, propositions or failures never lower a base score |
| CertaintyLaws.ImprovingNeverLowers | src/epistemic/certainty.py:107-196 | improving any artifacts never lowers any reported score |
| CertaintyLaws.LinkingNeverRaises | src/epistemic/certainty.py:107-196 | adding links to any artifacts never raises any reported score |
| Belief.BeliefArtifact.AddEvidence | src/epistemic/belief.py:196-204 | evidence is appended and lifts an unknown confidence to low, never lowers one |
| StressTester.Run | src/epistemic/stress_tester.py:118-139 | the loop adds to every artifact what the challenges raise on it, and the result lists all of them in order with the knots and the verdict |
| StressTester.ChallengeVagueness | src/epistemic/stress_tester.py:141-164 | up to two failures for every proposition, in order |
| StressTester.ChallengeCircularLinks | src/epistemic/stress_tester.py:267-284 | one failure for every link to neither a known artifact nor itself |
| StressTester.DetectLogicKnots | src/epistemic/stress_tester.py:286-319 | the loops over accepted artifacts and component groups give the knots of the specification |
| StressTester.TestedHasSameKnots | src/epistemic/stress_tester.py:135-138 | knots do not depend on the failures just raised |
| StressLaws.RaisedCriticals | src/epistemic/stress_tester.py:121-134 | an artifact gets one critical failure for having no propositions, one for being a P1 below medium confidence, and no others |
| StressChallenges.RaisedCount | src/epistemic/stress_tester.py:118-284 | whatever failures are counted, those raised on an artifact are what each of the nine challenges raises as often as the artifact fails it, each read off the claim |
| StressChallenges.RaisedBySeverity | src/epistemic/stress_tester.py:118-284 | so the open failures of each severity are a number read off the claim: one severe one exactly if it is accepted and not covered |
| StressChallenges.RaisedByWording | src/epistemic/stress_tester.py:118-284 | with a wording of its own for every challenge, a failure is worded like a challenge as often as the artifact fails it |
| StressChallenges.WordingsDiffer | src/epistemic/stress_tester.py:141-284 | the tester's wordings are such |
| StressChallenges.CoverageRaisesFewer | src/epistemic/stress_tester.py:166-187 | with more coverage the challenges raise no failure that they do not raise with less |
| StressChallenges.CoverageNeverLowers | src/epistemic/session.py:239-316 | covering more artifacts before a run never lowers a score the run reports |
| StressLaws.KnotsIff | src/epistemic/stress_tester.py:286-346 | there are knots if and only if two accepted artifacts share an id or contradict each other within one named component |
| StressLaws.ConflictIff | src/epistemic/stress_tester.py:322-346 | two artifacts conflict if and only if one says must, the other must not, and they share at least two subjects |
| KnotLaws.KnotIff | src/epistemic/stress_tester.py:286-346 | a knot is reported if and only if an artifact and a later one, both accepted, make it: by one id, or by a conflict within one named component |
| StressLaws.ConflictIsSymmetric | src/epistemic/stress_tester.py:322-346 | a negation conflict does not depend on the order of its sides |
| StressLaws.EquilibriumIff | src/epistemic/stress_tester.py:118-139 | equilibrium, read off the artifacts: all have propositions, no P1 is below medium confidence, no two accepted ones clash |
| FailureGraph.FailureModeGraph.Build | src/epistemic/failure_graph.py:46-67 | one node per id with the counts of its last artifact, an edge for every link to a node, children exactly the sources of the edges into a node, partners from the last knot |
| FailureGraph.FailureModeGraph.EquilibriumCheck | src/epistemic/failure_graph.py:69-72 | true if and only if there are no knots and no node has critical failures |
| SessionLaws.EdgeIff | src/epistemic/failure_graph.py:46-67 | an edge for every link of an artifact to a known one, and no other |
| SessionLaws.SourceIff | src/epistemic/failure_graph.py:46-67 | a node's children are the artifacts that link to it |
| SessionLaws.NodeCounts | src/epistemic/failure_graph.py:46-67 | a node counts the failures of the last artifact of its id and the open critical ones among them |
| SessionLaws.PartnerIsLast | src/epistemic/failure_graph.py:46-67 | a node's partner is the other side of the last knot that names it |
| Recovery.Propose | src/epistemic/recovery.py:53-71 | the loops gather the proposals for every unresolved failure and every knot and sort them stably by priority |
| RecoveryLaws.WordingIsKnown | src/epistemic/recovery.py:73-157 | every wording the tester uses contains a word the operator looks for, letter case aside |
| RecoveryLaws.KnownIsHandled | src/epistemic/recovery.py:73-157 | such a failure gets at least one proposal, an urgent one if it is critical, and otherwise none urgent unless the artifact has no propositions |
| RecoveryLaws.DuplicateIsDeprecated | src/epistemic/recovery.py:159-178 | a duplicate id is to be resolved by deprecation |
| RecoveryLaws.ConflictStrategyIff | src/epistemic/recovery.py:159-193 | a contradiction is treated as a duplicate id if and only if the component's name contains "duplicate" |
| RecoveryLaws.PriorityFollowsSeverity | src/epistemic/recovery.py:216-222 | priorities order failures by severity |
| RecoveryLaws.ProposalShape | src/epistemic/recovery.py:73-157 | which strategy, cost and priority a proposal for a failure has, by the word found in the failure |
| RecoveryLaws.WordingStrategy | src/epistemic/recovery.py:73-157 | what each of the nine challenges is met with, as the tester words it: to quantify, falsify, constrain or decompose, and a second, urgent proposal for missing propositions |
| RecoveryLaws.IgnoredIff | src/epistemic/recovery.py:73-157 | a failure gets no proposal if and only if its wording in lower case contains none of eight words |
| RecoveryLaws.KnotProposal | src/epistemic/recovery.py:159-193 | a knot gets one urgent proposal about its first artifact that quotes its reason |
| SessionLaws.ProposedIff | src/epistemic/recovery.py:53-71 | the proposals are exactly those for the open failures of the artifacts and for the knots |
| SessionLaws.UrgentFirst | src/epistemic/recovery.py:70 | proposals come in the order of their priorities |
| Session.AEESession.AddBelief | src/epistemic/session.py:184-219 | a new belief takes the last place of its id or the end, with a boundary filled in where none is given, and no object is listed twice |
| Session.AEESession.MarkCovered | src/epistemic/session.py:239-241 | one more id counts as covered by a test |
| Session.AEESession.Run | src/epistemic/session.py:272-316 | a run clears and challenges exactly the chosen artifacts in place, leaves the others alone, and its result holds the stress findings, graph, certainty report and proposals of the same claims |
| Session.AEESession.StressTest | src/epistemic/session.py:318-324 | the challenges alone, over all artifacts with cleared failures |
| Session.AEESession.Score | src/epistemic/session.py:326-329 | the certainty report of the artifacts as they are |
| SessionLaws.GraphIsCalmIff | src/epistemic/failure_graph.py:50-72 | the graph has no critical node if and only if no artifact that is the last of its id stops |
| SessionLaws.VerdictsAgreeIff | src/epistemic/session.py:290-302 | stress result and graph give the same verdict if and only if there are knots, or no artifact stops, or one that is the last of its id does |
| SessionLaws.VerdictsDiffer | src/epistemic/session.py:290-302 | two drafts of one id, the first without propositions: no equilibrium for the tester, a calm graph |
| SessionLaws.UniqueIdsAgree | src/epistemic/session.py:290-302 | with unique ids the two verdicts always agree |
| SessionLaws.NoProposalsIff | src/epistemic/recovery.py:53-71 | no proposals are made if and only if the tester found no failure and no knot, so none means equilibrium |
| SessionLaws.EquilibriumIffNotUrgent | src/epistemic/recovery.py:53-71 | proposals come most urgent first, and there is equilibrium if and only if none has priority 1 |
| SessionLaws.RunAgain | src/epistemic/session.py:286-316 | running again works on the same claims, so it finds the same failures, knots, scores and proposals and leaves the same artifacts |
| SessionLaws.ClearedAre | src/epistemic/session.py:286-296 | a run works on exactly the chosen artifacts, in order and without their failures |
| SessionLaws.FilledInBoundaryCounts | src/epistemic/session.py:213-214 | an artifact with the filled-in boundary gets no missing-boundary failure |
| GovernanceYaml.YamlStore.Load | src/specsmith/governance_yaml.py:152-165 | the loop over sorted files gives the last write of every id, sorted stably by number |
| GovernanceYaml.YamlStore.Save | src/specsmith/governance_yaml.py:206-217 | every group with members is written in full and sorted, every other file is left as it was |
| GovernanceYaml.YamlStore.NextFreeId | src/specsmith/governance_yaml.py:369-386 | the id of one more than the largest recognised number |
| GovernanceYaml.YamlStore.Add | src/specsmith/governance_yaml.py:389-441 | refused outside YAML mode; otherwise the loaded records and the new one are saved under the given or generated id |
| GovernanceLaws.LoadMeaning | src/specsmith/governance_yaml.py:152-181 | a load is sorted, names every id once and holds exactly the last write of each |
| GovernanceLaws.LoadedByNumber | src/specsmith/governance_yaml.py:152-165 | a load lists its records by their numbers, the least first |
| GroupedFilesLaws.LoadedIsUnique | src/specsmith/governance_yaml.py:152-165 | no id occurs twice in a load and none is empty |
| GroupedFilesLaws.SavedIds | src/specsmith/governance_yaml.py:206-217 | saving records that cover the files leaves exactly their ids |
| GovernanceLaws.SavingConservesIds | src/specsmith/governance_yaml.py:152-217 | saving what was loaded conserves the set of ids for any layout |
| GroupedFilesLaws.RoundTrip | src/specsmith/governance_yaml.py:152-217 | in the canonical layout load, save, load gives the same sequence, ties included, for any grouping and any ranking order |
| GovernanceLaws.RequirementsRoundTrip | src/specsmith/governance_yaml.py:91-165 | requirements in the files their groups name survive load, save, load unchanged |
| GovernanceLaws.TestsReloadIff | src/specsmith/governance_yaml.py:168-246 | test cases in their files survive load, save, load unchanged, order included, if and only if no two of one number cross |
| GovernanceLaws.TestsRoundTrip | src/specsmith/governance_yaml.py:168-246 | in particular when no id is in two files or no two of them have one number |
| GovernanceLaws.TestsKeepValues | src/specsmith/governance_yaml.py:168-246 | test cases in their files keep exactly their loaded values, also when a test id is in the files of several groups |
| GovernanceLaws.TestsChangePlaces | src/specsmith/governance_yaml.py:168-246 | a family of test cases of one number, one id in two files, that load as x, z, y and once saved as z, y, x |
| GroupedFilesTies.CanonicalKeepsValues | src/specsmith/governance_yaml.py:152-217 | in the canonical layout load, save, load gives the same values for any grouping, also when one id is in several files |
| GroupedFilesOrder.ReloadsIff | src/specsmith/governance_yaml.py:152-217 | for any layout, grouping and ranking order, load, save, load gives the same sequence if and only if no value is shadowed and no two tied records cross: the first file with the later record, among its own and those the save leaves alone, comes before that of the earlier one, or both are one file that the save leaves alone and that does not list the earlier one first |
| GroupedFilesOrder.CanonicalReloadsIff | src/specsmith/governance_yaml.py:152-217 | in the canonical layout, if and only if no two tied records cross |
| GroupedFilesOrder.UntiedRoundTrip | src/specsmith/governance_yaml.py:152-217 | in the canonical layout the sequence is the same when no two loaded records tie |
| GovernanceLaws.ReloadIff | src/specsmith/governance_yaml.py:152-246 | the same for requirements and for test cases ranked by number, for any layout |
| GovernanceLaws.ValueSurvivesIff | src/specsmith/governance_yaml.py:152-217 | for any layout a loaded value survives a save if and only if no file that receives no record shadows it with another value |
| GovernanceLaws.MisplacedValueIsLost | src/specsmith/governance_yaml.py:91-217 | a concrete family of misplaced requirements whose loaded value a save loses |
| GovernanceLaws.NextIdIsFreshIff | src/specsmith/governance_yaml.py:369-386 | the generated id is taken if and only if a record is numbered 9998 and the id of 9999 is there |
| GovernanceLaws.GeneratedIdIsTaken | src/specsmith/governance_yaml.py:369-386 | beside the ids of 9998 and 9999 the generated id is that of 9999 |
| GovernanceLaws.NextIdIsFresh | src/specsmith/governance_yaml.py:57-64 | numbers up to 9997 make the generated id new |
| GovernanceLaws.AddedIds | src/specsmith/governance_yaml.py:389-441 | adding a record leaves the old ids and its own, no others, for any layout |
| GovernanceLaws.AddingAddsOne | src/specsmith/governance_yaml.py:369-412 | an addition under a generated id leaves the old ids and that one, and that one was not there before if and only if the numbers have not run out |
| GovernanceLaws.AddedSurvivesIff | src/specsmith/governance_yaml.py:389-441 | for any layout, after an addition under a new id a loaded record or the new one is loaded as it was if and only if no file that receives no record shadows it with another value |
| GovernanceLaws.AddingKeepsOthers | src/specsmith/governance_yaml.py:389-412 | in the canonical layout every other requirement stays as it was |
| GovernanceLaws.GeneratedGroup | src/specsmith/governance_yaml.py:73-108 | a generated requirement id lands in the group of its number |
| GovernanceLaws.NumberIs | src/specsmith/governance_yaml.py:57-70 | the number of an id is written in the digits it ends in, before a final line feed too, and is 9999 if there are none |
| GovernanceLaws.NamespacedHome | src/specsmith/governance_yaml.py:73-108 | "REQ-", a namespace of any number of parts and a number belong to the file of the namespace in lower case |
| GovernanceLaws.TestsFollowRequirements | src/specsmith/governance_yaml.py:168-246 | a test case is kept with the requirement it names, and in the overflow file if it names none |
| Compressor.SplitLedger | src/specsmith/compressor.py:27-41 | the loop over the header pattern's matches gives the preamble and the blocks that header lines open |
| Compressor.FindIsSplit | src/specsmith/compressor.py:27-41 | gluing the pattern's headers and the texts between them back together is splitting line by line |
| Compressor.SummarizeEntries | src/specsmith/compressor.py:44-65 | the loops build the summary entry |
| Compressor.LedgerFiles.RunCompress | src/specsmith/compressor.py:68-158 | when a run writes, what both files hold afterwards, and how many entries moved and stayed |
| LedgerLaws.SplitLosesNothing | src/specsmith/compressor.py:27-41 | preamble and entries together are the text, character by character |
| LedgerLaws.SplitConcat | src/specsmith/compressor.py:27-41 | a text that ends with a line can be split on its own |
| LedgerLaws.JoinSplits | src/specsmith/compressor.py:132-158 | joined entries split into the same entries again |
| LedgerLaws.SummaryIsEntry | src/specsmith/compressor.py:44-65 | the summary is exactly one entry |
| LedgerTexts.SummaryLines | src/specsmith/compressor.py:44-65 | a summary consists of its head, one line for every entry with the first line and the status, and an empty line |
| LedgerTexts.HeadSays | src/specsmith/compressor.py:44-65 | the head names the number of entries and the date |
| LedgerTexts.PreambleStays | src/specsmith/compressor.py:120-158 | a run that archives keeps the preamble, character by character |
| LedgerTexts.ArchiveStays | src/specsmith/compressor.py:132-145 | the old archive stays where it is up to trailing white space, and a first one has a title |
| LedgerLaws.ArchivesIff | src/specsmith/compressor.py:97-127 | a run archives when the entries exceed twice a window of at least one, or the lines the threshold and the entries the window, and not otherwise |
| LedgerLaws.LinesAreCounted | src/specsmith/compressor.py:97-98 | lines are counted by their breaks, and a last one without break counts too |
| LedgerLaws.BreaksCountAlike | src/specsmith/compressor.py:99 | each of the line ends that `splitlines` knows counts as a line feed does, unless a carriage return meets a line feed there |
| LedgerLaws.BareHeaderIsLost | src/specsmith/compressor.py:132-145 | trimming an archive that ends in an entry showing only "##" loses that entry |
| LedgerConservation.RunConservesIff | src/specsmith/compressor.py:132-158 | the new archive's entries followed by the new ledger's without the summary are the old ones in order, up to trailing white space, if and only if the archive does not end in an entry showing only "##" |
| LedgerConservation.BlankHeaderIsLost | src/specsmith/compressor.py:132-158 | beside the archive "##" and two blanks no run that archives conserves, whatever the ledger |
| LedgerConservation.RunKeepsNewest | src/specsmith/compressor.py:120-158 | with a window of at least one, exactly the newest entries stay |
| LedgerConservation.RunsConserveIff | src/specsmith/compressor.py:68-158 | over any number of runs the history keeps every entry in order and gains exactly the summaries of the runs if and only if no run compresses beside an archive that ends in an entry showing only "##" |
| LedgerConservation.RunsConserve | src/specsmith/compressor.py:68-158 | in particular from files whose entries all show visible text, with at most one summary per run |
| TraceVaults.TraceVault.Load | src/epistemic/trace.py:185-197 | the readable lines of the log in order |
| TraceVaults.TraceVault.Seal | src/epistemic/trace.py:93-124 | a seal appends one record that hashes its content and the last entry hash |
| TraceVaults.TraceVault.Verify | src/epistemic/trace.py:126-157 | the loop reports exactly the faults of the chain and is clean if and only if there are none |
| TraceLaws.SealKeepsFaults | src/epistemic/trace.py:93-157 | a seal neither adds a fault nor hides one |
| TraceLaws.RunKeepsFaults | src/epistemic/trace.py:93-157 | any run of seals keeps the findings, and from an empty vault it stays clean |
| TraceLaws.RunNumbers | src/epistemic/trace.py:93-124 | seals from an empty vault are numbered from 1 |
| TraceLaws.RunHoldsEvents | src/epistemic/trace.py:93-124 | after a run of seals the vault holds the sealed events in order, each with all its fields |
| TraceLaws.VerifiedIff | src/epistemic/trace.py:126-157 | a vault verifies if and only if every record holds the digest of its fields, the digest of that and of the hash before it, and that hash is that of the record before |
| TraceLaws.SealIdsDiffer | src/epistemic/trace.py:93-124 | different numbers give different seal ids |
| TraceLaws.SameEndSameContents | src/epistemic/trace.py:126-157 | two verifying vaults with the same last entry hash hold the same hashed contents at every position, or among the very texts the two vaults hash there are two with one digest or one whose digest is the genesis value |
| TraceLaws.InjectiveIsTamperEvident | src/epistemic/trace.py:126-157 | with an injective digest that never gives the genesis value, two verifying vaults have the same last entry hash if and only if they hold the same hashed contents |
| TraceLaws.SameContentsSameEnd | src/epistemic/trace.py:126-157 | the hashed contents alone decide the last entry hash, for any digest |
| TraceLaws.InjectiveDigestsExist | src/epistemic/trace.py:126-157 | some digest meets that hypothesis |
| TraceLaws.PrefixVerifies | src/epistemic/trace.py:126-157 | a shortened log still verifies |
| TraceLaws.AuthorsAreNotSealed | src/epistemic/trace.py:93-157 | rewriting authors and artifact ids is not seen |
| TraceLaws.ContentDeterminesFields | src/epistemic/trace.py:93-124 | equal contents mean equal fields when ids and types hold no colon and neither time stamp ends in a colon and the other one |
| TraceLaws.StampsStandAlone | src/epistemic/trace.py:105-108 | no ISO time stamp, with or without microseconds, ends in a colon and another one |
| TraceLaws.ContentIsSharedIff | src/epistemic/trace.py:93-124 | other fields with the hashed content of a record exist if and only if one of its own fields holds a colon, as a time stamp does |
| TraceLaws.ColonsShift | src/epistemic/trace.py:93-124 | a type with a colon can trade text with the description unseen |
| ContextControl.SelectGreedily | src/specsmith/context_control.py:247-266 | the loop over ranked records gives the selection and the reasons of the specification |
| ContextControl.ResidencyIndex.Offload | src/specsmith/context_control.py:241-245 | exactly the named records are marked offloaded, in place |
| ContextControl.ResidencyIndex.Retrieve | src/specsmith/context_control.py:247-266 | ranked, de-duplicated and fitted selection with a reason for every omitted record |
| ContextControl.CheckHealth | src/specsmith/context_control.py:294-357 | exactly which records are stale, lack provenance or are quarantined, whether there are duplicates and contradictions, and when the verdict is unsafe or healthy |
| ContextControl.CleanupContext | src/specsmith/context_control.py:360-420 | refused without a checkpoint; otherwise exactly the stale and quarantined records are excluded, and the packet is a retrieval over the others |
| ContextLaws.WithinBudget | src/specsmith/context_control.py:247-266 | a selection stays within a budget that is not negative |
| ContextLaws.ClaimsAreDistinct | src/specsmith/context_control.py:247-266 | no two selected records make the same normalised claim |
| ClaimKeyLaws.ClaimKeyIff | src/specsmith/context_control.py:247-266 | two claims have one key if and only if they consist of the same words, letter case aside |
| ClaimKeyLaws.SpaceSeparates | src/specsmith/context_control.py:247-266 | white space separates words: splitting around it splits each side |
| ClaimKeyLaws.OneSplitting | src/specsmith/context_control.py:247-266 | a splitting that does so, keeps words whole and gives nothing for nothing is this one |
| ClaimKeyLaws.LeftOutIff | src/specsmith/context_control.py:235-266 | when all records fit the budget together, a record is left out if and only if one that outranks it has the same words, letter case aside |
| ClaimKeyLaws.BetterOutranks | src/specsmith/context_control.py:221-231 | a record as good in every respect and better in one outranks the other |
| ContextLaws.SelectionIsMaximal | src/specsmith/context_control.py:247-266 | at any place of the ranking, a record judged over the budget would not fit at the end either, and one judged a duplicate repeats a selected claim |
| ContextLaws.ReasonsAreTrue | src/specsmith/context_control.py:247-266 | every indexed record gets a reason, and the returned reason is true of the returned selection: one over the budget would not fit at the end, a duplicate repeats a selected claim, a selected one is there |
| ContextLaws.GreedyIsFirst | src/specsmith/context_control.py:247-266 | the selection is the lexicographically first among all allowed ones |
| ContextLaws.GreedyIsAllowed | src/specsmith/context_control.py:247-266 | the selection is itself allowed |
| ContextLaws.RetrievalIgnoresOrder | src/specsmith/context_control.py:235-266 | records with different ids give the same retrieval in any order |
| ContextLaws.RetrievalKeepsPinned | src/specsmith/context_control.py:223-266 | every pinned claim is selected when all pinned records fit, for scores in the unit range and costs below 890000 |
| ContextLaws.OffloadKeepsRetrieval | src/specsmith/context_control.py:241-266 | offloading never changes a retrieval |
| ContextLaws.PacketIsClean | src/specsmith/context_control.py:368-395 | a packet holds only given records that are not excluded |
| ConfigResolver.Resolver.Merge | src/specsmith/config_resolver.py:108-121 | one source merged over the current values, with every assigned path recorded under its name |
| ConfigResolver.Resolver.Resolve | src/specsmith/config_resolver.py:139-167 | the sources are merged in order of precedence, or the error is the first rejection |
| ConfigAdmission.SucceedsIff | src/specsmith/config_resolver.py:74-167 | a resolution succeeds if and only if every file has only known keys, the right schema version if any, and no path that ends in a secret key with a string other than a reference, and the overrides have no such path |
| ConfigAdmission.ErrorIsFirst | src/specsmith/config_resolver.py:74-167 | an error names the first offending source and its first offence |
| ConfigAdmission.SuccessIsSecretless | src/specsmith/config_resolver.py:94-167 | a successful resolution holds no plain secret at any depth of mappings, if neither the environment nor the values it starts from do |
| ConfigAdmission.PlainSecretIsRejected | src/specsmith/config_resolver.py:86-105 | a file with a plain secret and otherwise in order is rejected for it |
| ConfigResolver.MergeInto | src/specsmith/config_resolver.py:108-121 | the loop over the incoming keys gives the recursive merge and records exactly the assigned paths |
| ConfigLaws.MergedLeafIff | src/specsmith/config_resolver.py:108-121 | a leaf of a merge is the incoming one, or the old one where the incoming source neither defines nor blocks the path |
| ConfigLaws.ResolvedLeafIff | src/specsmith/config_resolver.py:139-167 | a leaf of the resolved configuration is exactly a leaf of a source that no later source defines or blocks, for any sources without shared sub-mappings |
| ConfigLaws.DefaultsAreASource | src/specsmith/config_resolver.py:154-155 | the default schema version acts as the source of lowest precedence |
| ConfigLaws.MergedNameIff | src/specsmith/config_resolver.py:108-121 | after a merge the longest recorded prefix of an incoming leaf names the source if and only if nothing was recorded beneath the place its value was put in |
| ConfigLaws.ProvenanceIsRight | src/specsmith/config_resolver.py:108-167 | for sources that never replace a mapping every leaf holds the value of the highest-precedence source defining it, and its longest recorded prefix names that source |
| ConfigProvenance.NameIsRightIff | src/specsmith/config_resolver.py:108-167 | for any sources, the leaf a source provides is attributed to it if and only if no earlier source put a value in along its path beneath a mapping that later sources had removed by then |
| ConfigProvenance.ResolvedNameIff | src/specsmith/config_resolver.py:108-167 | the same read off the state before the merge: nothing recorded beneath the place the value was put in |
| ConfigProvenance.ResolvedMappingIff | src/specsmith/config_resolver.py:108-167 | a path holds a mapping in the resolved configuration if and only if some source has one there and no later source replaces it or cuts it off |
| ConfigProvenance.RecordedIff | src/specsmith/config_resolver.py:108-167 | a path is recorded if and only if some source puts a value in there |
| ConfigLaws.ReplacedMappingMisleads | src/specsmith/config_resolver.py:108-121 | four sources, one replacing a mapping by a scalar, whose leaf is attributed to the wrong source |
| ConfigLaws.NoPlainSecretIff | src/specsmith/config_resolver.py:94-105 | a source passes if and only if no path ends in a secret key holding a string that is no reference |
| ConfigLaws.RedactedAt | src/specsmith/config_resolver.py:50-60 | every secret key is replaced at any depth, everything whose path has no secret key is as it was |
| ConfigAdmission.RedactedAnywhere | src/specsmith/config_resolver.py:50-60 | lists included, a string or scalar without a secret key on its way stays, and at the first secret key the placeholder stands |
| AgentLoop.Agent.Run | scripts/govern_bench/harness.py:1346-1492 | the loop over turns leaves the history, counters, usage records and stop reason of the specification, for any model and any tools |
| AgentLoop.Agent.AnswerCalls | scripts/govern_bench/harness.py:1407-1488 | the assistant message, compacted in place, is followed by one tool message for each of its calls |
| AgentLoop.Agent.RunTools | scripts/govern_bench/harness.py:1424-1473 | the loop over the calls gives their answers in order, counts checks, questions and files, and notices `done` |
| AgentLoop.CompactCalls | scripts/govern_bench/harness.py:447-459 | file bodies are taken out of written files' arguments, all else stays |
| AgentLoopLaws.RunsStayPaired | scripts/govern_bench/harness.py:1362-1488 | every assistant message with k calls is immediately followed by k tool messages with the same ids in order, whichever way a run ends |
| AgentLoopLaws.PromptsArePaired | scripts/govern_bench/harness.py:1362-1370 | so is every history sent to the model |
| AgentLoopLaws.StartIsPaired | scripts/govern_bench/harness.py:1347-1350 | the history a run starts from is paired |
| AgentLoopLaws.HistoryOnlyGrows | scripts/govern_bench/harness.py:1362-1488 | what was once sent to the model is never changed afterwards, compaction included |
| AgentTexts.RunTells | scripts/govern_bench/harness.py:1362-1488 | for any model and tools the history left behind and every one sent carry each reply's text and calls, and right behind them the outcome of each call on that turn, whole up to 8000 characters |
| AgentTexts.RunAsks | scripts/govern_bench/harness.py:1456-1463 | the recorded questions are those of the clarification calls in the history, in order |
| AgentTexts.RunWrites | scripts/govern_bench/harness.py:1435-1438 | a path is recorded as written if and only if it was before or a call of the run wrote it |
| AgentTexts.RunReckons | scripts/govern_bench/harness.py:1393-1404 | one usage record for every reply, with what that reply used |
| AgentTexts.TotalsAreSums | scripts/govern_bench/harness.py:1393-1396 | the token totals are sums, each of its own kind |
| AgentTexts.StartSays | scripts/govern_bench/harness.py:1347-1360 | what a run starts from |
| AgentLoopLaws.RunsKeepAccounts | scripts/govern_bench/harness.py:1393-1404 | one usage record per reply numbered from 1, token totals equal to the sums of the records, rework turns equal to the checks in the history, no file listed twice |
| AgentLoopLaws.RunsStayWithinTurns | scripts/govern_bench/harness.py:1362-1404 | a run stays within its turns, uses all of them if it ends for want of turns, and asked once for every counted reply and once more on an error |
| AgentLoopLaws.StopReasonIff | scripts/govern_bench/harness.py:1360-1492 | the stop reason is exactly what the history shows: a last reply without calls, a last reply that called `done`, or neither |
| AgentLoopLaws.StartIsAccounted | scripts/govern_bench/harness.py:1346-1361 | the accounts a run starts from agree with its history |
| AgentLoopLaws.RunFromStart | scripts/govern_bench/harness.py:1346-1492 | from a fresh start, any model and any tools leave a paired history, matching accounts, no more replies than turns and a stop reason that the history shows, and send only paired histories |
| MessageTranslation.ToAnthropic | scripts/govern_bench/harness.py:865-930 | the loops give the translated messages and the joined system texts |
| MessageTranslation.ToGoogle | scripts/govern_bench/harness.py:933-999 | the loops give the translated contents, tool names looked up by the id last seen |
| TranslationLaws.AnthropicTurnsIff | scripts/govern_bench/harness.py:865-930 | any paired history stays paired by id, whatever ids are made up, if and only if in every turn the ids of the named calls are the ids its answers name |
| TranslationLaws.AnthropicPairsIff | scripts/govern_bench/harness.py:865-930 | when made-up ids are new, that is so if and only if every call has both a name and an id or neither |
| TranslationLaws.GooglePairsIff | scripts/govern_bench/harness.py:933-999 | a paired history whose calls each have both a name and an id or neither stays paired by name if and only if within each turn calls sharing an id share their name |
| TranslationLaws.GoogleTurnsIff | scripts/govern_bench/harness.py:933-999 | any paired history stays paired by name if and only if in every turn the names of the named calls are the names its answers are looked up under |
| TranslationLaws.AnthropicPairs | scripts/govern_bench/harness.py:865-930 | a paired history whose calls each have both a name and an id or neither stays paired by id, whatever ids are made up |
| TranslationLaws.TranslatesToBoth | scripts/govern_bench/harness.py:865-999 | such a history in which no id names two tools in one turn stays paired in both formats |
| TranslationLaws.EveryPromptTranslates | scripts/govern_bench/harness.py:1362-1370 | if the model makes only such calls, both translations of every history it is sent are paired |
| TranslationLaws.RunTranslates | scripts/govern_bench/harness.py:1346-1370 | in particular in every run from its start |
| TranslationLaws.AnthropicSays | scripts/govern_bench/harness.py:865-930 | the translation carries the texts, tool names, inputs and results of the history in its order |
| TranslationLaws.GoogleSays | scripts/govern_bench/harness.py:933-999 | so does the other one, whatever names are known, so both say the same |
| TranslationLaws.SystemTextsConcat | scripts/govern_bench/harness.py:865-880 | the system text is made of the system messages in order |
| TranslationLaws.StrangeResult | scripts/govern_bench/harness.py:975-990 | a result whose call was never seen is named "tool_result" |
| Metrics.ParetoFrontier | scripts/govern_bench/metrics.py:614-659 | the nested loops with the flag give the undominated priced rows, sorted |
| Metrics.FrontierMembers | scripts/govern_bench/metrics.py:614-659 | a row is on the frontier if and only if it is priced and undominated |
| Metrics.FrontierIff | scripts/govern_bench/metrics.py:614-659 | which rows those are, read off the rows: the cost is a number, and no other row costs no more, passes no less and differs in one of the two |
| Metrics.LeftOutIsDominated | scripts/govern_bench/metrics.py:632-650 | every priced row left out is dominated by a row on the frontier |
| Metrics.RiseTogether | scripts/govern_bench/metrics.py:632-659 | along the frontier cost and pass rate rise together and no row dominates another |
| Metrics.FrontierKeepsCounts | scripts/govern_bench/metrics.py:614-659 | frontier rows appear as often as they were given |
| Wilson.IntervalIsScoreTest | scripts/govern_bench/metrics.py:295-307 | before clamping the interval is exactly the set of rates the score test accepts |
| Wilson.AcceptedAreRates | scripts/govern_bench/metrics.py:295-307 | the score test accepts only rates between 0 and 1 |
| Wilson.IntervalIsSound | scripts/govern_bench/metrics.py:295-307 | 0 <= low <= observed rate <= high <= 1, and neither clamp changes the interval |
| Quantiles.QuantileMonotone | scripts/govern_bench/metrics.py:310-328 | quantiles rise with q, infinite samples included |
| Quantiles.QuantileInRange | scripts/govern_bench/metrics.py:310-328 | a quantile lies between the least and the greatest sample |
| Quantiles.QuantileEnds | scripts/govern_bench/metrics.py:310-328 | at 0 and 1 it is the least and the greatest sample |
| Quantiles.QuantileDivides | scripts/govern_bench/metrics.py:310-328 | between two samples a quantile divides their distance as its place divides theirs, and next to an infinite one it is infinite |
| Quantiles.BootstrapIsOrdered | scripts/govern_bench/metrics.py:331-361 | the ends of the cost-of-pass interval are never crossed |
| EsdbSweep.SqliteStore.Delete | src/specsmith/esdb/sqlite_store.py:264-270 | a deletion tombstones the record of that id on the main branch and nothing else |
| EsdbSweep.SqliteStore.RunSweep | src/specsmith/esdb_sweep.py:101-206 | the phases leave exactly the swept records, or the old ones on a dry run, and report their counts by kind |
| SweepLaws.RetentionIsPlan | src/specsmith/esdb_sweep.py:46-54 | no kind is listed twice, and work items, preflight decisions and the efficiency metric have no retention |
| SweepRetention.DueByTheTable | src/specsmith/esdb_sweep.py:46-157 | a record is due if and only if it is active and its first time stamp that is not empty sorts strictly before the limit of 60, 30 or 90 days of its kind |
| SweepRetention.FreshIsNotDue | src/specsmith/esdb_sweep.py:146-157 | a record without stamp, or stamped at or after the limit, is not due |
| SweepRetention.DryRunCountsDue | src/specsmith/esdb_sweep.py:136-165 | a dry run counts exactly the due records, in total and by kind |
| SweepRetention.ReportsDue | src/specsmith/esdb_sweep.py:136-165 | that is what a dry run reports, and a real one never more |
| SweepRetention.RetiredIff | src/specsmith/esdb_sweep.py:136-165 | the retention phase changes a record if and only if it is on main, no tombstone, and some record with its id is due |
| SweepRetention.NotDueIsIgnored | src/specsmith/esdb_sweep.py:136-165 | a record that is not due is never counted nor the reason for a deletion: without it a run counts the same and leaves the same other records |
| SweepRetention.OlderIsDueToo | src/specsmith/esdb_sweep.py:146-157 | of two active records of one kind, if the later stamped one is due so is the earlier one |
| SweepRetention.LaterLimitsRetireMore | src/specsmith/esdb_sweep.py:136-165 | later limits count at least as many and leave at least the same tombstones |
| SweepRetention.SweptIff | src/specsmith/esdb_sweep.py:136-206 | a full sweep turns a record into a tombstone if and only if it is on main and its id is that of a due record, of an active work item the file lacks, or of an active preflight decision whose parent is unknown |
| SweepRetention.OrphansOnlyRetiresNothing | src/specsmith/esdb_sweep.py:136-206 | a sweep for orphans only retires nothing, and a full one files the efficiency metric under its own id |
| SweepLaws.FlaggedIsFaded | src/specsmith/esdb_sweep.py:136-192 | both phases only tombstone, and only on the main branch |
| SweepLaws.ReportsNothingIff | src/specsmith/esdb_sweep.py:136-192 | a full sweep, dry or not, reports nothing if and only if no record is overdue, missing from the file or orphaned |
| SweepLaws.OneSweepItemsIff | src/specsmith/esdb_sweep.py:167-182 | one sweep leaves no active work item missing from the file if and only if no such item is on another branch |
| SweepLaws.ThirdFindsNothingIff | src/specsmith/esdb_sweep.py:136-206 | after two sweeps a third finds nothing if and only if the other branches gave no reason to flag to begin with |
| SweepLaws.SecondFindsNothingIff | src/specsmith/esdb_sweep.py:171-190 | with all records on main the second sweep finds nothing if and only if no active preflight decision names an active work item that the file lacks |
| SweepEffects.KeptIs | src/specsmith/esdb_sweep.py:136-165 | for any records and any table, the retention phase deletes on main the ids of exactly the records, of any branch, that were overdue at its start |
| SweepEffects.UntouchedIff | src/specsmith/esdb_sweep.py:136-192 | a record other than a refreshed efficiency metric survives a sweep, full or for orphans only, as it is if and only if it is not on main, is a tombstone already, or no record with its id is overdue, missing from the file or orphaned once the overdue ids are gone |
| SweepEffects.KeptForever | src/specsmith/esdb_sweep.py:46-54 | where no id has two kinds, records of kinds without retention are never touched, except for the refreshed efficiency metric |
| SweepEffects.ForeverIsDeleted | src/specsmith/esdb_sweep.py:136-165 | a token metric, kept forever, that a full sweep tombstones as an expired session metric of another branch has its id |
| SweepEffects.RetentionAlikeIff | src/specsmith/esdb_sweep.py:136-165 | a real run never retires more than a dry run counts, and the counts agree, in total and by kind, if and only if no record on main is overdue whose id an earlier entry of the table deletes |
| SweepEffects.OrphansAlikeIff | src/specsmith/esdb_sweep.py:167-192 | both runs flag the same orphans if and only if every orphan item whose id is retired is held by another branch and no orphan preflight decision on main has its id retired |
| SweepEffects.DryRunReportsTheSameIff | src/specsmith/esdb_sweep.py:136-206 | for any records a dry run reports what a real run would if and only if the retention counts agree and as many orphans are lost to the retention phase as it makes |
| SweepEffects.DryRunReportsTheSame | src/specsmith/esdb_sweep.py:136-192 | in particular when no id has two kinds |
| SweepEffects.DryRunReportsMore | src/specsmith/esdb_sweep.py:46-192 | with the code's own table, one id with two kinds on two branches is enough for a dry run to report more than a real one |
| SweepCounts.DeletedIff | src/specsmith/esdb_sweep.py:136-192 | the records a full sweep tombstones are, for any records, those on main, not tombstones yet, one of whose namesakes is overdue, missing or orphaned |
| SweepCounts.CountsShift | src/specsmith/esdb_sweep.py:136-192 | for any records, what a full sweep reports and the records it tombstones differ by those counted on other branches, which stay, and by those on main deleted for a namesake without being counted |
| SweepCounts.CountsAreChangesIff | src/specsmith/esdb_sweep.py:136-192 | so, for any records, it tombstones as many as it reports if and only if as many are deleted uncounted as are counted aside |
| SweepCounts.CountsAreChanges | src/specsmith/esdb_sweep.py:136-192 | in particular when no id is on two branches it reports exactly the records it tombstones and the flagged records of other branches, which stay |
| SweepCounts.MainHasNoSides | src/specsmith/esdb_sweep.py:136-192 | when all records are on main no id is on two branches and nothing is counted aside |
| SweepEffects.NamesakeIsDeleted | src/specsmith/esdb_sweep.py:46-206 | with the code's own table, an expired record of another branch is reported and stays, and its namesake on main, not overdue, is tombstoned |
| Interview.RunInterview | src/specsmith/architect.py:620-647 | the loop over input lines leaves the confidences and answers of the specification |
| Interview.FindTarget | src/specsmith/architect.py:622-627 | the first incomplete dimension of least confidence |
| InterviewLaws.TargetIs | src/specsmith/architect.py:622-627 | while a dimension is incomplete the interview asks about one of least confidence |
| InterviewLaws.InputsAreInRange | src/specsmith/architect.py:477-507 | every line that counts as an answer scores between 10 and 50 hundredths |
| InterviewLaws.DimensionTakesFew | src/specsmith/architect.py:620-647 | a dimension takes at most 8 answers from any start that is not negative |
| InterviewLaws.InterviewIsShort | src/specsmith/architect.py:620-647 | the interview takes at most 8 answers per dimension, 80 for ten |
| InterviewLaws.LeastAnswersNeedAll | src/specsmith/architect.py:620-647 | the bound is exact: answers of the least score are all taken until every dimension had what it needs |
| InterviewLaws.FreshNeedsEight | src/specsmith/architect.py:166-173 | from a fresh start that is 8 for each dimension |
| InterviewLaws.EnoughAnswersComplete | src/specsmith/architect.py:620-647 | enough answers complete every dimension |
| InterviewLaws.StaysEven | src/specsmith/architect.py:620-647 | from an even start, such as a fresh one, confidences never differ by more than half of the scale |
| InterviewLaws.NeverFalls | src/specsmith/architect.py:639-642 | confidences never fall, and complete dimensions never change |
| InterviewLaws.KeepsLastAnswer | src/specsmith/architect.py:620-647 | a dimension ends with the last answer given to it and the total of what its answers score, up to the full confidence |
| InterviewLaws.LongerScoresMore | src/specsmith/architect.py:477-507 | longer answers and answers with metrics never score less |
| InterviewLaws.ReadIff | src/specsmith/architect.py:628-638 | which lines end the interview, which are passed over, and what is taken of the others |

## Left out

- Files, SQLite, HTTP, clocks, random numbers and subprocesses: stores, directories and logs are sequences and maps, times and generated ids are inputs.
- YAML, JSON and Markdown texts, report rendering and the command line: records are values; only the ledger's own text format is spelled out.
- Regular expressions other than the ledger header, SHA-256 and the square root: arbitrary functions, with the properties a law needs as its hypotheses.
- Floating-point rounding: scores and rates are exact reals.
- StressTester.Run: breakpoint and hint texts of failures are not modelled, the wording of a failure and `upper()` of a priority are parameters, and an object listed twice is excluded, which a session never does.
- Recovery.Propose: descriptions and suggested changes of proposals are not modelled.
- Session.AEESession.Run: `accept`, loading and saving beliefs and sealing from a session are not part of this model.
- ConfigLaws.ResolvedLeafIff: says nothing about sources that use one mapping object in two places, through YAML aliases, where a later source that changes one place changes the other too.
- ConfigResolver.MergeInto: nested mappings are merged as values, so sharing of one mapping object is not captured: a YAML alias that puts one mapping in two places of a source is merged in place at both by the code; the order of keys is not modelled.
- AgentLoop.Agent.Run: the assistant message is a value replaced in the history, so the alias through which the code edits it is not captured; final validation and the transcript are not part of this model, and an exception raised by a tool ends the original run.
- MessageTranslation.ToAnthropic: message contents are texts, and `strip` is a parameter.
- TranslationLaws.AnthropicPairsIff: supposes that made-up ids differ from the other ids of the turn, which random hexadecimal digits do not guarantee; AnthropicTurnsIff does not.
- ContextControl.CheckHealth: which records duplicate or contradict each other is not listed, only whether there are any.
- EsdbSweep.SqliteStore.RunSweep: a missing database, store errors, other fields of a record and the content of the efficiency metric are not modelled.
- Interview.RunInterview: running out of input stands for the end of the input and an interrupt; saving the state after each answer is not modelled.
- GovernanceYaml.YamlStore.Load: ids are texts, files hold lists of records, and file names are the group names.
- Non-ASCII digits and letter case: `lower` and the digit tests cover ASCII.
- The older copy of the pipeline in `src/specsmith/epistemic`, guided compression, context windows, approvals, auditing, execution and CI checks: small tables, wrappers or file checks.
- The context action ladder, checkpoints and directives of context control, the slices and tables of the benchmark report, and cost estimates: case tables and sums.
