# Verified models of the datazen repository's algorithmic scripts

A Dafny 4.11 project that models the parts of the repository whose correctness does not follow from a single
reading: the incremental CI scope selection, and the algorithms inside the end-to-end harness. `dafny verify
dfyconfig.toml` checks the whole project.

## What is modelled

**CI scope selection** (`scripts/ci_scope.py`, with the job conditions of `.github/workflows/ci.yml`). The script
decides, from whatever the runs and jobs APIs show of earlier runs, which of the two heavy jobs (frontend, Rust) a run
may skip. `CiPaths` holds the per-path rules, `CiPathVerdicts` what they say of a path by its components, `CiHistory` the
reading of the run list, `CiDecision` the decision of one run, and `CiSystem` whole histories: runs start, decide, execute or skip, finish, complete and are re-run, wholly or
in part, in any interleaving. Snapshots of the run list may be partial, repeated, late and inconsistent; calls may fail.
The main result is `CiSystem.SuccessesAreVerified`: in every reachable state, every run ever listed as a success agrees,
on all paths relevant to a half, with a tree on which a real job of that half was green or with the trusted base, of a
run from which a chain of prior runs leads to it, however long that chain of skipped successes is. A trusted base is
the merge base of a pull request, or the commit before a push that found no earlier run of its branch.

**Multi-cursor typing** (`typeAtSelections`): the running shift that places cursors in the document after the change
(`MultiCursor`).

**The flattened connection navigator**: the ancestor-stack check of tree levels, forests as its meaning, subtree slicing
(`AriaForest`), one call of the expansion of database, schema and category (`NavigatorExpansion`), what loading rows does to
the facts it depends on (`NavigatorSpine`), and polling over whole runs (`NavigatorRuns`).

**Stateful helpers with exceptional exits**: the seeded session (`SeededSession`), Safe Mode brackets (`SafeMode`), the
two nested retry loops under one idempotency key (`RuntimeCommand`, `ErrorCodes`), screenshot numbering and duplicate
removal (`ScreenshotTrace`), the batched seeder with its checksum (`BatchSeeder`) and SQL quoting (`SqlQuoting`).

Code that computes by expressions is functions; code that loops or updates module variables is methods and classes,
each proved against a function whose properties are then proved as lemmas.

## Assumptions

- A commit is a map from paths to contents, and `git diff --name-only --no-renames` lists exactly the paths on which
  two commits differ. Any git command may fail.
- A heavy job executes exactly under its condition in `ci.yml`, and a run is a success only if every half it executes
  succeeded. A run may otherwise end in any way at any time.
- Records read from the APIs were true at some earlier moment. Nothing is assumed about their order, completeness or
  freshness.
- A commit is relevant to a half through paths that the classifier selects for it and no documentation exemption covers.
- The command backend remembers admitted idempotency keys; everything else about the channel is arbitrary.
- A connect, a disconnect, a save or a command may have its effect although its reply is lost; other failed calls have none.
- In the expansion of the navigator, a clicked row shows as expanded by the next poll. Its rows appear all at once, then or
  at any later moment, below it and deeper. Below a database there is no other, below a schema neither of them, and
  below a category none of the three. That polling ends also needs the target's rows to bring what leads to the target,
  once they load: `NavigatorRuns.Suffices` and `NavigatorRuns.Brings`. The bound of three clicks does not need this.

## Properties that do not hold as one might expect

- Equality with the tree a skip relies on, over all classified paths, fails for `LICENSE` and `.gitignore`, which exempt
  a pull request although the classifier turns both halves on for them. `CiPaths.DocsOnlyYetSelected` shows that these are
  the only two files and `CiSystem.LicenseChangeIsNeverTested` gives a history. An exempt pull request meets full equality
  if and only if it changes neither file: `CiSystem.ExemptionMeetsFullEqualityExactlyWhen`.
- `withSafeModeOff` can leave Safe Mode off: `SafeMode.FailedOpeningLeavesSafeModeOff` is a case, in which the first
  announcement fails, and `SafeMode.BracketRestoresExactlyWhen` the exact condition.
- The harness cannot account for every open session: `SeededSession.LostReplyLeavesSession` is a case, in which a connect
  loses the reply of its first attempt, and `SeededSession.AccountedExactlyWhenHeard` the exact condition.
- The harness can hold the id of a closed session: `SeededSession.FailedReconnectHoldsStaleId` is a case, and
  `SeededSession.HeldIdIsStaleExactlyWhen` and `SeededSession.ReleaseLeavesStaleIdExactlyWhen` are the exact conditions.
- Frame numbers can have gaps: `ScreenshotTrace.RaisedCaptureLeavesGap` is a case, and `ScreenshotTrace.NumbersHaveNoGaps`
  the exact condition.
- `force` can matter: `ScreenshotTrace.ForceMattersAfterSuite` is a case, `ScreenshotTrace.ForceMattersExactlyWhen` the
  exact condition.
- A discarded screenshot can remove a frame kept before the current test began, under the same spec, title, number and
  step: `ScreenshotTrace.RetriedTestLosesItsFrame` is a case, `ScreenshotTrace.DiscardCostsSameNameOnly` the exact condition.
- The abandoned cursor formula `range.to + shift`: `MultiCursor.OldFormulaForRange` says for every range when it is right
  and when it leaves the document.

## Model

| member | source | states |
|---|---|---|
| CiPaths.ClassifyChangedPaths | scripts/ci_scope.py:71-120 | The loop with its two flags turns a half on exactly when some path of the window is selected for that half by the cascade of rules. |
| CiPaths.OwnershipIsExact | scripts/ci_scope.py:78-119 | A path leaves the frontend half off exactly if it is ignored or in Rust's trees, and the Rust half off exactly if it is ignored or passes a frontend test and no Rust test; a path that passes both kinds of test counts as Rust's, whose test comes first. |
| CiPaths.UnknownRootFileIsShared | scripts/ci_scope.py:117-119 | Fail closed at top level: a root file that is neither markdown nor a named frontend configuration turns both halves on. |
| CiPaths.ClassifyIsUnion | scripts/ci_scope.py:71-120 | The verdict on a concatenation is the pointwise or of the verdicts, so order and repetition are irrelevant. |
| CiPaths.ClassifyIsMonotone | scripts/ci_scope.py:71-120 | Adding paths never turns a half off. |
| CiPaths.DocsOnlyYetSelected | scripts/ci_scope.py:123-134 | The paths that are documentation-only and yet selected for a half are exactly LICENSE and .gitignore. |
| CiPathVerdicts.ClassificationByComponents | scripts/ci_scope.py:71-120 | For every path without empty or "." components, as git prints them, the cascade of prefix and suffix tests computes a reference that reads the path by its components: markdown anywhere, docs and the two scope scripts concern no half, then every tree, package, extension and named file its owner, and what is not mentioned both halves. |
| CiPathVerdicts.DocumentationByComponents | scripts/ci_scope.py:123-134 | Of these paths the documentation ones are exactly the two named files, what is in docs, and markdown at the root or in .github. |
| CiPathVerdicts.SuffixIsExtension | scripts/ci_scope.py:76-80 | A suffix is always the text from the last dot of the last component, with something before and after the dot. |
| CiPathVerdicts.SpellingOfRoots | scripts/ci_scope.py:75-76 | A leading "./" is not part of a path, and a leading slash is a part of its own. |
| CiHistory.IsBeforeIsStrictTotalOrder | scripts/ci_scope.py:163-168 | Before, by time and then id, is irreflexive, transitive and total on runs with distinct ids. |
| CiHistory.PriorRuns | scripts/ci_scope.py:171-207 | The filtering loop and sort yield the list that the specification describes, or none if the current run is not listed. |
| CiHistory.PriorRunsAreExactAndSorted | scripts/ci_scope.py:171-207 | On the records: the result holds exactly the runs of the same event and pull request or branch created before the current one, or at the same time with a smaller id, each as often as listed, newest first, and strictly so if no id repeats. The current run is the first record under its id. |
| CiHistory.PriorRunsAreStable | scripts/ci_scope.py:203-206 | Several records of one run stay in the order in which they were listed. |
| CiHistory.PreviousSuccessIsNewest | scripts/ci_scope.py:210-237 | The chosen previous success is a completed and successful run on another, known commit, created before the current one, and no such run is later; none is chosen only if there is none. |
| CiHistory.FindLatestGreenJobSha | scripts/ci_scope.py:240-298 | The whole search refines the declarative rule, with at most the limit of fetches, made for a prefix of the rule's probes. |
| CiHistory.ProbeGreenJob | scripts/ci_scope.py:273-298 | The probe loop with its seen set, counter and early exits returns the first green among the rule's probes, unless a fetch failed before. |
| CiHistory.ProbesAreFreshAndDistinct | scripts/ci_scope.py:253-285 | Probed commits are distinct, never the current one, and each is judged by its newest record, which is completed. |
| CiHistory.GreenShaIsFirstGreenProbe | scripts/ci_scope.py:287-298 | A commit is taken as green if and only if it is a probe whose jobs show the job green and every earlier probe was fetched and not green. |
| CiHistory.GreenOnRecords | scripts/ci_scope.py:292-297 | A commit counts as green exactly if its jobs hold a record of that name, completed and successful. |
| CiHistory.CandidatesOnRecords | scripts/ci_scope.py:267-285 | A run may be probed exactly if it is completed, of a known commit other than the current one, and the newest record of its commit. |
| CiHistory.CandidatesInOrder | scripts/ci_scope.py:268-270 | Commits are probed in the order of their newest records. |
| CiDecision.ResolveHalfBaselines | scripts/ci_scope.py:301-336 | The dictionary of baselines holds for each half its own green commit, or the common baseline. |
| CiDecision.BaselineHasProvenance | scripts/ci_scope.py:339-366 | Every baseline is the newest listed success of the stream, or else the first green among the five newest other commits, or else the pull request's base, or the commit before a branch's first listed push; everything runs only if there is none of these or the run was started by hand. Evidence from history is never the current commit. |
| CiDecision.WindowIsTheDifference | scripts/ci_scope.py:488-514 | A window is known exactly if git resolves both commits, the merge base if needed, and the diff, and it holds exactly the paths on which the two trees differ. |
| CiDecision.ExemptExactlyWhen | scripts/ci_scope.py:142-156 | A pull request is exempt exactly if its merge-base diff is known, not empty, and all documentation. |
| CiDecision.WhyHalfIsSkipped | scripts/ci_scope.py:532-565 | A half does not execute if and only if the pull request is documentation, or both windows resolve and its own window holds no path of the half. |
| CiDecision.ManualRunsAreFull | scripts/ci_scope.py:424-425 | A manually dispatched run decides both halves on and no exemption, so the extra event test in the job conditions is redundant. |
| CiDecision.UnknownHistoryRunsEverything | scripts/ci_scope.py:454-457 | A push with unknown history, or a commit that git cannot resolve, executes both halves. |
| CiDecision.WithoutProbesOneWindowDecides | scripts/ci_scope.py:313-321 | Without a jobs fetcher both halves are decided by the one common window. |
| CiSystem.SuccessesAreVerified | scripts/ci_scope.py:1-18 | Soundness over whole histories: every run ever listed as a success agrees for both halves with a really green tree or a trusted base at the start of a chain of prior runs. |
| CiSystem.SkippedHalvesAreVerified | scripts/ci_scope.py:252-261 | In every reachable state a half that is decided to be skipped is verified, whatever becomes of the run. |
| CiSystem.ChainGoesBack | scripts/ci_scope.py:185-201 | Along every chain of evidence all runs are of one event, and one branch unless they belong to pull requests, each strictly before the next. |
| CiSystem.SkippingIsVerifiedAtDecision | scripts/ci_scope.py:532-559 | At the moment of decision, a half that will not execute is already verified by earlier evidence. |
| CiSystem.EmptyWindowIsVerified | scripts/ci_scope.py:517-529 | A window without a path of the half passes verification on from its baseline, whatever kind of baseline it is. |
| CiSystem.ExemptionIsVerified | scripts/ci_scope.py:142-156 | A documentation exemption makes the head agree with the merge base on all relevant paths. |
| CiSystem.NextKeepsInvariant | scripts/ci_scope.py:10-17 | Starting, deciding, finishing a job, completing, re-running and relabelling all keep the invariant. |
| CiSystem.VerifiedTransfers | scripts/ci_scope.py:252-256 | Verification carries over to an agreeing tree of a run that listed the verified one as prior, which is what makes chains of skipped successes sound. |
| CiSystem.AgreementSparesTwoFiles | scripts/ci_scope.py:33-46 | Agreement for a half is equality on all classified paths other than LICENSE and .gitignore, and nothing less. |
| CiSystem.EmptyWindowMeetsFullEquality | scripts/ci_scope.py:517-529 | Against the baseline of its window, a half meets equality on all its classified paths, exempt or not, if and only if the window holds no path of the half. |
| CiSystem.ExemptionMeetsFullEqualityExactlyWhen | scripts/ci_scope.py:142-156 | An exempt pull request equals its merge base on all classified paths of a half if and only if it changes neither LICENSE nor .gitignore. |
| CiSystem.LicenseChangeIsNeverTested | scripts/ci_scope.py:123-156 | A concrete history in which a LICENSE change succeeds with no job executed, so unrestricted equality is false. |
| MultiCursor.TypeAtSelections | e2e/helpers.ts:1375-1381 | The loop with its mutable shift yields one change per range and the specified cursors. |
| MultiCursor.TypingComposes | e2e/helpers.ts:1363-1395 | Typing t1 and then t2 at the resulting cursors leaves the same document and cursors as typing t1 + t2. |
| MultiCursor.CopiesAreReplaceable | e2e/helpers.ts:1369-1374 | The copies found from the cursors alone can be replaced by any text with the effect of having typed that text; with none, the text outside the ranges is what is left. |
| MultiCursor.AnchorFollowsItsCopy | e2e/helpers.ts:1369-1374 | Each cursor is in the new document right behind its range's own copy, and splits it into the edit of what came before and the edit of what comes after. |
| MultiCursor.AnchorsStayApart | e2e/helpers.ts:1377-1381 | Neighbouring cursors are apart if and only if the text is nonempty or text was kept between their ranges. |
| MultiCursor.EditIsBackwardsReplacement | e2e/helpers.ts:1365-1367 | The simultaneous replacement equals replacing one range at a time from right to left. |
| MultiCursor.FitsIsSortedDisjoint | e2e/helpers.ts:1365-1367 | The recursive condition on selections is: sorted, disjoint and inside the document. |
| MultiCursor.OldFormulaForRange | e2e/helpers.ts:1370-1374 | For every range, the abandoned formula is right exactly if the text is as long as what it replaces, and outside the document exactly if what is replaced is longer than the text by more than all that follows the cursor. |
| MultiCursor.OldFormulaForLastRange | e2e/helpers.ts:1370-1374 | For the last range, all that follows is the old text behind the range. |
| AriaForest.StructuralViolations | e2e/specs/connection-navigator-aria-tree.ts:70-105 | The walk with its sparse stack reports, row by row, wrong roles, wrong levels, and levels more than one below the row walked before, each with the ancestors then open. |
| AriaForest.StackAfterRow | e2e/specs/connection-navigator-aria-tree.ts:94-101 | Popping and the array write that may lengthen the stack leave exactly the open levels, with holes at skipped ones. |
| AriaForest.AcceptedIffForest | e2e/specs/connection-navigator-aria-tree.ts:66-105 | No violations if and only if there is one tree and all rows are treeitems with positive levels in the document order of an ordered forest with roots at level 1. |
| AriaForest.ReportIsExact | e2e/specs/connection-navigator-aria-tree.ts:70-105 | The report names, in order and once each, exactly the rows with a wrong role, or else no positive level, or else a level that skips one. |
| AriaForest.ParseUndoesFlatten | e2e/specs/connection-navigator-aria-tree.ts:66-69 | Parsing the flattened rows of any forest gives the forest back. |
| AriaForest.FlattenUndoesParse | e2e/specs/connection-navigator-aria-tree.ts:66-69 | Flattening the parse of any accepted list gives the list back. |
| AriaForest.NestedIffForest | e2e/specs/connection-navigator-aria-tree.ts:66-69 | A level list obeys the rules if and only if it is the document order of a forest. |
| AriaForest.ForestIsUnique | e2e/specs/connection-navigator-aria-tree.ts:66-69 | Two forests with the same rows are the same. |
| AriaForest.WindowIsNested | e2e/specs/connection-navigator-aria-tree.ts:89-102 | A contiguous window of an accepted list is accepted if and only if it is empty or starts at a root. |
| AriaForest.BelowIsDescendants | e2e/helpers.ts:1831-1841 | On the rows of a forest, the deeper rows after a row are exactly its node's proper descendants in order. |
| AriaForest.SliceOfSlice | e2e/helpers.ts:1846-1854 | Slicing inside a slice is slicing the full list, for any rows. |
| NavigatorExpansion.Children | e2e/helpers.ts:1831-1841 | The counting loop returns the rows below the parent; for an absent parent, the leading deeper rows. |
| NavigatorExpansion.FoundRowIsIndexed | e2e/helpers.ts:1832 | The row that find returned is found again by indexOf at the same place. |
| NavigatorExpansion.FindOnRecords | e2e/helpers.ts:1827-1829 | The row found is the first of that kind and name, and none is found only if there is none. |
| NavigatorExpansion.DatabaseInFullList | e2e/helpers.ts:1846-1857 | Working on nested slices judges and clicks the same rows as working on the full list. |
| NavigatorExpansion.ReadyIffPathIsOpen | e2e/helpers.ts:1842-1863 | A call is ready if and only if a database, schema and category path to the target shows with every row expanded. |
| NavigatorExpansion.PathStaysInBranch | e2e/helpers.ts:1854-1857 | The category row judged lies in the branch of the target database, and of the target schema. |
| NavigatorExpansion.ClickStaysInBranch | e2e/helpers.ts:1842-1862 | A call clicks at most one row, never an expanded one, and only the target database or a row in its branch. |
| NavigatorSpine.ClickOnSpine | e2e/helpers.ts:1842-1862 | What a call depends on is the target database's row, the target schema's and the category's, whether each shows and is expanded; a click expands the first collapsed one of them and changes nothing else of this. |
| NavigatorSpine.LoadOnSpine | e2e/helpers.ts:1842-1863 | Rows that load below the target database or schema decide what shows of the rest of the way; rows that load anywhere else, other databases and schemas included, change nothing a call depends on. |
| NavigatorSpine.ExpandKeepsShape | e2e/helpers.ts:1805-1812 | Clicks and loads keep the nesting of databases, schemas and categories. |
| NavigatorRuns.ClickProgresses | e2e/helpers.ts:1842-1862 | Every click uses up credit, and nothing that loads, wherever and whenever, restores any. |
| NavigatorRuns.AtMostThreeClicks | e2e/helpers.ts:1869-1874 | Over any run of polls and loads in any order there are at most three clicks, whatever loads. |
| NavigatorRuns.EveryPollCounts | e2e/helpers.ts:1842-1863 | If what has loaded leads to the target, every call is ready, clicks, or was made while rows of a clicked row were to come. |
| NavigatorRuns.ReadyAfterThreePolls | e2e/helpers.ts:1869-1874 | If what loads for the target leads to it, then after three polls made while nothing was to come (fewer if rows were expanded at the start) every call is ready and clicks nothing. |
| NavigatorRuns.ReadyIsFinal | e2e/helpers.ts:1871-1874 | Once ready, calls stay ready and click nothing, whatever loads. |
| SeededSession.SessionHolder.EnsureSeededPgSessionFresh | e2e/helpers.ts:381-418 | With every call failing or not, and having its effect or not, the new held id and the open sessions are the specified ones. |
| SeededSession.SessionHolder.ReleaseHeldSeededSession | e2e/helpers.ts:357-361 | A release closes and forgets the held session, or keeps its id when the disconnect raises. |
| SeededSession.SessionsAreAccounted | e2e/helpers.ts:363-380 | Over any sequence of bootstraps and releases, the sessions opened and not closed are exactly those lost on being replaced, those whose id was never heard, and at most the held one, and no session is two of these. |
| SeededSession.AccountedExactlyWhenHeard | e2e/helpers.ts:733-776 | The harness can account for all open sessions if no retried connect lost the reply of an attempt that opened one, and only then if such sessions are new and not handed out later. |
| SeededSession.LostReplyLeavesSession | e2e/helpers.ts:385-403 | A concrete bootstrap that returns normally and leaves a session open that nothing refers to. |
| SeededSession.HandedOutLater | e2e/helpers.ts:385-403 | A concrete run in which a later connect hands out the session that was not heard of, so that all is accounted for again. |
| SeededSession.LiveSessionsAreBounded | e2e/helpers.ts:354-355 | At most one session is alive, plus one per refused disconnect of a session that was being replaced and one per session opened unheard. |
| SeededSession.NormalReturnHoldsFreshSession | e2e/helpers.ts:396-418 | A bootstrap that returns after a probe holds a live session that answered for the configured database, with only lost sessions and unheard ones beside it. |
| SeededSession.BootstrapReturnsExactlyWhen | e2e/helpers.ts:381-418 | Exactly when a bootstrap skips, returns at once, returns after a reconnect, or raises. |
| SeededSession.ReleaseReturnsExactlyWhen | e2e/helpers.ts:357-361 | A release raises exactly if there is a session to close and its disconnect fails. |
| SeededSession.ReleaseKeepsIdOnFailure | e2e/helpers.ts:354-361 | A failed release keeps the id, and everything else unless the session closed all the same; a successful one leaves no id and only lost sessions and unheard ones. |
| SeededSession.HeldIdIsStaleExactlyWhen | e2e/helpers.ts:381-418 | From any state, the exact condition for a bootstrap to leave the id of a closed session. |
| SeededSession.ReleaseLeavesStaleIdExactlyWhen | e2e/helpers.ts:357-361 | From any state, a release leaves the id of a closed session if and only if its disconnect closed the session and raised, or was refused and the id was stale before. |
| SeededSession.FailedReconnectHoldsStaleId | e2e/helpers.ts:407-411 | A concrete bootstrap whose second connect raises leaves the id of the closed session. |
| SafeMode.SettingsHost.RunScript | e2e/helpers.ts:892-936 | Bodies that call the helpers in any nesting, store, throw and catch have the specified effect and outcome. |
| SafeMode.SettingsHost.RunWithSafeModeOff | e2e/helpers.ts:892-911 | The bracket with its finally block has the specified effect on settings, announcement and outcome, for every failing call. |
| SafeMode.SettingsHost.SetSetting | e2e/helpers.ts:914-936 | A setter saves only a changed value and announces always, for every failing call. |
| SafeMode.BracketRestores | e2e/helpers.ts:903-910 | If the closing calls take effect, safe mode is what it was and every other setting is what the body left, however the body ends. |
| SafeMode.BracketRestoresExactlyWhen | e2e/helpers.ts:892-911 | The exact condition for the flag to survive, with every call allowed to fail. |
| SafeMode.FailedOpeningLeavesSafeModeOff | e2e/helpers.ts:892-901 | A concrete bracket, around any body, that leaves Safe Mode off because its first announcement fails. |
| SafeMode.NestedBracketsRestore | e2e/helpers.ts:891-911 | Any composition of brackets restores Safe Mode if the outermost ones open and their closing read and save take effect, whatever their bodies store, set, throw or catch, and whichever calls fail inside them. |
| SafeMode.HelpersStayInSync | e2e/helpers.ts:899-935 | If only helpers change settings, the last announced settings equal the persisted ones after every helper, at every depth. |
| SafeMode.SetterSynchronizes | e2e/helpers.ts:914-936 | A setter brings any window up to date and stores just its own flag. |
| SafeMode.SettersStoreTheirFlag | e2e/helpers.ts:914-936 | Each setter stores and announces just its own flag, whichever of its calls fail, and returns exactly if all calls it needs succeed. |
| SafeMode.OpeningExactly | e2e/helpers.ts:892-901 | The opening saves only if Safe Mode was on, and always announces it off. |
| SafeMode.BracketReturnsExactlyWhen | e2e/helpers.ts:892-911 | A bracket returns exactly if it opens, its body returns and every closing call succeeds. |
| RuntimeCommand.Client.Invoke | e2e/helpers.ts:738-767 | One call over the channel: what reaches the backend and what is observed of it. |
| RuntimeCommand.Client.InvokeSettings | e2e/helpers.ts:733-776 | At most three attempts of the same request, each but the last a transport failure; a transport failure is final only after three. |
| RuntimeCommand.Client.SubmitUntilAdmitted | e2e/schema-metadata.ts:137-156 | At most 101 rounds of one to three submissions of one request. Only ResourceBusy is followed by another round, after a pause of 100 milliseconds, only a transport failure by another submission of its round, and a transport failure ends the call when it is the third in a row. At most one execution, exactly one once a receipt is seen; busy to the end only after ten seconds. |
| RuntimeCommand.AnyArrivalsExecuteAtMostOnce | e2e/schema-metadata.ts:152-154 | Whatever arrives in whatever order, a key is executed at most once and stays so. |
| RuntimeCommand.OneRequestPerKeyNeverConflicts | e2e/schema-metadata.ts:127-136 | If all arrivals under a key carry one request, none is answered by an idempotency conflict. |
| RuntimeCommand.ExecutedAtMostOnce | e2e/schema-metadata.ts:152-154 | A key counts one execution if it is admitted and none otherwise. |
| RuntimeCommand.LostAnswersHaveEffect | e2e/helpers.ts:738-772 | A delivered submission has its effect whether its answer gets back or not. |
| RuntimeCommand.BusyIsHeard | e2e/schema-metadata.ts:86-96 | A busy answer that gets back is what the admission loop takes for ResourceBusy. |
| ErrorCodes.ReasonIsFromClosedSet | e2e/schema-metadata.ts:80-97 | The reason is always one of the closed set of codes or IPC_ERROR. |
| ErrorCodes.WireSpellingIsRecognized | e2e/schema-metadata.ts:92-96 | A code and its wire spelling with a lower-case first letter both name the code. |
| ErrorCodes.MessageCodeIsRead | e2e/schema-metadata.ts:86-90 | The code in front of a message is read whatever text follows. |
| ErrorCodes.LeadingCodeExactlyWhen | e2e/schema-metadata.ts:86-90 | The code of a message is exactly its leading word of letters and digits, starting with a letter, with a colon right behind it. |
| ErrorCodes.UnknownReasonsAreMasked | e2e/schema-metadata.ts:91-96 | A reason outside the set, in both spellings, is reported as IPC_ERROR. |
| ErrorCodes.ResourceBusyIsRecognized | e2e/schema-metadata.ts:145-149 | A busy answer is recognized as ResourceBusy through its message. |
| ScreenshotTrace.ScreenshotTracer.SaveJourneyScreenshot | e2e/lib/screenshotTrace.ts:91-122 | A capture counts, writes, compares and keeps or discards as specified. |
| ScreenshotTrace.KeptFramesDiffer | e2e/lib/screenshotTrace.ts:86-90 | In every reachable state, frames kept since the suite began are pairwise different, except that a fail frame may repeat. |
| ScreenshotTrace.NewPicturesAreKept | e2e/lib/screenshotTrace.ts:86-121 | Within a test, a picture is kept exactly if no frame kept since the suite began shows it, or it is of a failure. |
| ScreenshotTrace.FailFrameIsKept | e2e/lib/screenshotTrace.ts:109-121 | From any state, the frame of a failure is kept and written under the next number, even if it repeats a picture. |
| ScreenshotTrace.ForcedCaptureBeforeTests | e2e/lib/screenshotTrace.ts:55-63 | A forced capture before any test is filed under unknown. |
| ScreenshotTrace.NumberIsPlacePlusRaised | e2e/lib/screenshotTrace.ts:102-106 | The number of a kept frame is its place among the kept frames of its test plus the captures that raised before it. |
| ScreenshotTrace.NumbersHaveNoGaps | e2e/lib/screenshotTrace.ts:102-106 | The frames of a test are numbered 1 to n if and only if no capture raised before the last of them. |
| ScreenshotTrace.RaisedCaptureLeavesGap | e2e/wdio.conf.ts:555-563 | A step that raises makes the frame of the failure number 2; a capture that raises after the last kept frame leaves no gap. |
| ScreenshotTrace.DiscardSparesCurrentTest | e2e/lib/screenshotTrace.ts:111-117 | A capture that is not kept leaves every frame kept in the current test alone. |
| ScreenshotTrace.ForceIsIrrelevantWithinTest | e2e/lib/screenshotTrace.ts:115-117 | Unless a suite began since the test did, force changes nothing about what is kept. |
| ScreenshotTrace.ForceMattersExactlyWhen | e2e/lib/screenshotTrace.ts:111-117 | Within a test, force changes what a capture leaves behind if and only if the picture is that of the last kept frame, is not in the set of the suite, and the step is not a failure. |
| ScreenshotTrace.ForceMattersAfterSuite | e2e/lib/screenshotTrace.ts:43-45 | A concrete run with a suite beginning within a test, in which force decides. |
| ScreenshotTrace.DiscardCostsSameNameOnly | e2e/lib/screenshotTrace.ts:79-84 | Exactly which earlier file a discard removes. |
| ScreenshotTrace.RetriedTestLosesItsFrame | e2e/lib/screenshotTrace.ts:48-84 | A test begun again under its title loses the frame its first run kept. |
| BatchSeeder.SeedMysqlWideTypes | e2e/lib/dataTransferFixtures.ts:136-152 | The batches concatenate to exactly the rows 1 to count; none is empty or above the batch size, and all but the last are full. |
| BatchSeeder.ExpectedQtySum | e2e/lib/dataTransferFixtures.ts:251-257 | The running total is the sum of the quantities of those rows. |
| BatchSeeder.BatchesKeepTheSum | e2e/lib/dataTransferFixtures.ts:142-151 | However rows are batched, their quantities add up to the checksum. |
| BatchSeeder.ChecksumClosedForm | e2e/lib/dataTransferFixtures.ts:251-257 | With M = 1000000, q = count / M and r = count % M the checksum is q M(M-1)/2 + r(r+1)/2. |
| BatchSeeder.CodesRepeatEveryTenMillion | e2e/lib/dataTransferFixtures.ts:130 | Codes have eight characters and coincide exactly for rows ten million apart. |
| BatchSeeder.ColumnsCountUp | e2e/lib/dataTransferFixtures.ts:128-131 | The wrapping columns count up by one from 0 to one below their modulus, and the key and the big quantity never wrap. |
| SqlQuoting.QuoteReadsBack | e2e/contract/fixtures.ts:77 | The lexer reads a quoted text back if and only if what follows does not start with the quote character. |
| SqlQuoting.LexedTextWasQuoted | e2e/contract/fixtures.ts:106 | The lexer accepts nothing but quoted texts: quoting and lexing are inverse to each other, for every quote character. |
| SqlQuoting.QuotingIsInjective | e2e/lib/testDataLifecycle.ts:31-38 | Different texts are never quoted alike, whatever follows. |

## Left out

- The tree that a pull request's jobs check out: it is the merge commit, while the script compares head commits; the model identifies a run with its head commit, as the script does.
- CiSystem.ChainGoesBack: does not keep a chain of pull request runs to one pull request number, because a run may be listed under several pull requests and the association changes over time.
- Malformed run records: they make the script's handler treat the run list as unavailable, which is the modelled failure of the call.
- git's quoting of unusual path names in diff output: a quoted name starts with a quote character and so turns both halves on.
- Paging, HTTP, JSON, environment variables and output files of `scripts/ci_scope.py`.
- Whether the classifier's lists match what the jobs build and test.
- Cursors that coincide after an edit, which CodeMirror merges: `MultiCursor.AnchorsStayApart` says when there are none.
- The DOM queries that build the row lists, the label attributes, and levels that are not numbers in the navigator expansion.
- A click that does not yet show at the next poll, which would click the same row again and collapse it; rows of one row that appear in several steps.
- `expandSchemaCategory` without a database name, which expands the first matching nodes without slicing.
- Profile lookup, token issue, polling of the execution and artifact decoding of `readRuntimeCommand`: straight-line calls around the submission loop.
- The clock is assumed not to go back and a pause to last at least as long as asked.
- Transport retries inside the settings helpers and of disconnects and queries: each such call is taken with its final outcome and effect.
- Sanitizing of screenshot labels and removal of empty directories.
- Floating-point and date columns of the seeded rows, and the SQL text around the values.
- Backslash escapes in string literals, which the quoting helpers do not treat specially.
- The Rust product, which these scripts only drive.
