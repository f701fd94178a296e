# OpenWhispr server: verified models of its protocol and its repository tools

This project models the stateful logic of the repository in Dafny and proves what that logic is
for. One module or more follows each source file; a few generic modules hold what several share.

- **First-admin claim** (`SetupClaim`, `SetupOutcome`, `SetupRows`, `SetupRace`,
  `SetupRaceOutcome`, `SetupAdmins`): any number of e-mail verification hooks race through an atomic
  claim, a conditional role flip, a compensating rollback and an audit insert, with a throw, a death
  or a lost reply possible at every statement; then the bearer-token requests that claim the same
  row join the race.
- **Skip annotations** (`Splicing`, `LintSkipAnnotations`, `AnnotationForm`,
  `CodemodSkipAnnotations`): placeholder lines are spliced into files in which every call site looks
  back five lines.
- **Phase-tag sweep** (`NeighbourSweep`, `Regex`, `RegexReading`, `PhaseTagSweep`, `PhaseTagRules`,
  `PhaseTagLines`): a rewriting pass whose verdict on a line depends on neighbours that the pass
  itself removes.
- **Test evidence** (`TestEvidence`, `PercentEncoding`, `PercentDecoding`, `EvidenceStore`,
  `PrePushGate`, `EvidenceSelfTest`): cases are folded into fragments, written by tmp-then-rename,
  and a gate later accepts or refuses a push.
- **Test-layout migration** (`PosixPath`, `MigrateTests`): relative imports recomputed for a file
  that moves.
- **UI-spec linter** (`DocumentOrder`, `UiSpec`, `CopyKeys`): work-list traversal, sectioning, keys
  unique across files.
- **Bearer-shape sweep** (`RedactUrl`, `RedactJwt`, `RedactRuns`, `RedactKeys`), **licence
  headers** (`SpdxHeader`, `Utf8Decoding`, `SpdxFiles`), **dead exports** (`DeadExports`), **boot
  guard** (`ByokGuard`), **changelog tools** (`Changelog`, `ChangelogForms`).

`JsText` gives the JavaScript string operations they rely on. Loops and objects of the source are
methods and classes proved against specification functions; the promises are lemmas about those
functions.

Where the code falls short of what its comments or its design promise, the model follows the code,
proves the exact condition, and shows it at a concrete input:

- one run of the phase-tag fix is not always enough, as the tool's header says it is
  (`OneRunOfFixIsEnough`, `OneRunFallsShort`);
- a call whose reason is too short can turn ok without being touched (`TooShortAfterwards`,
  `TooShortSilenced`);
- a moved test's import of a hidden sibling loses its "./" (`RewrittenIsRelativeUnlessHidden`,
  `HiddenSiblingMisread`);
- a repeated subsection label drops the earlier body (`NothingLostIffNoLabelRepeats`,
  `RepeatedLabelLoses`);
- a dead-export key can be ambiguous when names or paths hold a colon
  (`AlwaysAgreesIffSplitsOnce`, `ColonPathMisleads`);
- a throw between claim and flip wedges the setup (`WedgedExactlyByDeathAfterClaim`,
  `WedgeWitness`);
- a bearer-token request that takes a committed flip for a failed one reopens the setup
  (`SecondFlipIff`, `OpenWithAdminIff`, `TwoAdmins`), and one whose flip hits no row reports success
  (`StrandedExactlyByStep`, `SuccessWithoutAdmin`);
- a JWT match cut at its cap can uncover another JWT, and a second sweep then changes the string
  (`SweptIsCleanIff`, `SweepUncoversJwt`);
- a header put on a file that is not UTF-8 changes the file's other bytes (`BytesSurviveIffUtf8`,
  `InvalidByteIsLost`).

Strings are sequences of well-formed Unicode characters; files whose encoding matters are sequences
of bytes. A statement of the claim protocol is one atomic step; clocks, request ids and the results
of git, the test runner and the parsers are inputs.

## Model

| member | source | states |
|---|---|---|
| SetupClaim.StepKeepsInv | apps/api/src/index.ts:1184-1250 | every step of any hook (a statement that succeeds, throws without effect, or commits before its reply is lost) and every outside write to a user keeps the token invariant: 'completed' exactly while one hook holds the claim, and the log records only that holder's flip |
| SetupClaim.RunKeepsInv | apps/api/src/index.ts:1184-1250 | the invariant holds after every interleaving of any number of hooks |
| SetupOutcome.TokenConserved | apps/api/src/index.ts:1188-1214 | in every run one claim holder while 'completed' and none while 'pending', at most one role flip ever, and no flip unless 'completed' |
| SetupOutcome.AuditAfterFlip | apps/api/src/index.ts:1224-1249 | every audit row is preceded by the flip of the same hook and user |
| SetupRows.AuditRowIff | apps/api/src/index.ts:1224-1249 | in every run a hook has one audit row iff the insert was carried out for it at some step, and none otherwise; the row names the hook's user and its own tenant, or that step's default where it has none |
| SetupRows.QuietRunIsAudited | apps/api/src/index.ts:1224-1249 | when nothing throws, the audit inserts included, and all hooks are done, a row is there iff somebody was promoted, and it names that promotion's hook and user |
| SetupRows.AuditFailureStillWins | apps/api/src/index.ts:1224-1249 | an audit insert that throws is caught: the hook has won, at once and in every later state, without a row for it |
| SetupRows.UsersAreOthersPlusFlip | apps/api/src/index.ts:1199-1205 | the user rows of any run are what the outside writes alone make of them, save that at the step of the one flip the promoted user's role was changed |
| SetupRows.CompletedAtIsTheClaims | apps/api/src/index.ts:1190-1214 | in a completed system the stored time is the clock of the last claim that took effect, and nothing gave the claim back after it |
| SetupRows.HookIsAsBegun | apps/api/src/index.ts:1184-1188 | whatever runs beside it, a hook keeps the user and tenant of its own first begin |
| SetupRows.ThreeStatementsEnd | apps/api/src/index.ts:1188-1249 | three steps of its own end a hook, however they are interleaved and whatever throws |
| SetupOutcome.RollbackUndoesOnlyItsOwnClaim | apps/api/src/index.ts:1206-1214 | the rollback has no status condition, yet whenever a hook is about to roll back it is the only holder and nobody has been flipped |
| SetupOutcome.SuccessIsFinal | apps/api/src/index.ts:1188-1214 | after a flip nothing any hook does later changes the status, the flips, or a user row; a hook that had not claimed by then never holds the claim |
| SetupOutcome.QuietRunOutcome | apps/api/src/index.ts:1188-1249 | when nothing throws and all hooks are done: 'completed' iff exactly one flip iff some hook won, 'pending' iff no flip |
| SetupOutcome.WedgedExactlyByDeathAfterClaim | apps/api/src/index.ts:1199-1214 | with throws, the finished system is 'completed' with nobody promoted iff at some step of the schedule a throw took the claim with it: a crash at the flip or the rollback, or a lost reply to the claim or to a flip that hit no row |
| SetupOutcome.WedgeIsPermanent | apps/api/src/index.ts:1188-1199 | no later hook ever leaves that state |
| SetupOutcome.WedgeWitness | apps/api/src/index.ts:1199-1205 | a three-step run reaches it |
| SetupClaim.Server.ClaimSetup | apps/api/src/index.ts:1190-1197 | the claiming UPDATE hits one row iff the status was 'pending', and otherwise changes nothing |
| SetupClaim.Server.FlipRole | apps/api/src/index.ts:1202-1205 | the flip hits one row iff the user exists with a verified address, and changes only that row |
| SetupClaim.Server.Resume | apps/api/src/index.ts:1188-1249 | one uninterrupted stretch of the closure is the model's step |
| SetupClaim.Server.Begin | apps/api/src/index.ts:1184-1188 | a verified user's hook starts before its claim |
| SetupClaim.Server.Throw | apps/api/src/index.ts:1188-1249 | a statement that throws, with or without having been committed, ends the hook there |
| SetupClaim.Server.Perform | apps/api/src/index.ts:1184-1250 | every action of the model, done on the rows in place |
| SetupClaim.Server.Drive | apps/api/src/index.ts:1184-1250 | any schedule of begins, stretches, throws, lost replies and outside writes, each with its own clock and tenant, is the run of those steps, and keeps the invariant |
| SetupRace.RaceStepKeepsInv | apps/api/src/routes/setup-admin.ts:313-418 | with bearer-token requests racing the hooks, every step of either keeps the token: 'completed' exactly while one of them holds the claim, and every flip is the holder's or that of a request that gave the claim back |
| SetupRaceOutcome.RaceTokenConserved | apps/api/src/routes/setup-admin.ts:313-418 | in every run of hooks and requests at most one holds the claim, one does iff 'completed', and the flips are counted: one for each request that gave the claim back after its flip was committed, and one if the present holder has flipped |
| SetupRaceOutcome.HooksAloneRaceAsBefore | apps/api/src/index.ts:1184-1250 | without requests the race is the run of the hooks alone |
| SetupRaceOutcome.SecondFlipIff | apps/api/src/routes/setup-admin.ts:385-418 | a second role flip ever happens iff a request gives the claim back after its own flip was committed and a later flip hits: the hooks' guarantee of one flip ends exactly there |
| SetupRaceOutcome.ReopeningLostAReply | apps/api/src/routes/setup-admin.ts:385-395 | a request cleans up after a committed flip only if that flip's reply was lost at an earlier step |
| SetupRaceOutcome.SecondFlipLostAReply | apps/api/src/routes/setup-admin.ts:385-418 | so every run with a second flip has lost the reply to a request's flip |
| SetupAdmins.OpenWithAdminIff | apps/api/src/routes/setup-admin.ts:385-418 | where other code promotes nobody, the setup is ever open with an admin standing iff in the schedule some request loses the reply to its committed flip, later its DELETE throws without effect, later still its rollback is committed, and from the flip on no other code takes that user's role or row away |
| SetupAdmins.AtMostOneAdmin | apps/api/src/routes/setup-admin.ts:385-418 | where other code promotes nobody and the schedule leaves no admin behind in that way, at most one user is admin at any time, and none while the setup is open |
| SetupAdmins.OpenGateAdmitsAnother | apps/api/src/index.ts:1188-1205 | and from any such state the next verified user's hook becomes an admin beside the others |
| SetupAdmins.TwoAdmins | apps/api/src/routes/setup-admin.ts:396-410 | a nine-step run with a lost reply and a failed clean-up that ends with two admins |
| SetupRaceOutcome.StrandedExactlyByStep | apps/api/src/routes/setup-admin.ts:313-418 | when hooks and requests are over, the setup is completed without a flip of the present holder iff a step of the schedule stranded it: a throw or a death with nobody left to roll back, or a request's flip that hit no row |
| SetupAdmins.SuccessWithoutAdmin | apps/api/src/routes/setup-admin.ts:385-390 | the request does not look at the flip's row count: a failure-free run in which it succeeds, completes the setup and promotes nobody |
| SetupRace.Gate.Execute | apps/api/src/routes/setup-admin.ts:313-418 | the effect of each of the handler's statements on the rows |
| SetupRaceOutcome.RequestWrites | apps/api/src/routes/setup-admin.ts:313-418 | what one step of a request changes: the user and setup rows only by the statement it is at and only if that was committed, one more promotion iff the flip was committed on an existing user, no hook and no other request |
| SetupRaceOutcome.UndisturbedRequestPromotes | apps/api/src/routes/setup-admin.ts:313-418 | a request that nothing disturbs completes an open setup and makes its own, unverified user the admin, and writes no other row |
| SetupRaceOutcome.FailedRequestIsUndone | apps/api/src/routes/setup-admin.ts:336-410 | on a completed setup it changes nothing, and after a failed sign-up or a flip that threw without effect every row is as before |
| SetupRace.Gate.Resume | apps/api/src/routes/setup-admin.ts:313-418 | one stretch of the handler, its two catch blocks included, is the model's step |
| SetupRace.Gate.Drive | apps/api/src/routes/setup-admin.ts:313-418 | any interleaving of hooks, requests and failures on one set of rows is the run of those steps and keeps the token |
| NeighbourSweep.TwoPassesSuffice | tools/phase-tag-sweep.ts:259-278 | whatever a pass removes changes what the next pass sees, but a third pass never changes anything |
| NeighbourSweep.SecondPassIsPruned | tools/phase-tag-sweep.ts:211-223 | two passes come to one pass over the file without its close-out notes |
| NeighbourSweep.SecondPassDeletesOrphans | tools/phase-tag-sweep.ts:259-278 | the second pass takes away exactly the orphans, the phase tags that the first left alone only because of a close-out note next to them, and keeps every other line in its place |
| NeighbourSweep.IdempotentIffNoOrphan | tools/phase-tag-sweep.ts:28-29 | one pass is idempotent iff there is no such tag |
| NeighbourSweep.SweepKeepsCode | tools/phase-tag-sweep.ts:259-278 | the subsequence of code lines is unchanged |
| NeighbourSweep.FixRemovesFindingsAndKeepsCode | tools/phase-tag-sweep.ts:259-278 | the text loses as many lines as the audit reports and keeps its code lines; a file of removable lines only is left with one empty line |
| NeighbourSweep.FindingsAreTheRemovedLines | tools/phase-tag-sweep.ts:211-223 | a finding is reported iff that line, at that number, is removed |
| NeighbourSweep.FindingsGoDown | tools/phase-tag-sweep.ts:211-223 | the findings come from the top of the file down |
| NeighbourSweep.SweptAreTheOthers | tools/phase-tag-sweep.ts:259-278 | and what a pass leaves is every other line, comments included, once each and in order |
| NeighbourSweep.AuditFile | tools/phase-tag-sweep.ts:211-223 | the generator's loop yields exactly the findings |
| NeighbourSweep.FixFile | tools/phase-tag-sweep.ts:259-278 | the fixing loop writes the swept text and counts one removal per finding |
| PhaseTagSweep.OnlyCommentsAreRemoved | tools/phase-tag-sweep.ts:138-163 | every rule that removes a line demands a comment line |
| PhaseTagSweep.ClassifyIsByKind | tools/phase-tag-sweep.ts:138-163 | the ordered rules of classifyLine remove a line iff it is a close-out note, or an unprotected phase tag with no comment next to it |
| PhaseTagSweep.AuditReportsRemovals | tools/phase-tag-sweep.ts:211-223 | the audit reports a line iff classifyLine removes it given its two neighbours |
| PhaseTagSweep.TwoRunsOfFixAreEnough | tools/phase-tag-sweep.ts:259-278 | after two runs the audit is empty and a further run changes nothing, for every text |
| PhaseTagSweep.OneRunOfFixIsEnough | tools/phase-tag-sweep.ts:28-29 | the header's one-run claim holds iff no phase tag is kept only by a neighbouring close-out note |
| PhaseTagLines.OneRunFallsShort | tools/phase-tag-sweep.ts:97-163 | under the tool's own rules, for every close-out note followed by a bare decision tag a second run changes what the first left |
| PhaseTagRules.PhaseTagIff | tools/phase-tag-sweep.ts:83-99 | the rules for phase headers, implementation notes and decision tags, read as scans: a line is a phase tag iff one of the three forms stands behind its slashes, for numbers and indentation of any length |
| PhaseTagRules.CloseOutIff | tools/phase-tag-sweep.ts:98 | a line is a close-out note iff that form stands behind its slashes |
| PhaseTagLines.KeepIff | tools/phase-tag-sweep.ts:103-136 | a line is protected iff it holds one of the keep words, or a decision tag with an em dash and a body behind it |
| PhaseTagLines.ClassifyIff | tools/phase-tag-sweep.ts:138-163 | under the tool's own table a line is removed iff it is a close-out note, or one of the tag forms with no keep word, no such body and no comment next to it |
| PhaseTagLines.LonePhaseGoes | tools/phase-tag-sweep.ts:83-84 | a phase header with no comment next to it is reported, at any indentation and number, whatever colons, dashes and blanks end it |
| PhaseTagLines.LoneImplementationNoteGoes | tools/phase-tag-sweep.ts:99 | so is a phase header with an implementation note |
| PhaseTagLines.LoneDecisionGoes | tools/phase-tag-sweep.ts:97 | so is a bare decision tag, with one, two or three numbers |
| PhaseTagLines.CloseOutGoes | tools/phase-tag-sweep.ts:138-163 | a close-out note goes whatever its neighbours and its words are |
| PhaseTagLines.KeepPhraseStays | tools/phase-tag-sweep.ts:103-136 | any other line with a keep word in it stays |
| PhaseTagLines.PhaseWithTextStays | tools/phase-tag-sweep.ts:83-84 | a phase header that goes on in words of its own stays |
| Splicing.SpliceIsWeave | tools/codemod-skip-annotations.ts:114-132 | splicing at or above every earlier insertion adds one to the simultaneous insertions, with the indentation read from the spliced file |
| Splicing.KeptAt | tools/codemod-skip-annotations.ts:114-132 | original line i ends at i plus the insertions at or above it, several on one line included |
| Splicing.Locate | tools/codemod-skip-annotations.ts:114-132 | every other line is a tag made from the line below its block |
| Splicing.UnweaveOfWeave | tools/codemod-skip-annotations.ts:114-132 | erasing the insertions gives the original file back |
| LintSkipAnnotations.CheckAnnotation | tools/lint-skip-annotations.ts:143-155 | the scan with its flag decides: ok iff a long enough reason is in the window, too-short iff only short ones are, missing iff none is |
| AnnotationForm.AnnotationIff | tools/lint-skip-annotations.ts:76 | a trimmed line is an annotation iff it splits into two slashes, white space, the tag, at least one white space and a body on one line, and a good one iff that body, trimmed, has ten units |
| AnnotationForm.OtherCommentIsPlain | tools/lint-skip-annotations.ts:76 | so a comment that does not go on with the tag is none |
| AnnotationForm.VerdictIff | tools/lint-skip-annotations.ts:143-155 | hence a call is ok iff one of the five lines above it is such a line with ten units, and missing iff none of them is such a line at all |
| AnnotationForm.ReportIs | tools/lint-skip-annotations.ts:102-130 | a violation is reported iff its line is that of a call with that verdict |
| AnnotationForm.ReportIsCallByCall | tools/lint-skip-annotations.ts:102-130 | in the order of the calls, one for each that is not ok |
| LintSkipAnnotations.VisitForSkips | tools/lint-skip-annotations.ts:102-130 | the walk pushes one violation per call site whose verdict is not ok, in order, with its 1-based line |
| CodemodSkipAnnotations.PlaceholderKeepsIndent | tools/codemod-skip-annotations.ts:84-88 | a placeholder has the indentation of its target line |
| CodemodSkipAnnotations.PlaceholderReads | tools/codemod-skip-annotations.ts:50-53 | it is that indentation and the fixed annotation text |
| CodemodSkipAnnotations.PlaceholderIsGood | tools/codemod-skip-annotations.ts:50-53 | the placeholder is itself accepted by the lint at any indentation |
| CodemodSkipAnnotations.NothingComesBetween | tools/lint-skip-annotations.ts:143-155 | between an annotation and a call that sees it there is no missing call, hence no insertion |
| CodemodSkipAnnotations.AnnotationStaysInWindow | tools/codemod-skip-annotations.ts:105-133 | so every annotation stays in the window of every call that saw it |
| CodemodSkipAnnotations.TooShortAfterwards | tools/codemod-skip-annotations.ts:178-211 | a too-short call turns ok without its reason being touched iff a missing call stands one to four lines above it |
| CodemodSkipAnnotations.TooShortSilenced | tools/codemod-skip-annotations.ts:178-211 | a three-line file in which that happens |
| CodemodSkipAnnotations.EveryCallAfterCodemod | tools/codemod-skip-annotations.ts:178-211 | for every call of a file: missing becomes ok, ok stays ok, too-short stays too-short except in that one case |
| CodemodSkipAnnotations.SecondRunInsertsNothing | tools/codemod-skip-annotations.ts:178-211 | a second run finds nothing missing and changes nothing |
| CodemodSkipAnnotations.ApplyInsertions | tools/codemod-skip-annotations.ts:105-133 | the sorted bottom-up splicing loop equals simultaneous insertion |
| CodemodSkipAnnotations.RunCodemod | tools/codemod-skip-annotations.ts:178-211 | the insertions are the missing calls of the lint, and a dry run leaves the file alone |
| CodemodSkipAnnotations.WeaveOfSorted | tools/codemod-skip-annotations.ts:114-117 | the result does not depend on the order the insertions are listed in |
| CodemodSkipAnnotations.RewrittenTextSplitsBack | tools/codemod-skip-annotations.ts:130-132 | the written text splits back into the woven lines |
| TestEvidence.ReporterAgreesWithLint | tools/test-evidence-reporter.ts:197-212 | the reporter's own scan finds a reason iff the static lint says ok, for every call line |
| TestEvidence.FragmentIsConsistent | tools/test-evidence-reporter.ts:246-312 | total = pass + fail + skip + todo + pending; failures and skips have matching lengths; exit code 1 iff failed iff a case failed |
| TestEvidence.FragmentCounts | tools/test-evidence-reporter.ts:246-312 | project, sha, and the counters for all, failed and unannotated cases are the numbers of such cases of that project |
| TestEvidence.OutcomesAreCounted | tools/test-evidence-reporter.ts:265-305 | passed, skipped and todo cases are counted apart, each by its own counter |
| TestEvidence.EntriesAreTheCases | tools/test-evidence-reporter.ts:246-312 | the failure and the skip entries are, in order, those of exactly the project's failed and skipped cases, each with its own file, name, line, mode, message and reason |
| TestEvidence.UnannotatedMeansLintRefuses | tools/test-evidence-reporter.ts:270-305 | unannotated_skip counts exactly the skipped cases with a line on which the lint is not ok |
| TestEvidence.FragmentDependsOnOwnCases | tools/test-evidence-reporter.ts:223-254 | a project's fragment depends on that project's own cases only |
| TestEvidence.RecordCase | tools/test-evidence-reporter.ts:223-254 | one case updates its project's fragment in the Map, creating it on first sight |
| TestEvidence.BuildFragments | tools/test-evidence-reporter.ts:218-334 | the nested loops and the backfill of configured projects give one fragment per project, each the fold of its cases |
| PercentEncoding.DecodeOfEncode | tools/test-evidence-reporter.ts:409-413 | decodeURIComponent inverts encodeURIComponent on every string of well-formed characters (section 19.2.6 of ECMA-262, section 2.1 of RFC 3986) |
| PercentEncoding.EncodeIsInjective | tools/test-evidence-reporter.ts:409-413 | distinct names have distinct encodings |
| PercentEncoding.EncodedIsNameChars | tools/test-evidence-reporter.ts:409-413 | an encoded name holds no slash or other path character |
| PercentEncoding.AsciiEscape | tools/test-evidence-reporter.ts:409-413 | an ASCII character outside the unreserved marks becomes a percent sign and its two upper-case hexadecimal digits |
| PercentDecoding.DecodeIff | tools/test-evidence-projects-self-test.ts:59-80 | decoding succeeds with t iff the escapes are well formed and the bytes they and the plain characters stand for are the UTF-8 encoding of t |
| EvidenceStore.FragmentNameIsRead | tools/test-evidence-projects-self-test.ts:59-80 | reading a fragment's name for its sha gives its project back |
| EvidenceStore.OtherShaIsNotRead | tools/test-evidence-projects-self-test.ts:59-80 | a fragment of another commit is not taken for one of this commit |
| EvidenceStore.NamesAreDistinct | tools/test-evidence-reporter.ts:409-413 | distinct commits or projects never share a file |
| EvidenceStore.PlainNameIsKept | tools/test-evidence-reporter.ts:409-413 | a project name of unreserved characters stands in the file name as it is |
| EvidenceStore.UndecodableNameIsRead | tools/test-evidence-projects-self-test.ts:59-80 | a name that does not decode is taken as it stands |
| EvidenceStore.TmpIsNotJson | tools/test-evidence-reporter.ts:397-472 | neither reader takes a leftover temporary file for a fragment |
| EvidenceStore.ReadersSeeOldOrNew | tools/test-evidence-reporter.ts:397-472 | however far each write gets, every final path holds its old content or a complete new fragment |
| EvidenceStore.StoredIsLastLanded | tools/test-evidence-reporter.ts:593-637 | over any history of runs, with writes cut short anywhere, a reader finds what the last run to land a fragment under the name landed, and nothing if none did |
| EvidenceStore.StoredIsOneRunsOwnCases | tools/test-evidence-reporter.ts:593-637 | what is stored for (sha, project) is the fold of that project's own cases in one non-bailed run that covered it, and no later run landed a fragment there |
| EvidenceStore.NothingStoredIffNoneLanded | tools/test-evidence-reporter.ts:593-637 | nothing is stored under a name iff no run landed a fragment there |
| EvidenceStore.StoredIsLastCoveringRun | tools/test-evidence-reporter.ts:593-637 | over any history of undisturbed runs, what is stored for (sha, project) is the fold of the last non-bailed run on that commit that covered the project, and nothing if there is none |
| EvidenceStore.UndisturbedRunStores | tools/test-evidence-reporter.ts:593-637 | an undisturbed run stores exactly the fragments of the projects it covers and leaves the others |
| EvidenceStore.EvidenceDir.WriteFragment | tools/test-evidence-reporter.ts:397-472 | one turn of tmp-then-rename, for each place it can stop |
| EvidenceStore.WriteTouches | tools/test-evidence-reporter.ts:397-472 | a write touches its temporary file and, once landed, its final one, and a left-over temporary file of the same process stops it |
| EvidenceStore.EvidenceDir.WriteFragments | tools/test-evidence-reporter.ts:368-473 | the loop stops at the first write that fails and leaves the earlier ones |
| EvidenceStore.ArrivedIs | tools/test-evidence-reporter.ts:368-473 | the fragments that land are exactly those in front of the first write that fails or finds its temporary file taken |
| EvidenceStore.Reporter.OnInit | tools/test-evidence-reporter.ts:550-563 | records watch mode and the configured names, blank for a nameless project |
| EvidenceStore.Reporter.OnTestRunEnd | tools/test-evidence-reporter.ts:587-637 | bails in watch mode, on interruption, on an empty run and without a 40-hex sha; otherwise writes the run's fragments |
| EvidenceStore.CoversIff | tools/test-evidence-reporter.ts:587-637 | a run covers a project iff it is not bailed, its sha is forty lower-case hexadecimal digits, and a case of the project ran or its name is configured and not blank |
| PrePushGate.ParseStdin | tools/lint-pre-push-test-evidence.ts:123-138 | four words are a ref, blank lines are skipped, anything else is malformed |
| PrePushGate.ParseOfRender | tools/lint-pre-push-test-evidence.ts:123-138 | what git writes is read back ref by ref |
| PrePushGate.WrongWordCountStopsPush | tools/lint-pre-push-test-evidence.ts:123-138 | a line with any other number of words stops the push |
| PrePushGate.UnreadableTipStopsPush | tools/lint-pre-push-test-evidence.ts:351-447 | so does a tip that is no sha or about which git fails |
| PrePushGate.ValidateOneCommit | tools/lint-pre-push-test-evidence.ts:263-339 | the loop over the manifest collects each project's violations and one for the missing files |
| PrePushGate.ValidateProject | tools/lint-pre-push-test-evidence.ts:263-339 | a fragment is called malformed iff it is torn, failed iff its exit code, its failures or its flag say so, and unannotated iff its counter does |
| PrePushGate.MissingHaveNoFile | tools/lint-pre-push-test-evidence.ts:263-339 | a project is missing iff the manifest names it and its file is not there |
| PrePushGate.NoViolationsIffPassing | tools/lint-pre-push-test-evidence.ts:263-339 | no violation iff every manifest project has a whole, matching, passing fragment |
| PrePushGate.DecideRefs | tools/lint-pre-push-test-evidence.ts:351-447 | the loop over refs ends with 1 iff some ref is refused |
| PrePushGate.RunMain | tools/lint-pre-push-test-evidence.ts:351-447 | the exit code for every combination of CI, manifest and input |
| PrePushGate.RefOrderDoesNotMatter | tools/lint-pre-push-test-evidence.ts:351-447 | the exit code does not depend on the order of the refs |
| PrePushGate.PushAllowedIffEveryTipPasses | tools/lint-pre-push-test-evidence.ts:351-447 | 0 iff every tip new to the remotes passes |
| PrePushGate.RunDecidesPush | tools/lint-pre-push-test-evidence.ts:263-339 | end to end: after an undisturbed run that covers every manifest project, a push of that tip is accepted iff no manifest project had a failed case or an unannotated per-call skip |
| PrePushGate.HistoryDecidesPush | tools/lint-pre-push-test-evidence.ts:263-339 | over any history of undisturbed runs a push of a new tip is accepted iff every manifest project was covered on it and its last covering run had no failed case and no unannotated per-call skip |
| PrePushGate.AnyHistoryDecidesPush | tools/lint-pre-push-test-evidence.ts:263-339 | over any history, with bailed runs and writes cut short anywhere, what decides about a project is the last run that landed its fragment for the tip: the push is accepted iff for each manifest project there is one and nothing in it blocks |
| PrePushGate.BailedRunChangesNothing | tools/test-evidence-reporter.ts:593-637 | so a run that bails, however many of its cases failed, leaves the gate with the verdict of the runs before it |
| EvidenceSelfTest.FindFragmentProjects | tools/test-evidence-projects-self-test.ts:59-80 | the loop collects the project of every entry that reads as a fragment of the commit |
| EvidenceSelfTest.RunSelfTest | tools/test-evidence-projects-self-test.ts:89-139 | exit code 0 iff the manifest loads, the test command succeeds and every manifest project is found; 2 iff the manifest does not load |
| EvidenceSelfTest.ListingReadsBackProjects | tools/test-evidence-projects-self-test.ts:59-80 | after any history of runs the listing gives exactly the projects written for that sha |
| EvidenceSelfTest.SelfTestSparesMissingProjects | tools/test-evidence-projects-self-test.ts:89-139 | a passing self-test leaves the gate no missing project to report |
| EvidenceSelfTest.ForeignNameIsRead | tools/test-evidence-projects-self-test.ts:59-80 | for a file the reporter did not name, reading back is not exact: another escape of the same name is taken for the project though the gate looks elsewhere |
| PosixPath.RelativeArrives | tools/migrate-tests.ts:87-109 | walking relative(from, to) from `from` arrives at `to` |
| PosixPath.ResolveStep | tools/migrate-tests.ts:87-109 | resolving goes segment by segment: empty and one dot stay, two dots go up and stop at the root, any other name goes down |
| PosixPath.RelativeIsShortest | tools/migrate-tests.ts:95-99 | relative(from, to) is the only shortest path: any other list of segments that leads there is longer |
| MigrateTests.RewritePreservesTarget | tools/migrate-tests.ts:87-109 | for every specifier starting with a dot the rewritten one resolves from the new directory to the same normalised path |
| MigrateTests.RewritesCompose | tools/migrate-tests.ts:87-109 | rewriting A to B and then B to C is, to the letter, rewriting A to C |
| MigrateTests.RewrittenIsRelativeUnlessHidden | tools/migrate-tests.ts:95-99 | the result is a relative specifier iff the target is not a hidden name right below the new directory, where the code mistakes the leading dot for "./" |
| MigrateTests.HiddenSiblingMisread | tools/migrate-tests.ts:95-99 | an import "./.env" of a test that stays where it is loses its "./" |
| MigrateTests.TestFile.RewriteImports | tools/migrate-tests.ts:87-109 | both loops replace every import and export specifier by one that points where it pointed; bare specifiers and absent ones stay |
| MigrateTests.TargetIsSettled | tools/migrate-tests.ts:66-77 | a migrated test is not planned to move again |
| MigrateTests.SourceTestMoves | tools/migrate-tests.ts:66-77 | a test under apps/<a>/src or packages/<a>/src goes to the same place under tests/unit of that workspace, written with or without a leading ./ |
| MigrateTests.OnlySourceTestsMove | tools/migrate-tests.ts:66-77 | and nothing else moves |
| MigrateTests.TargetsAreDistinct | tools/migrate-tests.ts:66-77 | different tests move to different places |
| MigrateTests.MigrationIsIdempotent | tools/migrate-tests.ts:66-77 | re-planning the migrated tree finds nothing |
| MigrateTests.FilesCollideOnlyWithTarget | tools/migrate-tests.ts:117-132 | two files end at one path iff one already stood where the other moves |
| MigrateTests.PlanMoves | tools/migrate-tests.ts:117-132 | one move for each listed path with a target, none twice |
| DocumentOrder.Visit | tools/lint-ui-spec.ts:288-302 | the shift/unshift stack loop calls back in exactly recursive preorder for every forest; the node count of the stack is its measure |
| DocumentOrder.PathOfIsPlace | tools/lint-ui-spec.ts:288-302 | the k-th node of the preorder is the node at the k-th place of the tree |
| DocumentOrder.PreorderIsDocumentOrder | tools/lint-ui-spec.ts:288-302 | preorder visits places in document order: ancestors first, then left to right |
| DocumentOrder.EveryPlaceIsVisited | tools/lint-ui-spec.ts:288-302 | and leaves no place out |
| DocumentOrder.FirstVisitedIsFirstInDocument | tools/lint-ui-spec.ts:496-499 | the first node handed to the callback precedes every other wanted node |
| DocumentOrder.FirstCode | tools/lint-ui-spec.ts:491-500 | the first code block found is the first in the document, and none is found iff there is none |
| UiSpec.CollectScreenSections | tools/lint-ui-spec.ts:188-205 | one section per second-level screen heading, its body up to the next second-level heading |
| UiSpec.ScreensAre | tools/lint-ui-spec.ts:188-205 | a screen is found iff a second-level heading at some place passes the title test, with the nodes up to the next one as its body |
| UiSpec.ScreensAreDisjoint | tools/lint-ui-spec.ts:196-201 | no node belongs to two screens |
| UiSpec.CollectSubsections | tools/lint-ui-spec.ts:215-248 | found holds the line of the first marker of each label, bodies the nodes from its last marker to the next marker of any label |
| UiSpec.SliceRuns | tools/lint-ui-spec.ts:215-248 | a label's body is what stands from its last marker, included, to the next marker of any label |
| UiSpec.SlicesAreDisjoint | tools/lint-ui-spec.ts:215-248 | no node is in two bodies |
| UiSpec.CoveredIffOwnerIsLast | tools/lint-ui-spec.ts:221-225 | a node is in some body iff the label of its marker does not come again further down |
| UiSpec.NothingLostIffNoLabelRepeats | tools/lint-ui-spec.ts:215-248 | the bodies partition everything from the first marker on iff no label repeats |
| UiSpec.RepeatedLabelLoses | tools/lint-ui-spec.ts:221-225 | two markers of one label: the first one's node is in no body |
| CopyKeys.KeysAreFirstUses | tools/lint-ui-spec.ts:405-418 | the shared map knows exactly the keys used so far, each with the place of its first use in any file |
| CopyKeys.NoDuplicateIffUnique | tools/lint-ui-spec.ts:405-418 | no duplicate is reported iff no key is used twice across all files |
| CopyKeys.KeyIndex.Note | tools/lint-ui-spec.ts:402-434 | the callback reports a repeated key with the place of its first use, records a new one, and reports key-shaped tokens outside the schema |
| CopyKeys.KeyIndex.RuleCopyKeys | tools/lint-ui-spec.ts:391-436 | over the screens of a file, exactly the inline-code tokens of the copy-key bodies are noted, in document order, on top of the earlier files |
| CopyKeys.DiagnosticsAre | tools/lint-ui-spec.ts:402-434 | a diagnostic is given iff some token repeats an earlier one, with that one's first place, or is key-shaped outside the schema |
| CopyKeys.ScreenItemsAre | tools/lint-ui-spec.ts:391-436 | the tokens of a screen are exactly the inline-code nodes of its copy-key bodies |
| RedactUrl.HitIsNeeds | packages/byok-guard/src/redact-url.ts:89-103 | a token shape matches at a position iff its head and its minimum of body characters stand there |
| RedactRuns.HitIsGreedy | packages/byok-guard/src/redact-url.ts:89-103 | and its match is the whole run of body characters behind the head, cut only at the shape's maximum |
| RedactRuns.JwtHitIff | packages/byok-guard/src/redact-url.ts:104-118 | a JWT match is three dotted segments, each the whole run up to its cap, with no token character or dot in front |
| RedactRuns.CopiedIffUncovered | packages/byok-guard/src/redact-url.ts:125-131 | a character of the input is copied to the output iff no replaced match covers it |
| RedactRuns.WholeRunIsMasked | packages/byok-guard/src/redact-url.ts:125-131 | so no character of the run behind a replaced head is copied, up to the maximum |
| RedactRuns.KeyAloneIsMasked | packages/byok-guard/src/redact-url.ts:89-131 | a string that is one whole key becomes three stars |
| RedactRuns.MaskIsOrigins | packages/byok-guard/src/redact-url.ts:125-131 | every character of a replacement's output is a star of a mask or the copy of an input character that no match covers, and all of these are copied |
| RedactRuns.SecretsAreGone | packages/byok-guard/src/redact-url.ts:89-131 | after the sweep no key of any of the listed vendors is left, for every input |
| RedactKeys.VendorKeysAreTaken | packages/byok-guard/src/redact-url.ts:89-103 | what each of the nine patterns takes at a place is its vendor's prefix and the whole run behind it, within that vendor's bounds |
| RedactKeys.ClassesAre | packages/byok-guard/src/redact-url.ts:89-103 | the three character classes, by code points |
| RedactKeys.ChangedIffSecret | packages/byok-guard/src/redact-url.ts:125-131 | the sweep changes a string iff it holds a key of one of the vendors, or a JWT |
| RedactUrl.StretchIsCopied | packages/byok-guard/src/redact-url.ts:125-131 | every star-free stretch of a replacement's output was copied from a place where nothing matched |
| RedactUrl.MaskLeavesNone | packages/byok-guard/src/redact-url.ts:125-131 | a replacement leaves no match of its own shape |
| RedactUrl.MaskCreatesNone | packages/byok-guard/src/redact-url.ts:125-131 | and brings together no text that another star-free pattern accepts |
| RedactUrl.SweptHasNoToken | packages/byok-guard/src/redact-url.ts:89-103 | after the sweep none of the nine shapes without a lookbehind matches anywhere, for every input |
| RedactUrl.UnchangedIffNoMatch | packages/byok-guard/src/redact-url.ts:125-131 | the sweep changes a string iff one of the ten shapes matches in it |
| RedactJwt.MaskLeavesNoJwt | packages/byok-guard/src/redact-url.ts:104-118 | no JWT is left where no token run is longer than a JWT segment can be |
| RedactJwt.MaskLeavesJwtIff | packages/byok-guard/src/redact-url.ts:104-118 | the replacement leaves a JWT iff some replaced match ends inside a token run from which another JWT's two remaining segments follow |
| RedactJwt.SweptIsCleanIff | packages/byok-guard/src/redact-url.ts:125-131 | after the whole sweep something still matches, and a second sweep changes it, iff the last replacement uncovers a JWT in that way |
| RedactJwt.SweptIsClean | packages/byok-guard/src/redact-url.ts:125-131 | in particular, where no token run is longer than 8192 nothing at all matches in the swept string, and sweeping again changes nothing |
| RedactJwt.CutMatchUncoversJwt | packages/byok-guard/src/redact-url.ts:104-118 | a JWT match cut at 8192 hides another one behind its lookbehind, and the replacement leaves that one |
| RedactJwt.SweepUncoversJwt | packages/byok-guard/src/redact-url.ts:125-131 | the whole sweep of that string leaves a JWT, and a second sweep masks it |
| RedactUrl.SweepBearerShapes | packages/byok-guard/src/redact-url.ts:125-131 | the loop is the ordered sweep, with the two guarantees above for every input |
| SpdxHeader.BothStylesAreProper | tools/spdx-header.ts:39-71 | both header styles meet what the proofs ask of one |
| SpdxHeader.ApplyEstablishesHeader | tools/spdx-header.ts:144-173 | after applyHeader, hasHeader holds, for every text and both styles |
| SpdxHeader.HeaderStands | tools/spdx-header.ts:144-173 | the header line is the first, or the second below a shebang, and nothing is changed iff it stood there |
| SpdxHeader.StylesAre | tools/spdx-header.ts:39-71 | both styles name the new licence and know the old one's line as stale |
| SpdxHeader.ApplyIsIdempotent | tools/spdx-header.ts:144-173 | applying twice is applying once, and applying changes nothing iff the header is there |
| SpdxHeader.ApplyKeepsContent | tools/spdx-header.ts:144-173 | shebang and all other lines are kept except one stale line in the header slot; at most a final newline is added, exactly for a file that ends in the slot |
| SpdxHeader.ScanForNul | tools/spdx-header.ts:125-133 | a file is binary iff a NUL byte is among its first 8192 bytes |
| SpdxHeader.BytePathAgrees | tools/spdx-header.ts:330-358 | the byte path gives what the text path gives if the file opens with a current or stale header line, and refuses iff it does not |
| SpdxFiles.FixBytesIs | tools/spdx-header.ts:330-358 | on bytes: kept iff the header is in front, refused iff neither it nor a stale one is, and otherwise the header in front of what stood behind the stale one |
| SpdxHeader.ApplyKeepsTextual | tools/spdx-header.ts:318-365 | applying the header to a text makes no file look binary |
| Utf8Decoding.DecodeOfUtf8 | tools/spdx-header.ts:359 | decoding what was encoded gives the text back, for every text (section 3.9 of the Unicode Standard) |
| Utf8Decoding.DecodeBehindText | tools/spdx-header.ts:359 | whole characters in front of any bytes, valid or not, decode to themselves |
| Utf8Decoding.WholeCharIsRead | tools/spdx-header.ts:359 | where the bytes of a character stand, one step of the decoder reads that character |
| Utf8Decoding.BrokenCharIsReplaced | tools/spdx-header.ts:359 | where no character stands, one replacement character takes the place of the longest run of bytes that begins one |
| Utf8Decoding.NulWasThere | tools/spdx-header.ts:359 | replacing malformed bytes moves no NUL towards the front and makes none |
| SpdxFiles.FixBinary | tools/spdx-header.ts:337-357 | the loop over the stale headers with its rewritten flag gives the byte path's outcome |
| SpdxFiles.FixOne | tools/spdx-header.ts:330-364 | one turn of the file loop takes the byte path iff the NUL scan says binary, and decodes otherwise |
| SpdxFiles.FixEach | tools/spdx-header.ts:318-365 | the loop stores each file's outcome, counts the writes and ends at the first refusal, for files of any bytes |
| SpdxFiles.StoredDecodesToApplied | tools/spdx-header.ts:359-364 | on the text path the stored file decodes to applyHeader of the decoded file and does not look binary |
| SpdxFiles.TextFilesAreApplied | tools/spdx-header.ts:318-365 | a file that is the encoding of a text is stored as the encoding of the applied text, whichever path wrote it |
| SpdxFiles.BytesSurviveIffUtf8 | tools/spdx-header.ts:359-364 | a file that gets its header in front keeps its own bytes iff they are UTF-8; the text path writes the decoded text back |
| SpdxFiles.InvalidByteIsLost | tools/spdx-header.ts:359-364 | a one-byte file that shows the loss |
| SpdxFiles.SecondFixKeeps | tools/spdx-header.ts:30-31 | every file the first run did not refuse is left alone by the second, across both paths and for any bytes |
| SpdxFiles.FixedFilesPassAudit | tools/spdx-header.ts:299-316 | a stored file passes the audit, and every file the audit missed is written |
| SpdxFiles.SecondRunChangesNothing | tools/spdx-header.ts:30-31 | a second run over the stored files writes nothing |
| SpdxFiles.SecondHashFixKeeps | tools/spdx-header.ts:259-283 | the hash-style twin, which skips binary files, writes exactly the files its audit misses and leaves them alone afterwards |
| DeadExports.ImportIndex.AddImporters | tools/lint-prod-readiness.ts:683-708 | the nested loops fill the two sets and the unresolved list from every edge of every importer |
| DeadExports.LiveIsIndexed | tools/lint-prod-readiness.ts:697-714 | an export that a production import takes by name, by wildcard or bare is never reported dead |
| DeadExports.IndexAgreesWithSearch | tools/lint-prod-readiness.ts:710-714 | for names without a colon, an export is found in the index iff the direct search finds such an import |
| DeadExports.AlwaysAgreesIffSplitsOnce | tools/lint-prod-readiness.ts:705 | the string key is right about an export whatever the imports are iff it splits at no other "::" into a path and a name |
| DeadExports.ColonPathMisleads | tools/lint-prod-readiness.ts:705 | next to a file apps/a.ts::b.ts, a file that imports the name "b.ts::c" from apps/a.ts keeps the first one's dead export c off the report |
| DeadExports.OrdinaryExportsAgree | tools/lint-prod-readiness.ts:710-721 | for exports without a colon in path and name the report is that of the direct search, whatever the imports |
| DeadExports.MoreImportsKeepIndexed | tools/lint-prod-readiness.ts:700-706 | no import added anywhere takes an export out of the index, ambiguous keys included |
| DeadExports.MoreImportersShrinkReport | tools/lint-prod-readiness.ts:683-721 | more importers, listed anywhere, only take findings off the report |
| DeadExports.TestImportersChangeNothing | tools/lint-prod-readiness.ts:683-721 | test importers, listed anywhere, leave the report as it is |
| DeadExports.DeadFindingsAgree | tools/lint-prod-readiness.ts:710-721 | the reported exports, in order, are those of the direct search |
| DeadExports.ReportIff | tools/lint-prod-readiness.ts:697-721 | for unambiguous keys a finding is reported iff it is that of an export that no production import takes |
| DeadExports.UnresolvedAre | tools/lint-prod-readiness.ts:683-708 | an unresolved import is reported iff it is a production workspace import that leads nowhere |
| DeadExports.ReportsJoin | tools/lint-prod-readiness.ts:683-721 | both reports go through the uses and the exports in order, one by one |
| DeadExports.ListsPartition | tools/lint-prod-readiness.ts:740-749 | violations and allowlisted together are all findings, each once |
| DeadExports.AllowKeyIsInjective | tools/lint-prod-readiness.ts:746-747 | an allowlist entry covers one line of one file only |
| DeadExports.AllowlistCoversPlaces | tools/lint-prod-readiness.ts:740-749 | an allowlist written as file:line entries moves exactly the findings at those places to the allowlisted ones |
| DeadExports.Bundle.PushFinding | tools/lint-prod-readiness.ts:740-749 | a finding goes to the list its key selects |
| DeadExports.FindViolations | tools/lint-prod-readiness.ts:659-724 | the pass pushes route findings, dead exports and unresolved workspace imports, split by the allowlist |
| ByokGuard.BootsIffSatisfied | packages/byok-guard/src/index.ts:341-376 | the guard returns iff the mode is k8s or every required key is set, the TLS path for https and SMTP in production included |
| ByokGuard.GuardIs | packages/byok-guard/src/index.ts:341-376 | otherwise it refuses at the first row in the matrix that is not content, naming exactly the keys that row asks for |
| ByokGuard.SentinelNeverDecides | packages/byok-guard/src/index.ts:204-220 | the observability row passes iff the value is not blank: the disabled sentinel never decides |
| ByokGuard.RefusalNamesBlankKeys | packages/byok-guard/src/index.ts:356-376 | a refusal names a non-empty list of keys, all blank, all from the earliest unsatisfied row |
| ByokGuard.FixLowersRank | packages/byok-guard/src/index.ts:299-305 | setting just the named keys strictly lowers the rank and the set of blank matrix keys |
| ByokGuard.AtMostSevenRefusals | packages/byok-guard/src/index.ts:173-305 | every fix-and-retry run has at most seven refusals |
| ByokGuard.SeventhFixBoots | packages/byok-guard/src/index.ts:173-305 | the environment tried after seven refusals boots, whatever the values were, and a run refused at its last environment is shorter than its rank allows |
| ByokGuard.SevenRefusalsAreReached | packages/byok-guard/src/index.ts:173-305 | a bare production environment behind https is refused seven times and then boots |
| Changelog.HeaderNamesOneVersion | tools/changelog-extract.ts:35-43 | a line is the header of at most one version: 1.2.3 never matches 1.2.30 |
| Changelog.ReleasedIffHeader | tools/lint-changelog.ts:30 | the lint's header expression reads version v from a line iff v is a SemVer and the line starts with its header |
| Changelog.ExtractSection | tools/changelog-extract.ts:33-68 | the loops find the first header, the next header or link line, and trim the blank lines at both ends |
| ChangelogForms.ExtractIs | tools/changelog-extract.ts:33-68 | the section of a version is what stands between its first header and the next header or link line, without its blank ends |
| ChangelogForms.NothingExtracted | tools/changelog-extract.ts:33-46 | and null iff no line is a header of it |
| Changelog.ExtractsIffReleased | tools/changelog-extract.ts:33-46 | for a SemVer tag a section is extracted iff the lint lists the version |
| Changelog.ExtractOfRender | tools/changelog-extract.ts:33-68 | from a changelog written section by section, extraction gives the body of the first section with the title, without blank ends |
| Changelog.ExtractOfText | tools/changelog-extract.ts:33-68 | the same from the text of the file |
| Changelog.ExtractOfMissing | tools/changelog-extract.ts:44-46 | and null where no section has the title |
| Changelog.ParseReleasedVersions | tools/lint-changelog.ts:50-59 | the versions of all released headers in file order |
| ChangelogForms.ReleasedAre | tools/lint-changelog.ts:50-59 | read off the lines: one version for each line that opens with a bracketed SemVer header, in order |
| ChangelogForms.AppVersionStands | tools/lint-changelog.ts:31-47 | the app version read from a chart stands in it behind its key, bare or quoted |
| Changelog.AppVersionOfLine | tools/lint-changelog.ts:44-47 | the version on the first appVersion line of a chart, quoted or not, is read back |
| Changelog.Lint | tools/lint-changelog.ts:62-117 | the failures of the four checks in order, and exit code 0 iff there are none |
| ChangelogForms.FailuresAre | tools/lint-changelog.ts:62-117 | which failure is given when, read off the changelog's lines |
| Changelog.LintPassesIff | tools/lint-changelog.ts:62-117 | no failure iff there are an Unreleased header and a release, every released header is dated, every released version is linked, and the newest one is the chart's |
| Changelog.LintedMeansExtractable | tools/lint-changelog.ts:73-107 | if the lint passes, the chart version is the newest released one and extraction finds its section and every released version's |

## Left out

- File system, git, glob, Docker, helm and process exit: only the file map of the evidence directory, the answer of git about a tip, directory listings and file contents as inputs.
- Parsing of TypeScript and Markdown: call sites, import edges, exports, node trees, and the tests for headings, markers and copy-key tokens are given data or function parameters.
- Symlink and path-escape checks in the reporter and the validator: they concern the host, not the gate's decision.
- JSON: a fragment in a file is whole or torn; a foreign JSON value of another shape, and the fields schema and generated_at, are not modelled.
- UTF-16: unpaired surrogates, on which encodeURIComponent throws. Lengths count UTF-16 units, but the half of a surrogate pair that the error-message limit can leave at the end is not modelled: the whole pair goes.
- The rest of the API server, the forbidden-key sweep and tenant checks inside recordAudit; of the bearer-token request its body and token checks, its replies, the workspace rename and its audit row, none of which touches the claim.
- The transaction around the claiming UPDATE: it holds one statement, so it is one step.
- Grouping of insertions by file in applyInsertions, the audit manifest it writes, and the file globs of all tools: each file is handled on its own.
- The part of redactUrl that takes a URL apart, and its query-parameter names; only the bearer-shape sweep is modelled.
- The order of the reported findings: sort by file, line and label in lint-prod-readiness, and localeCompare in planMoves.
- MigrateTests.TestFile.RewriteImports: states the two specifier loops; what ts-morph's own move does to other files is its library's matter.
- MigrateTests.RewritePreservesTarget: states that the normalised path is kept; a trailing slash, which makes a specifier a directory's, is not, so a resolver that tries utils.ts before utils/index.ts may pick another file than for ./utils/.
- CodemodSkipAnnotations.SecondRunInsertsNothing: call sites are indices into the lines split at line feeds; TypeScript also counts a lone carriage return, U+2028 and U+2029 as line ends, and in a file with one of them the placeholder can land below its call and a second run insert again.
- The hint text of a refusal of the boot guard and its log record.
- EvidenceSelfTest.ListingReadsBackProjects: states exactness for directories that only the reporter wrote, see ForeignNameIsRead.
- Flat line scanners, YAML and compose audits, configuration and mock servers: they yield one-branch facts.
