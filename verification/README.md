# Verified models of the repository's concurrent, rewriting and bookkeeping cores

The project models six parts of the repository and proves what they are for.

**The publish scheduler** (`scripts/ci-release-publish.ts`). Pack and publish jobs run over a FIFO counting semaphore
with slot hand-off and a per-key promise-chain mutex. `PublishRunner` is a state machine: one step is what a job does
between two awaits, any schedule is allowed, the outcome of each job's own pack and publish is fixed by the job.
`PublishProgress` proves what every schedule keeps, that none gets stuck although packers hold a slot while they wait for
their lock, and that the returned list does not depend on the schedule; `PublishHistory` what each job has done by then:
which sections it entered, and how many slots it was given. `PublishAcyclic` is the depth-first guard in front;
`PublishRun` is the runner as a class whose every step is shown to be a step of the machine.

**The inliner** (`scripts/inline-functions.ts`), strict mode. `InlineLanguage` gives a fragment of JavaScript its meaning:
state, effects in order, throws, early return and the dead zone of block locals, with the operators of ECMA-262 sections
13.10, 13.11 and 13.13 over arbitrary coercions. `InlineGuards` shows guard inversion exact on trees, `InlineText` that the
written text parses back to that tree, `InlineScope` that substitution keeps behaviour, `InlineEdits` and `InlineSource`
that editing the text in place from the back is substitution on the tree, and `InlineTheorem` that a replaced call site
behaves exactly as the call. `InlineRewrite` holds the rewriting loops and two inputs on which the tool's output behaves
differently, `InlineFree` the flat computation of free names and a third.

**The changelog fixer** (`scripts/fix-changelogs.ts`). Texts, lines, documents and items (`ChangelogText`, `-Lines`,
`-Document`, `-Items`, `-Cut`, `-Bytes`), the parser and printer, their round trip and the layout (`-Render`, `-RoundTrip`,
`-Layout`), the diff-driven selection of promotable lines, as a scan (`-Pairing`, `-Diff`, `-Hunks`) and read off the rows of
the text (`-Rows`), promotion and normalisation as a specification (`-Promotion`, `-Fix`) and as the walk that inserts a
section in front of the one it visits (`-Fixer`), what the specification means (`-Order`, `-Versions`, `-Kept`, `-Titles`,
`-Gains`, `-Places`, `-Unreleased`), text to text (`-Content`, `-Output`), and the byte-budgeted collapse of the tail
(`-Tail`).

**The Go RPC client** (`go/omp-rpc`). Each section under the client's mutex is one step. `ClientCorrelation` and
`ClientRequests` cover which request a response answers and what every run does to the request table, `ClientResults` what
the request is sent; `ClientEvents` and `ClientWakeup` the trimmed event log, its collectors and the one-slot wake-up channel,
`ClientTurns` what a collector returns; `ClientIdle` waiting until all runs have completed, `ClientCallbacks` host callbacks
against closing.

**Clone detection** (`scripts/cleanup-scan.ts`). `CloneUnionFind` is the union-find class with path compression,
`CloneScan` the clustering of equal windows, `CloneRuns` and `CloneRegions` the merging of windows into regions.

**Samples and top lists**. `ReservoirDraws`, `ReservoirUniform` and `Reservoir` are reservoir sampling
(`scripts/tool_io.py`), counted over every outcome of the random draws; `StableSort` and `TopResults` the batched list of
largest tool results (`scripts/session-stats/audit.ts`).

Where the source changes state step by step the model is a class or a method with loops, proved against a function; the
properties are lemmas about those functions. Files are named after their modules. Automatic induction is switched off on
every lemma, so each proof is exactly the steps written in it.

## Findings

Seven things the code or its comments promise are not true of the code on all inputs. The model keeps the code.

- Strict inlining is documented as exact call semantics. Flipping `<`, `>`, `<=`, `>=` is a complement exactly on ordered
  operands: for one comparator `InlineGuards.FlipExact` and for a whole guard that is one comparison
  `InlineGuards.ComparisonGuardExact` say so in both directions, `InlineGuards.NaNGuardIsNotInverted` is an input.
- Temporaries and renamed locals are compared with the names of the caller's block, not with the free names of the helper
  (scripts/inline-functions.ts:772-785, 874). `InlineRewrite.TemporaryMayCapture` is a helper whose module variable is
  captured. The theorem requires the introduced names to be new to the helper's body.
- A guard that names a local of the tail throws in its dead zone; moved out of the block that declares the local it no
  longer does. `InlineRewrite.GuardMayMeetLocal` is an input. The theorem requires that guards name no such local.
- Free names are computed over the whole helper at once: mentioned somewhere and bound nowhere
  (scripts/inline-functions.ts:419-451). A name that is bound in one nested scope and free in another is missed, and the
  call site may shadow it: `InlineFree.ShadowedNameEscapes`. What is missed is exactly the free names that are bound in the
  helper as well (`InlineFree.FlatMisses`), so the check is right at every call site if and only if there are none
  (`InlineFree.ShadowCheckIff`). The theorem requires that no free name is shadowed.
- `WaitForIdle` is documented to wait for all scheduled runs to complete. The counter of scheduled runs rises only after the
  response, so the counter of completed runs can be ahead when they are compared; the waiter then watches for one more
  agent_end and sleeps on when everything has completed (go/omp-rpc/lifecycle.go:157-170): `ClientIdle.StrandedFromStart`.
  Exactly when, whatever the others do: `ClientIdle.StalledIff`. Late responses alone strand it if and only if the
  comparison found more runs completed than scheduled (`ClientIdle.LateAnswersStrandIff`), and a waiter during whose wait no
  response is counted always returns (`ClientIdle.UndisturbedReturns`).
- A failure reported between the response to a prompt and the moment `Prompt` clears the previous error is cleared with it
  (go/omp-rpc/commands.go:283-288); `ClientWakeup.ErasedFromStart` is a run from the client's first state after which the
  collector waits on. Exactly which failures arrive, over every run: `ClientWakeup.FailureArrivesIff`.
  `ClientWakeup.ClearingFirstLosesNothing` says what clearing before the request would give.
- Finishing a callback deletes whatever is registered under its id. When an id is reused while in flight, a callback can
  be live and out of reach of closing: `ClientCallbacks.ReusedIdEscapes`. Exactly which callbacks escape, over every run:
  `ClientCallbacks.EscapesIff`. So none does when no callback deletes another's entry
  (`ClientCallbacks.EveryLiveCallbackCancelled`), and with distinct ids in flight none deletes another's
  (`ClientCallbacks.DistinctIdsAreCancelled`).

## Model

| member | source | states |
|---|---|---|
| PublishAcyclic.AssertAcyclic | scripts/ci-release-publish.ts:534-546 | Terminates on every graph and returns normally exactly when the dependencies among known names have no cycle, self-dependencies included; the chain in a thrown error is a walk whose last name occurred before. |
| PublishAcyclic.CycleGuard.Visit | scripts/ci-release-publish.ts:537-544 | A visit that returns leaves the marks consistent and the name finished; one that throws names a walk that repeats its end. |
| PublishAcyclic.CycleGuard.VisitDependencies | scripts/ci-release-publish.ts:542 | All known dependencies of the name are finished afterwards, or a repeating walk is reported. |
| PublishAcyclic.RepeatingMeansCycle | scripts/ci-release-publish.ts:540 | Every reported chain contains a real cycle, even when it starts outside it. |
| PublishGraph.OrderedMeansAcyclic | scripts/ci-release-publish.ts:541-543 | When all names were finished, each after its dependencies, there is no cycle. |
| PublishJobs.StuckSetHasCycle | scripts/ci-release-publish.ts:573-574 | Jobs that only wait for each other contain a dependency cycle. |
| PublishSlots.Semaphore.Acquire | scripts/ci-release-publish.ts:517-523 | Enters at once while a slot is free, queues behind earlier callers otherwise; arrivals and grants are recorded in order. |
| PublishSlots.Semaphore.Release | scripts/ci-release-publish.ts:527-529 | Hands the slot to the longest waiting caller without freeing it, or frees it when nobody waits. |
| PublishSlots.EnterKeepsOk | scripts/ci-release-publish.ts:513-523 | Entering keeps: never over the limit, a queue only when full, callers served exactly in order of arrival. |
| PublishSlots.LeaveKeepsOk | scripts/ci-release-publish.ts:524-530 | Leaving keeps the same. |
| PublishSlots.KeyedMutex.Join | scripts/ci-release-publish.ts:393-395 | A caller chains itself behind the tail it found and becomes the key's tail. |
| PublishSlots.KeyedMutex.Release | scripts/ci-release-publish.ts:399-401 | Leaving a section, normally or by a throw, resolves exactly that caller's promise. |
| PublishSlots.ReadyIsFirst | scripts/ci-release-publish.ts:396 | The awaited tail is resolved exactly when everyone who arrived earlier for the key has left. |
| PublishSlots.OneInside | scripts/ci-release-publish.ts:386-403 | At most one caller per key may be inside. |
| PublishRun.Run.Step | scripts/ci-release-publish.ts:566-588 | What a job does until its next await, slot and lock nesting included, is the step of the state machine. |
| PublishRun.Run.Resume | scripts/ci-release-publish.ts:589 | Whatever job the event loop resumes, it makes one enabled step of the machine, the invariant holds again and the remaining work has shrunk. |
| PublishRun.RunPublishJobs | scripts/ci-release-publish.ts:557-591 | Refuses exactly the cyclic job lists; otherwise it ends under every choice of the scheduler and returns, in input order, the jobs whose own pack or publish throws and everything that transitively depends on them. The run it made is a complete schedule of the state machine under the limit max(1, concurrency). |
| PublishProgress.StepKeepsInv | scripts/ci-release-publish.ts:566-588 | Every enabled step keeps the invariant of slots, locks and per-job progress. |
| PublishProgress.HolderMoves | scripts/ci-release-publish.ts:442-444 | While a slot is held some slot holder can move, although packers hold theirs while queued on a lock. |
| PublishProgress.NeverStuck | scripts/ci-release-publish.ts:557-591 | In every reachable state with an unsettled job some awaited promise is resolved. |
| PublishProgress.ScheduleBounded | scripts/ci-release-publish.ts:566-589 | No schedule, under any limit, is longer than 14 steps per job. |
| PublishProgress.EveryRunCompletes | scripts/ci-release-publish.ts:589 | Every run can be carried on until all jobs have settled. |
| PublishProgress.PublishesAfterPrerequisites | scripts/ci-release-publish.ts:573-580 | In every reachable state a job that publishes, or has, saw every in-set prerequisite publish first. |
| PublishProgress.SettledMeansDoomed | scripts/ci-release-publish.ts:575-587 | A settled job succeeded exactly when neither it nor a transitive prerequisite throws by itself. |
| PublishProgress.ResultIsScheduleFree | scripts/ci-release-publish.ts:590 | Two complete runs under any schedules and any limits report the same names. |
| PublishProgress.SlotsInEveryRun | scripts/ci-release-publish.ts:513-532 | In every reachable state the running and handed-off sections number `active`, within the limit; waiters exist only when it is full and are served in order of arrival. |
| PublishProgress.LocksInEveryRun | scripts/ci-release-publish.ts:389-403 | In every reachable state whoever is inside a keyed section is the first of its line that has not left, and alone. |
| PublishHistory.SectionsInEveryRun | scripts/ci-release-publish.ts:566-588 | In every reachable state a job has entered exactly the sections that belong to its place, each once and in order; a settled one has packed, inside its lock if it has one, and then published, or discarded when a prerequisite is doomed, or neither when its pack threw. |
| PublishHistory.PublishedMeansDone | scripts/ci-release-publish.ts:572-581 | In every run a job that counts as published was inside its publish section before, and inside its pack and lock if it has them, and nothing of that throws. |
| PublishHistory.SlotsTakenInEveryRun | scripts/ci-release-publish.ts:513-532 | In every run a settled job was given one slot for its pack, if it has one, and one for publishing unless its pack threw or a prerequisite is doomed. |
| InlineLanguage.EvalArgsInOrder | scripts/inline-functions.ts:869-871 | The call semantics to reproduce: the first arguments are evaluated first, the others from the state they leave, and a throw stops the rest. |
| InlineGuards.FlipExact | scripts/inline-functions.ts:138-147 | A flipped comparator has the same effects and throws, and the opposite truth value exactly when the operands are ordered; equality always has. |
| InlineGuards.NegateMeans | scripts/inline-functions.ts:315-345 | The inverted form of any nest of negations, conjunctions, disjunctions, comparators and effectful atoms runs the same effects in the same order with the opposite truth value, when no flipped comparator meets unordered operands. |
| InlineGuards.ComparisonGuardExact | scripts/inline-functions.ts:326-329 | A guard that is one comparison is inverted exactly if and only if its operands are ordered. |
| InlineGuards.NaNGuardIsNotInverted | scripts/inline-functions.ts:138-147 | On `NaN < 1` the guard does not return, and the inverted condition does not run the tail either. |
| InlineGuards.CombineGuardsDecides | scripts/inline-functions.ts:352-356 | The combined condition is true exactly when no sequential guard would return, with the same effects and throws. |
| InlineText.NegateTextDenotes | scripts/inline-functions.ts:315-349 | The text written for an inverted guard is that of a tree a parser produces, and the precedence kept with it never overstates. |
| InlineText.ParseWhole | scripts/inline-functions.ts:315-356 | Parsing the text of any well-parsed tree gives the tree back, associativity and precedence included. |
| InlineText.CombinedTextParses | scripts/inline-functions.ts:352-356 | The parenthesised text for a list of guards parses to the intended condition. |
| InlineText.WrittenConditionDecides | scripts/inline-functions.ts:303-356 | Read back, the written condition holds exactly when no guard returns, with the same effects in the same order. |
| InlineNames.FreshName | scripts/inline-functions.ts:501-507 | The name is not taken; it is the base itself when that is free, and otherwise the base with the least free number from 2 on. |
| InlineNames.FindFreshName | scripts/inline-functions.ts:501-507 | The unbounded search for a free number ends, with that name. |
| InlineScope.EvalSame | scripts/inline-functions.ts:883-888 | An expression with its references replaced evaluates alike in a frame that holds the same values under the new names. |
| InlineScope.ExecScopeSame | scripts/inline-functions.ts:809-818 | So does a whole scope, inner declarations that shadow included: same control outcome, same effects. |
| InlineExact.PrefixExact | scripts/inline-functions.ts:848-881 | The hoisted prefix has the effects and throws of evaluating the arguments left to right, and leaves each used parameter's value in its temporary. |
| InlineStrict.GuardsThenTail | scripts/inline-functions.ts:654-663 | A body runs its leading guards and then, if none returned or threw, its tail. |
| InlinePlan.PlanShape | scripts/inline-functions.ts:846-881 | Temporaries are pairwise different, not taken in the block, and exactly what the prefix declares; exactly the used parameters are replaced. |
| InlinePlan.RenamedShape | scripts/inline-functions.ts:793-823 | Every local of a guardless tail gets its own name, none of them taken. |
| InlineTheorem.InliningIsExact | scripts/inline-functions.ts:837-900 | For every world, helper, argument list and state: the strict-mode replacement ends as the call does, with the same effects in the same order, the same globals, and the same value for every name but those it declares, none of which the caller's block has. |
| InlineFree.FlatMisses | scripts/inline-functions.ts:419-451 | What the tool calls free is short of exactly those free names that some scope of the helper binds as well. |
| InlineFree.ShadowCheckIff | scripts/inline-functions.ts:490-499 | The shadow check is right at every call site if and only if no free name of the helper is bound in it as well. |
| InlineFree.ShadowedNameEscapes | scripts/inline-functions.ts:419-499 | A helper and a block on which the check passes although the block shadows a free name, and the tool's output logs another value than the call. |
| InlineEdits.SubText | scripts/inline-functions.ts:293-301 | Splicing a node's edits into its text from the back, in whatever order they were found, gives the text read from left to right with each edited span replaced once. |
| InlineEdits.RewrittenParts | scripts/inline-functions.ts:321-328 | Where no edit reaches across, a text may be rewritten part by part, as the inverter does with operands. |
| InlineSource.TextSubstitution | scripts/inline-functions.ts:883-899 | Rewriting the references in the source text of any statements, nested scopes that shadow them included, gives the source text of the statements with the substitution applied to their tree. |
| InlineRewrite.Partition | scripts/inline-functions.ts:654-663 | The loop splits a body into its longest run of leading guards and the rest. |
| InlineRewrite.HoistArguments | scripts/inline-functions.ts:848-881 | The loop over the parameters builds the planned prefix, replacements and reserved names. |
| InlineRewrite.RenameCollidingLocals | scripts/inline-functions.ts:798-821 | The loop over the locals picks the planned names. |
| InlineRewrite.BuildReplacement | scripts/inline-functions.ts:837-900 | Builds the replacement the exactness theorem is about. |
| InlineRewrite.TemporaryMayCapture | scripts/inline-functions.ts:772-785 | With a module variable named like a temporary, the tool's output logs other values than the call. |
| InlineRewrite.GuardMayMeetLocal | scripts/inline-functions.ts:890-895 | With a guard that names a local of the tail, the call throws and the tool's output does not. |
| ChangelogText.BulletForm | scripts/fix-changelogs.ts:124-126 | A line is an item line iff it is white space, a hyphen and a space, and whatever follows. |
| ChangelogText.ReleaseForm | scripts/fix-changelogs.ts:107-118 | A line is a release heading with a title iff it is `## [`, the title, which is not empty and has no closing bracket, `]`, and whatever follows. |
| ChangelogText.SubForm | scripts/fix-changelogs.ts:111-122 | A line is a subsection heading with a title iff it is `###`, white space, the title, which has none at its ends, and white space. |
| ChangelogLines.UnifyEnding | scripts/fix-changelogs.ts:132-138 | Each line feed, carriage return, or pair of the two becomes one line feed, and the texts around it are unified by themselves. |
| ChangelogDocument.ParseChangelog | scripts/fix-changelogs.ts:144-173 | The parsing loops yield the document that the recursive reading of the lines denotes. |
| ChangelogDocument.ParseReleaseSection | scripts/fix-changelogs.ts:175-207 | A release body is cut at its subsection headings, the lines before the first one kept apart. |
| ChangelogDocument.TrimBlankLines | scripts/fix-changelogs.ts:209-215 | Takes off exactly the blank lines at both ends. |
| ChangelogRender.RenderChangelog | scripts/fix-changelogs.ts:509-536 | Pushing and popping lines writes the document with one empty line between its parts and none at the end. |
| ChangelogLayout.HeadingsStandAlone | scripts/fix-changelogs.ts:509-536 | From the first release on, every heading of a written changelog has an empty line, or nothing, directly above and below it. |
| ChangelogRoundTrip.ParseRendered | scripts/fix-changelogs.ts:144-207 | Parsing a rendered well-formed document gives it back, up to line numbers, outer blank lines and empty subsections. |
| ChangelogRoundTrip.ParsedIsWellFormed | scripts/fix-changelogs.ts:144-207 | Whatever the text, what was parsed from it is well-formed. |
| ChangelogRoundTrip.RenderParseIsStable | scripts/fix-changelogs.ts:509-536 | For every text, rendering what was parsed is a fixed point after one application. |
| ChangelogItems.AppendedKeys | scripts/fix-changelogs.ts:225-239 | Appending text that starts with a bullet appends its items and changes no other. |
| ChangelogItems.AppendedShape | scripts/fix-changelogs.ts:225-239 | Appended text follows the text before it, both without outer blank lines, with one empty line in between unless two item lines meet. |
| ChangelogItems.CompactKeys | scripts/fix-changelogs.ts:366-384 | Compacting keeps every item in order, and leaves nothing only of blank text. |
| ChangelogPlaces.ItemsAreFrom | scripts/fix-changelogs.ts:241-271 | There is one item for each item line, in order; it reaches up to the next one. |
| ChangelogPlaces.ParsedFromText | scripts/fix-changelogs.ts:132-207 | Every line of a parsed document is the line of the text that its number says. |
| ChangelogPlaces.ItemsBegin | scripts/fix-changelogs.ts:241-271 | The items with a starting line and text are exactly those that begin at an item line of that number and end before the next. |
| ChangelogCut.ParseItems | scripts/fix-changelogs.ts:241-271 | Every item reaches from its bullet to the next; lines before the first bullet belong to none. |
| ChangelogCut.FilterIsCut | scripts/fix-changelogs.ts:273-281 | Removing the line ranges of chosen items removes exactly their lines, as numbers increase. |
| ChangelogCut.CutItems | scripts/fix-changelogs.ts:632-636 | What remains after removal are exactly the other items, unchanged and in order. |
| ChangelogPromotion.AddAllKeys | scripts/fix-changelogs.ts:638-645 | Items that were under a title stay in front, in order; everything behind them was promoted from the same title. |
| ChangelogPromotion.AddedAreThere | scripts/fix-changelogs.ts:640-643 | Every promoted item is under its title afterwards, added now or there before. |
| ChangelogPromotion.NormalSectionKeys | scripts/fix-changelogs.ts:386-426 | Normalising a section, merging and sorting its subsections, keeps the items under every title, in order. |
| ChangelogGains.AddAllGains | scripts/fix-changelogs.ts:638-645 | Under every title exactly those promoted items are added, in order and each once, that the title's last subsection does not have yet. |
| ChangelogKept.NormalSectionLines | scripts/fix-changelogs.ts:364-426 | Normalising any section, whatever it consists of, loses no line under any title that is not blank, and keeps their order. |
| ChangelogTitles.NormalTitles | scripts/fix-changelogs.ts:394-416 | Normalising leaves one subsection per title that has content, in the order in which the titles first have any. |
| ChangelogTitles.NormalOrder | scripts/fix-changelogs.ts:418-425 | In Unreleased they then stand as Breaking Changes, Added, Changed, Fixed, Removed, others last in their order; in a release they stay. |
| ChangelogTitles.CompactIsTight | scripts/fix-changelogs.ts:366-384 | Text that begins with an item is compacted to its items, with no blank line above any of them. |
| ChangelogFixer.DropUnreleasedDuplicates | scripts/fix-changelogs.ts:317-336 | Takes out of the first Unreleased section exactly the items that a released section or the history has. |
| ChangelogFixer.NormalizeSection | scripts/fix-changelogs.ts:386-426 | The map-driven merge leaves one subsection per title, where the title first had content. |
| ChangelogFixer.SecondVisitIsHarmless | scripts/fix-changelogs.ts:628-647 | The section that the iterator meets again, because one was inserted in front of it, has nothing left to promote. |
| ChangelogFixer.PromoteItems | scripts/fix-changelogs.ts:628-647 | Walking a list that grows at its front while it is walked promotes from every released section exactly once. |
| ChangelogFixer.FixSections | scripts/fix-changelogs.ts:622-657 | Dropping, promoting, normalising and sorting as the code does it is the specified fix. |
| ChangelogFix.ReleasedKeepsRest | scripts/fix-changelogs.ts:631-646 | A released section is in the result with its other items under every title in text and order, and without the promotable ones. |
| ChangelogFix.PromotedArrives | scripts/fix-changelogs.ts:638-645 | Each promotable item sits in an Unreleased section of the result under its old title. |
| ChangelogFix.ReceiverGets | scripts/fix-changelogs.ts:638-645 | The receiving section keeps its own items first and gains nothing but the promoted items, each under its title. |
| ChangelogOrder.FixedInOrder | scripts/fix-changelogs.ts:456-462 | The result has the sections of the input, and an Unreleased one in front if one had to be created: Unreleased ones first, in their order, then the releases from the most recent on, equal ones in their order. |
| ChangelogVersions.CompareDesc | scripts/fix-changelogs.ts:445-454 | The comparison of two titles made of numbers is negative exactly when the left one is newer, by the first part in which they differ, missing parts counting as zero. |
| ChangelogVersions.RankAgrees | scripts/fix-changelogs.ts:445-454 | That comparison is a consistent order: for any set of such titles there is a rank that is greater exactly for the newer one. |
| ChangelogVersions.NewestFirst | scripts/fix-changelogs.ts:456-462 | Ordered by that rank, no release stands before a newer one. |
| ChangelogUnreleased.PromotedByLine | scripts/fix-changelogs.ts:628-645 | What is promoted under a title are exactly the items of released sections, in a subsection of that title, that begin at a line to be promoted. |
| ChangelogUnreleased.UnreleasedGets | scripts/fix-changelogs.ts:317-336 | The first section of the result is Unreleased; under every title it has exactly the items it had, in order, without those that are released or in the history, and then those promoted that it does not have yet. |
| ChangelogFix.SortedElements | scripts/fix-changelogs.ts:456-462 | Ordering the sections loses and repeats none. |
| ChangelogFix.NothingLost | scripts/fix-changelogs.ts:617-666 | With no history and every subsection starting with a bullet, every item is still in the fixed document. |
| ChangelogContent.FixChangelogContent | scripts/fix-changelogs.ts:617-666 | The text returned is the rendering of the specified fix of the parsed text. |
| ChangelogContent.FixedTextParses | scripts/fix-changelogs.ts:617-666 | Parsing the returned text gives the fixed document, so no promoted line turned into a heading or left its section. |
| ChangelogContent.NoItemTextLost | scripts/fix-changelogs.ts:617-666 | Text to text: every item text of the input is an item text of the output. |
| ChangelogContent.PromotedTextArrives | scripts/fix-changelogs.ts:638-645 | Text to text: a promotable item of a released section stands in an Unreleased section of the output under its old title. |
| ChangelogContent.ReleasedTextKeepsRest | scripts/fix-changelogs.ts:631-646 | Text to text: the output has every released section, with exactly its other items under every title, in text and order. |
| ChangelogOutput.OutputInOrder | scripts/fix-changelogs.ts:456-462 | Text to text: the order of the sections in the output, as for the document. |
| ChangelogOutput.OutputPrefix | scripts/fix-changelogs.ts:617-666 | Text to text: the text in front of the first release stays. |
| ChangelogOutput.UnreleasedTextHas | scripts/fix-changelogs.ts:317-336 | Text to text: an item is in the first section of the output iff it was in the Unreleased section and neither a release nor the history has it, or it was promoted. |
| ChangelogOutput.BulletIsPromoted | scripts/fix-changelogs.ts:628-645 | Text to text: an item line of a release whose number is to be promoted takes its item, up to the next item line, to the Unreleased section in front, under its title. |
| ChangelogOutput.TextIsKept | scripts/fix-changelogs.ts:628-657 | Text to text, for texts of any kind: every section but the receiving one keeps its heading, the text below it, and every line under each title that is not blank and belongs to no promoted item. |
| ChangelogPairing.PairUp | scripts/fix-changelogs.ts:745-763 | The greedy loops pair the k-th added bullet of a path and trimmed text exactly when there are more than k removed ones, and likewise for the removed ones. |
| ChangelogPairing.PairingIsOneToOne | scripts/fix-changelogs.ts:756-763 | What is flagged so is a one-to-one pairing between equal path and trimmed text that leaves no possible pair open. |
| ChangelogPairing.PairingIsMaximal | scripts/fix-changelogs.ts:756-763 | Per path and text the number of pairs is the smaller of the two counts. |
| ChangelogPairing.SelectLines | scripts/fix-changelogs.ts:772-788 | A line is collected exactly when an unpaired addition stands on it whose hunk adds no release heading and whose hunk's unpaired removals are used up by unpaired additions before it. |
| ChangelogPairing.KeptIsSurplus | scripts/fix-changelogs.ts:772-788 | Per hunk exactly the unpaired additions beyond the unpaired removals are kept; none where a release heading was added. |
| ChangelogDiff.HunkYields | scripts/fix-changelogs.ts:705-743 | A hunk yields its added bullets at their lines of the new file, its removed bullets, and whether it adds a release heading. |
| ChangelogRows.ScanPlaces | scripts/fix-changelogs.ts:686-743 | After any number of rows of any text the scan is in the file named last, in the hunk of the header closest above, and at the line which that header announces plus the new-file rows since. |
| ChangelogRows.PlaceOf | scripts/fix-changelogs.ts:686-743 | Where a file name, a header and rows follow each other, the path is the name's, and the line is the announced one plus the new-file rows in between. |
| ChangelogRows.RowYields | scripts/fix-changelogs.ts:705-743 | Each row adds to the scan exactly the added bullet, removed bullet or release heading that it is, with the path, line and hunk of the row. |
| ChangelogRows.PromotableLineIsNew | scripts/fix-changelogs.ts:745-788 | What pairing and surplus select are the lines on which the text, row by row, puts a new bullet. |
| ChangelogRows.CollectPromotableLines | scripts/fix-changelogs.ts:679-791 | For any text a line of a file is returned if and only if a row is an added bullet that stands on it and is new: more such bullets were added above than were removed, its hunk adds no release heading, and the unmatched removed bullets of the hunk are no more than the unmatched added ones above it. |
| ChangelogHunks.DiffRead | scripts/fix-changelogs.ts:686-743 | In any text that names no file twice, whatever its lines, the added bullets of every hunk stand on different lines of the new file, each further down than the one before. |
| ChangelogHunks.HunkSurplus | scripts/fix-changelogs.ts:772-790 | In any such text a hunk yields exactly max(0, unmatched additions - unmatched removals) lines, one with an added release heading yields none, and a file's lines are those of its hunks. |
| ChangelogBytes.DecodeEncoded | scripts/fix-changelogs.ts:575-576 | The encoding whose bytes are counted gives every text back. |
| ChangelogBytes.ByteLengthIsEncoded | scripts/fix-changelogs.ts:575-595 | The length the budget is compared with is the number of bytes of the encoded text. |
| ChangelogTail.CollapseChangelogTail | scripts/fix-changelogs.ts:570-615 | Leaves a text that fits, or has at most two releases, alone; otherwise keeps at least two releases, fits with the footer whenever more than two remain, and no larger proper prefix would fit. |
| ChangelogTail.KeptIsPrefix | scripts/fix-changelogs.ts:601-614 | The collapsed text is a line prefix of the original with exactly the kept releases in it, and the number reported is that of the others. |
| ChangelogTail.SplitArchiveFooter | scripts/fix-changelogs.ts:548-557 | The two backward scans find the last line that is not blank and, when it is a link, the body in front of it; a text without a link line is returned as it is. |
| ChangelogTail.FooterComesOff | scripts/fix-changelogs.ts:548-561 | Splitting an appended footer off returns the same body and link. |
| ClientCorrelation.FindMatch | go/omp-rpc/client.go:443-458 | Whatever the order in which the map is visited, the scan blames the only candidate, or nobody. |
| ClientCorrelation.OneAnswer | go/omp-rpc/client.go:439-464 | Table and response determine the request that is answered. |
| ClientCorrelation.ReachesOnlyCandidate | go/omp-rpc/client.go:443-464 | An unmatched failure reaches a request exactly when one pending request has its command, or none has and it is a parse failure with one request pending. |
| ClientCorrelation.ParseFallbackMismatches | go/omp-rpc/client.go:454-485 | A request found by the parse fallback is always answered with a command mismatch, never with the failure itself. |
| ClientRequests.RequestTable.HandleResponse | go/omp-rpc/client.go:438-495 | Takes the answered request off the table, and only that one, and says what to send to it. |
| ClientRequests.RequestTable.FailAll | go/omp-rpc/client.go:644-654 | Takes all requests off the table, each owed the failure. |
| ClientRequests.RequestTable.NextID | go/omp-rpc/client.go:363 | Ids count up, so none is used twice. |
| ClientRequests.RequestTable.Register | go/omp-rpc/client.go:365-372 | Enters the request, unless there is no stream. |
| ClientRequests.StepKeepsInv | go/omp-rpc/client.go:350-396 | Every step keeps each registered request in exactly one place: table, owed, sent, or withdrawn. |
| ClientRequests.AtMostOneResult | go/omp-rpc/client.go:363-379 | In every run no request is sent two results, so a send on its one-slot channel never blocks the receiver. |
| ClientRequests.NothingLost | go/omp-rpc/client.go:426-496 | In every run a request neither withdrawn nor answered is still on the table or about to be answered. |
| ClientRequests.NothingPendingAfterClose | go/omp-rpc/client.go:758-785 | After closing has failed the table it stays empty, and every request is answered, about to be, or withdrawn. |
| ClientResults.ResultsAreCalledFor | go/omp-rpc/client.go:438-495 | In every run, whatever is owed or was sent to a request is what one step called for while the request, entered with its command, was pending: the data or the error of a response with its command, the two commands that differ, or the reason of the failure. |
| ClientResults.AnswerArrives | go/omp-rpc/client.go:438-495 | A response for a pending request takes it, and only it, off the table, and the request is owed just what the response calls for. |
| ClientResults.OneResultCalled | go/omp-rpc/client.go:481-493 | Every response for a pending request calls for exactly one result. |
| ClientResults.OthersChangeNothing | go/omp-rpc/client.go:466-479 | A response that is for no pending request changes nothing in the table. |
| ClientEvents.EventLog.AppendEvent | go/omp-rpc/client.go:579-596 | The retained events are the newest of all ever appended, each under its own index, as many as the history allows. |
| ClientEvents.EventLog.RecordFailure | go/omp-rpc/client.go:468-472 | A failed run counts as completed and leaves the log alone. |
| ClientEvents.EventLog.CurrentEventIndex | go/omp-rpc/lifecycle.go:25-29 | The index is the number of events ever appended, however many were trimmed. |
| ClientEvents.EventLog.Scan | go/omp-rpc/lifecycle.go:33-51 | Reports truncation exactly when an event from the start on was trimmed, otherwise the contiguous events through the first terminal agent_end, or that there is none. |
| ClientEvents.OneCollection | go/omp-rpc/lifecycle.go:31-66 | A successful wait has one possible result, however the log grew meanwhile. |
| ClientEvents.MessagesInOrder | go/omp-rpc/lifecycle.go:137-142 | The streamed messages are those of the message_end events, one for each, in the order of the log. |
| ClientEvents.CompleteAgentEndMessages | go/omp-rpc/lifecycle.go:126-149 | Prepends exactly the missing streamed messages of the last run, or reports that too few were retained. |
| ClientTurns.StartsAtAcquire | go/omp-rpc/lifecycle.go:70-79 | In every run a caller inside looks at exactly the events appended after it last went in. |
| ClientTurns.TurnIsNew | go/omp-rpc/lifecycle.go:31-66 | In every run a returned turn is what was appended since its caller went in, through the first agent_end that does not say it is not the last. |
| ClientTurns.ReturnsForCause | go/omp-rpc/lifecycle.go:31-66 | In every run a returning caller came back by one look, with a turn, a trimmed start, or, with neither a terminal event nor a trimmed start, an error that was set; or it was stopped. |
| ClientWakeup.NoWakeUpIsLost | go/omp-rpc/lifecycle.go:31-66 | In every run: one collector inside, every returned turn is the log from its start through the first terminal agent_end, and a waiting collector with news has a wake-up in the channel or on its way. |
| ClientWakeup.NewsArrives | go/omp-rpc/lifecycle.go:58-64 | However the waking is scheduled, when it can go no further the collector has returned. |
| ClientWakeup.WakingIsShort | go/omp-rpc/lifecycle.go:58-64 | And it takes at most two steps more than there are pending signals. |
| ClientWakeup.TwoCollectorsLoseOne | go/omp-rpc/lifecycle.go:9-17 | Without the lifecycle lock two collectors could lose a wake-up, so the lock is needed. |
| ClientWakeup.FailedIffUncleared | go/omp-rpc/commands.go:281-290 | In every run the error is set at the end if and only if some failure, or an error from before, has no clear after it. |
| ClientWakeup.LookReportsFailure | go/omp-rpc/lifecycle.go:33-57 | In every run a look that finds no truncation and no terminal agent_end returns the error if and only if some failure has no clear between it and the look. |
| ClientWakeup.FailureArrivesIff | go/omp-rpc/lifecycle.go:31-66 | From the start, over every run and every schedule of the waking after it: a collector with nothing in its log comes back with the error if and only if some failure had no clear after it, and otherwise waits on. |
| ClientWakeup.ClearingFirstLosesNothing | go/omp-rpc/commands.go:281-290 | Were the old error cleared before the request, and not again, every failure reported later would be set in the end. |
| ClientWakeup.ClearingErasesFailure | go/omp-rpc/commands.go:281-290 | A failure that arrives before the old error is cleared is erased with it, and the collector waits on. |
| ClientWakeup.ErasedFromStart | go/omp-rpc/commands.go:281-290 | That run exists from the client's first state. |
| ClientIdle.EndsForCause | go/omp-rpc/lifecycle.go:151-171 | In every run a waiter that has come back did so by one step for the cause it reports: equal counters, a trimmed start, an error that was set, or a stop. |
| ClientIdle.ReturnMeansIdle | go/omp-rpc/lifecycle.go:157-166 | In every run, a waiter that returns from the comparison made it when as many runs had ended or failed as prompts had been answered, and returns the error if and only if some failure until then had no answer after it. |
| ClientIdle.StalledIff | go/omp-rpc/lifecycle.go:157-170 | After a comparison that found the counters different, whatever the others do, the waiter sleeps on though everything has completed if and only if no terminal agent_end came, nothing was trimmed, no error is left, and the answers make up exactly for the difference and the failed runs. |
| ClientIdle.StalledNeedsAnswer | go/omp-rpc/commands.go:281-290 | Only a response that is counted after the comparison can strand it. |
| ClientIdle.LateAnswersStrandIff | go/omp-rpc/commands.go:281-290 | Late responses alone can strand it if and only if the comparison found more runs completed than scheduled. |
| ClientIdle.UndisturbedReturns | go/omp-rpc/lifecycle.go:151-171 | In every run in which no response is counted while it waits, it is never stranded, and once everything has completed it returns with its next two steps at the latest. |
| ClientIdle.StrandedFromStart | go/omp-rpc/lifecycle.go:157-170 | A stranded waiter is reached from the client's first state. |
| ClientCallbacks.CallbackTable.Register | go/omp-rpc/callbacks.go:10-27 | Refused and cancelled when closed; otherwise entered, counted, and the previous callback of the id cancelled. |
| ClientCallbacks.CallbackTable.Finish | go/omp-rpc/callbacks.go:28-33 | Cancels the callback and deletes the entry of its id, whoever's it is. |
| ClientCallbacks.CallbackTable.TakeAll | go/omp-rpc/client.go:770-771 | Closing takes all entries and leaves none. |
| ClientCallbacks.CancelReaches | go/omp-rpc/callbacks.go:34-41 | Cancelling an id calls the cancel of the callback that the id names then, and nobody else's. |
| ClientCallbacks.NothingEntersAfterSnapshot | go/omp-rpc/client.go:760-784 | Once closing has taken its snapshot no callback registers and the wait group never grows. |
| ClientCallbacks.EscapesIff | go/omp-rpc/client.go:776-784 | In every run, once closing has cancelled what it took, a live callback is uncancelled if and only if another one's finishing deleted its entry and neither its own end nor a cancel under way has run. |
| ClientCallbacks.LostByDeletion | go/omp-rpc/callbacks.go:28-33 | The only step by which a callback gets out of reach of all cancels is another one's finishing that deletes its entry, and every such step does it. |
| ClientCallbacks.EveryLiveCallbackCancelled | go/omp-rpc/client.go:776-780 | If no callback deletes another's entry, every callback that closing waits for has been cancelled. |
| ClientCallbacks.DistinctIdsAreCancelled | go/omp-rpc/client.go:760-784 | So with distinct ids in flight closing waits only for cancelled callbacks. |
| ClientCallbacks.LostIsNeverCancelled | go/omp-rpc/callbacks.go:28-33 | Once out of reach, a callback stays so in every further run until it ends by itself. |
| ClientCallbacks.ReusedIdEscapes | go/omp-rpc/callbacks.go:10-33 | A run in which an id is reused in flight and closing misses the newer callback. |
| CloneUnionFind.UnionFind.Find | scripts/cleanup-scan.ts:178-185 | Returns the representative and compresses the path; nobody's representative changes. |
| CloneUnionFind.UnionFind.Union | scripts/cleanup-scan.ts:186-190 | Two numbers share a representative exactly when a chain of united pairs, the new one included, joins them. |
| CloneUnionFind.ShortcutKeepsRoots | scripts/cleanup-scan.ts:180-183 | Pointing a node straight at its root changes nobody's root and makes no cycle. |
| CloneUnionFind.UniteExact | scripts/cleanup-scan.ts:189 | Hanging one root below another adds exactly the chains through the new pair. |
| CloneScan.CollectWindows | scripts/cleanup-scan.ts:198-214 | Every window of seven significant lines is listed once, under its hash. |
| CloneScan.EqualTexts | scripts/cleanup-scan.ts:201-206 | Windows with the same seven texts have equal hashes, and only those if no two texts share one. |
| CloneScan.SameChains | scripts/cleanup-scan.ts:217-224 | Linking list heads and neighbours gives the same chains as linking all equal-hash and consecutive pairs. |
| CloneScan.ClusterMatches | scripts/cleanup-scan.ts:215-235 | A window is clustered iff another has its hash, clusters do not overlap, and two windows share one iff a chain of equal-hash or consecutive-position links joins them. |
| CloneRuns.TotalIsCover | scripts/cleanup-scan.ts:259 | The lengths of separate spans add up to the number of lines they cover. |
| CloneRuns.TilesAreRuns | scripts/cleanup-scan.ts:252-269 | Separate spans that cover a set of lines are its maximal runs, each once. |
| CloneRegions.SweepFile | scripts/cleanup-scan.ts:253-268 | The sweep merges touching and overlapping windows, and only those. |
| CloneRegions.MeasureCluster | scripts/cleanup-scan.ts:238-269 | Regions are the maximal runs of covered lines; `sigLines` is exactly the number of distinct significant lines the cluster's windows cover. |
| CloneRegions.RegionsHoldCover | scripts/cleanup-scan.ts:254-258 | With ascending line numbers a significant line lies in a reported region of its file exactly when a window of the cluster reaches over it. |
| CloneRegions.TwoRegionsOrMore | scripts/cleanup-scan.ts:270 | A cluster is reported iff its cover has at least two separate stretches. |
| CloneRegions.DetectClones | scripts/cleanup-scan.ts:194-274 | The result is, larger clones first, the measure of every cluster with at least two separate stretches, each once, of the exact clustering. |
| Reservoir.ReservoirSample.Add | scripts/tool_io.py:125-134 | After each item the reservoir is the sample that stream and draws determine. |
| Reservoir.SampleReservoir | scripts/tool_io.py:279-285 | Empty for sizes up to zero, the whole stream when it fits, the drawn sample otherwise. |
| Reservoir.HeldPositions | scripts/tool_io.py:118-134 | The sample always holds min(size, seen) items from distinct stream positions. |
| ReservoirUniform.SubsetsEquallyLikely | scripts/tool_io.py:128-134 | After `size + m` items every set of `size` positions is the sample for exactly m! of the outcomes of the draws. |
| ReservoirUniform.ItemsEquallyLikely | scripts/tool_io.py:128-134 | Counted over all outcomes each position is kept in exactly size/seen of them. |
| StableSort.SortIsStable | scripts/session-stats/audit.ts:519 | Results of equal size keep their order. |
| StableSort.SortIsDescending | scripts/session-stats/audit.ts:519 | The sort is a descending permutation. |
| StableSort.CutEarly | scripts/session-stats/audit.ts:499-502 | Sorting and cutting a prefix early does not change the first entries of the whole. |
| TopResults.CollectTop | scripts/session-stats/audit.ts:497-503 | For any stream the reported list is the first 12 of all results over 2000 tokens, ranked from the largest on, equal ones in the order of the stream; batching is invisible. |

## Left out

Publish scheduler

- PublishRun.RunPublishJobs: requires distinct job names; with a repeated name the source's maps keep the later job, and two runs settle one promise.
- PublishRun.RunPublishJobs: job bodies terminate and have fixed outcomes, and `write` does not throw; npm, file and temporary-directory work is the `Plain`/`Locked` outcome of a pack. The log text is not modelled.

Inliner

- InlineTheorem.InliningIsExact: strict mode only. The default mode substitutes member reads unevaluated and is documented as weaker.
- InlineTheorem.InliningIsExact: requires names new to the helper's body, guards that name no tail local, and ordered operands under flipped comparators. That each is needed is shown by an input; that each failing call site misbehaves is not claimed (a captured name may sit where both bindings agree), and the exact condition is proved where it exists, for one comparison.
- InlineTheorem.InliningIsExact: runs loops with a fuel bound on their rounds; running out is an outcome of its own that both sides share.
- InlineScope.ExecScopeSame: closures, `switch`, labels, destructuring and object shorthand are not in the fragment; member reads, calls and construction are one primitive with arbitrary effects.
- InlineText.ParseWhole: a parser for the operators the inverter writes, over tokens; other operators are atoms. Binding-accurate references and node positions come from ts-morph, which is not part of this model.
- InlineSource.TextSubstitution: text is a sequence of lexemes; comments and white space between them are not modelled. The edits are supposed to be those of the binding-accurate references.
- InlinePlan.PlanShape: an `if` with an empty `else` block is not told from one without `else`.
- `analyze`, which decides candidacy, is the hypothesis `Candidate`; re-collecting candidates round by round is not modelled.

Changelog fixer

- ChangelogFix.NothingLost: without historical keys and with every subsection starting with a bullet; text in front of the first bullet joins the item before it when subsections are merged. ChangelogOutput.TextIsKept needs neither.
- ChangelogOrder.FixedInOrder: for any rank of titles. ChangelogVersions.RankAgrees gives one for titles whose parts are numbers; for other titles the source's comparator is not a consistent order, and the sort it is given to promises nothing.
- ChangelogTail.CollapseChangelogTail: counts UTF-8 bytes of Unicode scalar values; a lone surrogate is not modelled.
- ChangelogHunks.HunkSurplus: a text that names one file twice is outside it, since two bullets may then share a line; ChangelogRows.CollectPromotableLines and ChangelogPairing.KeptIsSurplus cover such texts too.
- ChangelogRows.CollectPromotableLines: the text comes as its lines; the hunk-header pattern is a parameter, and so is the archive-link pattern of ChangelogTail.SplitArchiveFooter.
- Counters of the fix result, idempotence of the whole fixer (which the code does not have), recovery from history, git and file access.

RPC client

- ClientRequests.AtMostOneResult: JSON, the transport and timers are arbitrary steps; error codes and payload details are not carried.
- ClientWakeup.NewsArrives: a scheduler may also end a wait by context or closing, which is the step `Stop`.
- ClientIdle.UndisturbedReturns: the wake-up channel is left to ClientWakeup; here a waiter with news may look at any time. The counters are unbounded.
- ClientCallbacks.DistinctIdsAreCancelled: the two-second limit on waiting for callbacks is an environment step that changes nothing here.
- Listeners, typed events, headless UI answers and command wrappers: plumbing.

Clone detection, samples, top list

- CloneScan.ClusterMatches: the hash is an arbitrary function of the seven lines, and clustering is over equal hashes, so a collision counts as a match. Files have fewer than 2^24 significant lines, as the position encoding supposes.
- CloneRegions.DetectClones: clones of equal size are in no particular order; computing the significant lines of a file is not modelled, and files are named by their index.
- ReservoirUniform.SubsetsEquallyLikely: `randrange` is counted over its outcomes; how the generator picks them is not modelled.
- TopResults.CollectTop: the token counts and the residency sums of the same scan are not modelled.
