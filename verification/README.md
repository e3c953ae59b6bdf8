# Verification of the PWBS core

A Dafny model of the parts of PWBS in which state, order and partial failure matter, and
proofs of what they promise. `dafny verify dfyconfig.toml` checks all of it.

**The git-push claim protocol** (`TextOrder`, `TaskTable`, `Scheduler`, `Followups`,
`Protocol`, `ProtocolSafety`, `ProtocolOrder`, `ProtocolProgress`, `Workstation`). Several
orchestrators share one git branch that holds the task file. `TaskTable` is the file and the edit
a command makes to one record; `Scheduler` is the selection of the next task; `Protocol` is a
state machine over one remote history and any number of clones, each with its own head, index,
working file and running command. A clone also counts its pushes that found no server, and a
commit names the one its selection was read from. One step is one git call or one access to the
file, so clones interleave arbitrarily. `Workstation` is the same in imperative form: a class whose
methods are the git calls and the two commands, proved to follow the state machine step by step
while others push in between.

**Incremental sync** (`Timestamps`, `SlackSync`, `SlackDelivery`, `SlackIncremental`,
`NotionBlocks`, `NotionSync`, `CalendarCursor`). `SlackSync` holds the page loops of one sync as methods and what
they compute as functions; `SlackDelivery` says in terms of the messages' keys what that is;
`SlackIncremental` compares any number of successive syncs of a growing
workspace with one sync at the end. `NotionBlocks` is the recursive block fetch over any paging
with any failures; `NotionSync` is the watermark of a search read in pages; `CalendarCursor` is
the compound cursor.

**Briefings** (`References`, `Cleaning`, `CleanedReferences`, `SourceValidator`, `CosineBound`,
`QualityGate`, `BudgetTrim`, `BriefingContexts`). The regular expression for
`[Quelle: title, date]`, the cleaning of the text and the matching of titles; the cosine
similarity and the quality gate over the reals; the four trimming methods, as four classes
refining one trim specification, with each section's loop as a method of its own.

**Records** (`Billing`, `Marketplace`, `Permissions`, `Organizations`). Three services over
tables, each as a class whose methods run one call, a function that says what one call does, and
invariants over all runs.

`Options` and `Sequences` hold what several of these share.

Some results show where the code does not do what its comments or the obvious expectation say;
the code is modelled as it is, the exact condition is proved, and an input is given:

- A claim selected from the local file lands with all dependencies done exactly if the last
  verdict on each of them since the commit the selection read is `done`
  (`ProtocolOrder.DoneAtLanding`, a broken run in `ProtocolOrder.ReopenedDependency`).
- After a failed commit `git checkout --` restores the staged edit; the clone is stuck, and
  harmless (`ProtocolProgress.FailedCommitKeepsEdit`, `ProtocolProgress.DirtyCloneIsHarmless`).
- Successive Slack syncs deliver what one would have exactly if every message that arrives later has
  a stamp above those that were there (`SlackIncremental.IncrementalEqualsFull`,
  `SlackIncremental.LateIsLost`).
- A Notion search read in pages sends the advanced watermark along with the page cursor. It
  delivers everything exactly if no page border falls between two pages of the same edit time
  (`NotionSync.DeliversAllExactly`, `NotionSync.TieIsLost`).
- The calendar cursor wraps the whole incoming cursor, so the original sync token is sent with the
  first two requests only (`CalendarCursor.OriginalTokenExactly`), and a full sync of three or more
  pages never completes against a service that accepts no other token
  (`CalendarCursor.Listing.CompletesExactly`, `CalendarCursor.ThreePagesNeverComplete`).
- Cleaning collapses runs of spaces inside references too: the valid references come back
  unchanged exactly if none of them has such a run (`CleanedReferences.ExactlyTheValid`,
  `CleanedReferences.DoubleSpaceIsLost`).
- The follow-ups announced after a completion are the newly unblocked tasks unless the task had
  been done before (`Followups.AnnouncedExactly`, `Followups.AnnouncedWithoutNews`).
- The project context is marked truncated whenever it is over budget, the other three only when an
  entry was dropped (`BriefingContexts.TruncatedWithoutLoss`,
  `BriefingContexts.TruncatedWithNothingDropped`). The morning context also trims
  patterns, which its comment does not list.
- A Stripe status without a counterpart counts as active (`Billing.AccessAfterUpdate`,
  `Billing.UnpaidKeepsPaidPlan`).
- Two users' rows can be created for one customer, whose events then fail
  (`Billing.DistinctExactly`, `Billing.SharedCustomer`).
- Account deletion removes installations without lowering the install count: it is right exactly
  if no account was deleted while it had the plugin (`Marketplace.CountExactly`,
  `Marketplace.CountDrifts`).
- Managers and admins hold the permissions the membership routes ask for, but the service behind
  the routes refuses everyone except the owner (`Organizations.MembershipRequestsExactly`,
  `Organizations.ManagerRefused`).

Assumed of what is not opened, as parameters with a stated law: the similarity ratio of unequal
titles is below 1; `sqrt` of a non-negative number is non-negative and its square; the calendar's
JSON cursor decodes to what was encoded; embeddings, tokenizer, case folding and normalization are
arbitrary functions. Of the Notion search it is assumed that it lists by ascending edit time and
that a page cursor marks the last page delivered; of a Slack channel's history that stamps are
distinct and of one shape.

## Model

| member | source | states |
|---|---|---|
| Scheduler.FindOpenTask | tools/orchestration/claim.py:84-116 | The task returned is open or ready in the stream with all dependencies done, and comes before every other such task by priority rank and then id; none is returned exactly if there is none. |
| Scheduler.OfferedExactly | tools/orchestration/claim.py:84-94 | Nothing is offered exactly if every task is in another stream, or neither `open` nor `ready`, or waits for a task that is missing or not `done`; what is offered is none of these. |
| Scheduler.PriorityThenId | tools/orchestration/claim.py:113-116 | No claimable task has a higher priority than the one returned, and none of the same priority a smaller id; missing and unknown priorities count as P3, among themselves too. |
| TextOrder.LessMeans | tools/orchestration/claim.py:113-115 | One id is before another if it is a proper prefix of it or has the smaller character where they first differ. |
| Scheduler.RoundFinishesOne | tools/orchestration/claim.py:84-116 | One claim by a stream and its completion finishes exactly the offered, unblocked task and changes no other record and no dependency. |
| Scheduler.HeightsExactly | tools/orchestration/claim.py:63-67 | The unfinished tasks can be numbered so that each is above its dependencies if and only if those dependencies are all present and no path along them comes back to where it began. |
| Scheduler.SomeStreamOffers | tools/orchestration/claim.py:63-67 | No deadlock: if the dependencies of unfinished tasks are present and free of cycles, then as long as one task is unfinished some stream is offered a task. |
| Scheduler.RoundsCount | tools/orchestration/complete.py:89-92 | Any number of rounds finishes exactly that many tasks, reopens none and keeps ids and dependencies. |
| Scheduler.DrainsAcyclic | tools/orchestration/claim.py:84-116 | From a table without cycles or missing dependencies, whichever streams are served in whichever order, a run that no stream can continue has everything done, after exactly as many rounds as there were unfinished tasks. |
| Scheduler.DrainExists | tools/orchestration/claim.py:84-116 | Such a run exists for every table without cycles or missing dependencies. |
| Scheduler.DrainsIffAcyclic | tools/orchestration/claim.py:63-67 | A table can be worked off if and only if every dependency of an unfinished task is present and no path of unfinished tasks along dependencies comes back to where it began. |
| Followups.AnnouncedExactly | tools/orchestration/complete.py:133-149 | No newly unblocked task is left out of the announcement, and it is exactly the newly unblocked ones if and only if, before the call, the task was not done or nothing would have been announced for it. |
| Followups.AnnouncedMeans | tools/orchestration/complete.py:135-145 | Announced are the `open` or `ready` tasks that wait for the completed one and for nothing missing or not `done`; newly unblocked those that had something missing or not `done` to wait for before. |
| Followups.AnnouncedWithoutNews | tools/orchestration/complete.py:133-149 | A task completed a second time announces a follow-up although nothing was newly unblocked. |
| ProtocolSafety.PushKeeps | tools/orchestration/claim.py:194-203 | A push succeeds exactly if the server answers and the remote is still the base of the commit; it then adds exactly that commit, one enabled atomic edit of the table on the remote. |
| ProtocolSafety.AdvanceKeeps | tools/orchestration/claim.py:137-218 | Every step of a running command keeps the clone's invariant over head, index and working file, and is either invisible on the remote or one atomic edit by this clone's successful push. |
| ProtocolSafety.OthersPush | tools/orchestration/claim.py:205-213 | A clone's invariant survives any pushes of others, in whatever step it is. |
| ProtocolSafety.StepKeeps | tools/orchestration/complete.py:67-127 | The same for every event of the whole system with all clones. |
| ProtocolSafety.Simulation | tools/orchestration/claim.py:134-213 | Along every interleaving the remote only grows, by a legal sequence of atomic edits each of which landed in one push of its author's command, which then returned success. |
| ProtocolSafety.NoLostUpdate | tools/orchestration/claim.py:168-182 | Each commit of a run writes the addressed record from the immediately preceding table, key by key as the command says, a claim only on an `open` or `ready` one, and leaves every other record as it was. |
| ProtocolSafety.TakenForGood | tools/orchestration/claim.py:153-165 | A task that has left open and ready never becomes available again. |
| ProtocolSafety.ClaimedAtMostOnce | tools/orchestration/claim.py:153-174 | In every run two different commits never claim the same task. |
| ProtocolSafety.ClaimantStays | tools/orchestration/complete.py:89-94 | The name of the claiming orchestrator stays in the record, whatever is committed later. |
| ProtocolSafety.WinnerIsRecorded | tools/orchestration/claim.py:194-203 | A claim that returns success found the task available on the remote and is named there as claimant, then and after any continuation. |
| ProtocolSafety.WonOnlyByPush | tools/orchestration/claim.py:194-203 | A command reports a win only in the step whose push moved the remote. |
| ProtocolOrder.SelectedOnHistory | tools/orchestration/claim.py:253-274 | The commit that the selection read is an earlier one of the same history, and on its table the search for an open task returns the claimed one, although selection reads an unpulled and possibly dirty file. |
| ProtocolOrder.LastVerdictDecides | tools/orchestration/complete.py:89-92 | A done task is still done after any commits exactly if the last finalization of it among them says done. |
| ProtocolOrder.DoneSince | tools/orchestration/complete.py:89-92 | A task with all dependencies done at one commit has them done at a later one if and only if the last verdict on each of them in between is done. |
| ProtocolOrder.DoneAtLanding | tools/orchestration/claim.py:139-155 | All dependencies are done when a scheduled claim lands if and only if the last verdict on each of them since the very commit the selection read is done. |
| ProtocolOrder.StaysSatisfied | tools/orchestration/claim.py:63-67 | If nothing done is turned into blocked, dependencies once done stay done. |
| ProtocolOrder.DependenciesFirst | tools/orchestration/claim.py:253-274 | If nothing done is turned into blocked, every scheduled claim of every run lands on a table in which all its dependencies are done: claims follow a topological order. |
| ProtocolOrder.UndisturbedAttempt | tools/orchestration/claim.py:137-203 | Five steps without interference land the edit of an enabled command and touch no other clone. |
| ProtocolOrder.ReopenedDependency | tools/orchestration/complete.py:155-178 | A run in which a done dependency is set to blocked between selection and claim, and the claim still lands. |
| ProtocolProgress.RejectedAttemptRollsBack | tools/orchestration/claim.py:205-218 | After a push that is rejected or finds no server, head, index and working file are the pulled base again; only attempt counter and waiting time have moved on. |
| ProtocolProgress.BeginsExactly | tools/orchestration/claim.py:253-274 | A command goes on to its first pull unless the stream offers nothing or the record it names is missing or empty; the status of a named record is not looked at yet. |
| ProtocolProgress.ChecksExactly | tools/orchestration/claim.py:144-182 | After its pull a claim ends as unavailable exactly if the record exists, is not empty and has a status other than `open` and `ready`; a missing or empty record and a dry run end the command likewise, and anything else writes exactly the keys of that record. |
| ProtocolProgress.FailedCommitKeepsEdit | tools/orchestration/claim.py:184-192 | After a commit refused by the hooks or with nothing to commit the edit survives in index and working file, so the clone is dirty exactly if the edit changed anything. |
| ProtocolProgress.DirtyCloneIsHarmless | tools/orchestration/claim.py:138-142 | From then on, in every continuation, the clone's three layers stay as they are and none of its commits reaches the remote. |
| ProtocolProgress.TotalSleepClosed | tools/orchestration/claim.py:215-218 | The waits between n attempts add up to 2^n - 2 seconds. |
| ProtocolProgress.RunKeepsTracked | tools/orchestration/claim.py:136-218 | Throughout every run each finished attempt is matched by a commit of another clone since the command began or by a push that found no server. |
| ProtocolProgress.ExhaustedMeansOthersWon | tools/orchestration/complete.py:61-130 | A command that gives up after n attempts was met by at least n pushes, counting the commits that others, and only others, landed while it ran and its own pushes that found no server; it has waited 2^n - 2 seconds. A claim makes three attempts and waits 2 and 4 seconds. |
| ProtocolProgress.RejectedOnlyAfterForeignPush | tools/orchestration/claim.py:205-213 | A push fails exactly if the remote has grown since this clone's pull or the server does not answer. |
| Workstation.Station.GitPull | tools/orchestration/claim.py:138-142 | A pull succeeds exactly if the server answers, index and working file are clean and the branch is a prefix of the remote; it then makes all three layers the remote's, otherwise changes none. |
| Workstation.Station.GitCommit | tools/orchestration/claim.py:184-192 | A commit succeeds exactly if the hooks pass and the index differs from the head; it then puts the index on top of the branch. |
| Workstation.Station.GitPush | tools/orchestration/claim.py:194-203 | A push is accepted exactly if the server answers and it is a fast-forward. |
| Workstation.Station.Publish | tools/orchestration/complete.py:98-127 | Commit, push and their two failure paths end in one of: won with exactly one own commit published, commit failed, or everything put back for the next attempt. |
| Workstation.Station.Claim | tools/orchestration/claim.py:122-224 | The whole retry loop, with arbitrary pushes of others in between, follows the state machine; it returns true exactly for a win or a dry run, a win has published exactly one claim of an `open` or `ready` record, and anything else nothing; each other end is explained by the pulled record. |
| Workstation.Station.Finalize | tools/orchestration/complete.py:56-130 | The same for finalize with any number of retries; the claimant is not consulted. |
| Workstation.Station.WinnerSeesItself | tools/orchestration/claim.py:194-203 | After a win the three local layers and the remote agree, the record carries exactly what this call writes, and no other record differs from the table before. |
| Timestamps.TextOrderIsNumeric | backend/_deferred/connectors/slack.py:406-408 | On stamps of one shape the text comparison the code makes is the numeric one. |
| SlackSync.FetchThreadReplies | backend/_deferred/connectors/slack.py:489-539 | For every paging of a thread's listing the loop returns exactly the messages with another stamp than the thread's, each as often as there and in the same order. |
| SlackSync.RepliesAfterParent | backend/_deferred/connectors/slack.py:496-500 | From a listing that begins with the parent and holds it nowhere else, everything behind it. |
| SlackSync.ScanHistory | backend/_deferred/connectors/slack.py:376-425 | For every paging of a channel's history the page loop collects what a single scan of the whole would. |
| SlackSync.FetchChannel | backend/_deferred/connectors/slack.py:367-460 | One channel's turn yields its threads with their replies and then its single messages, and the largest stamp seen. |
| SlackSync.FetchSince | backend/_deferred/connectors/slack.py:320-487 | One sync over all channels: the documents, and the cursor to go on with, from the known cursors, from the backfill boundary in a first sync, and from the beginning if the cursor cannot be read; without channels the cursor is returned unchanged. |
| SlackDelivery.ChannelExactly | backend/_deferred/connectors/slack.py:396-460 | Of the messages with a stamp above the start, newest first, exactly those without a subtype and the broadcast replies become documents: first those with replies, as threads with all of the thread but itself, then the others as they are. |
| SlackDelivery.ChannelAfterChannel | backend/_deferred/connectors/slack.py:367-369 | The channels' documents follow each other, each from the channel's cursor, else the backfill boundary, else the beginning; empty strings count as missing. |
| SlackDelivery.CursorExactly | backend/_deferred/connectors/slack.py:404-408 | A synced channel's next cursor is the largest stamp among its start and the messages not skipped; other channels keep theirs. |
| SlackDelivery.PutMeans | backend/_deferred/connectors/slack.py:411-417 | A thread seen again keeps its place and is replaced. |
| SlackIncremental.ChannelDelivers | backend/_deferred/connectors/slack.py:368-425 | A sync of a channel delivers exactly the kept messages with a stamp above the start, each as its document; at the new cursor nothing of that state is due any more. |
| SlackIncremental.ChannelSplit | backend/_deferred/connectors/slack.py:479-481 | A sync now, a later one from its cursor, and the messages that came late together are the later sync from the old cursor. |
| SlackIncremental.NothingElseIsLost | backend/_deferred/connectors/slack.py:349-487 | Conservation: for any number of successive calls, what they deliver plus what was late for one of them is exactly what one call at the end delivers from the first cursor. |
| SlackIncremental.LateExactly | backend/_deferred/connectors/slack.py:406-408 | Between two states of a channel nothing is late for the cursor if and only if every kept message that arrived in between with a stamp above the start has a stamp above every kept message that was there. |
| SlackIncremental.IncrementalEqualsFull | backend/_deferred/connectors/slack.py:349-487 | Many small syncs equal one big sync if and only if, at every call and in every channel, every kept message that arrives later with a stamp above the first start has a stamp above every kept message that was there. |
| SlackIncremental.LateIsLost | backend/_deferred/connectors/slack.py:406-408 | One message that arrives with a smaller stamp than the last one read makes the two differ. |
| SlackIncremental.AnySplitDeliversAll | backend/_deferred/connectors/slack.py:349-487 | For channels whose final history is in stamp order every split into successive calls delivers what one call would. |
| SlackIncremental.CursorAdvances | backend/_deferred/connectors/slack.py:406-408 | The cursor of a channel never moves back. |
| SlackIncremental.DeliveredOnce | backend/_deferred/connectors/slack.py:410-460 | With distinct channels and stamps no document is delivered twice, by any number of successive calls together. |
| NotionBlocks.FetchBlocks | backend/pwbs/connectors/notion.py:470-543 | For every page split and every failure, what is returned is a prefix of the stored list at every level, and the full unfolding to five levels if nothing failed; the recursion ends. |
| NotionBlocks.CollectMentions | backend/pwbs/connectors/notion.py:312-325 | The recursive loop collects a block's own mentions before those of its children, in list order. |
| NotionBlocks.UnfoldIsTruncation | backend/pwbs/connectors/notion.py:482-543 | For a store that holds a tree, a complete fetch read as a tree is that tree cut at the level bound. |
| NotionBlocks.MentionedIsPreorder | backend/pwbs/connectors/notion.py:312-325 | The collected mentions are the preorder mentions of the tree read. |
| NotionBlocks.CompleteFetch | backend/pwbs/connectors/notion.py:312-543 | A complete fetch and its mentions are those of the true tree cut at the bound. |
| NotionBlocks.PartialIsPruned | backend/pwbs/connectors/notion.py:503-520 | Whatever fails, the result is the cut tree with branches cut short: at every level a prefix, nothing reordered or invented. |
| NotionSync.FetchSince | backend/pwbs/connectors/notion.py:549-668 | Every hit becomes a document or an error, each in the hits' order, and the watermark moves to the latest edit of all of them, also between the pages of one search. |
| NotionSync.DeliversAllExactly | backend/pwbs/connectors/notion.py:585-663 | For any page sizes, a search read in pages delivers its whole result if and only if no border between two pages separates hits of the same edit time. |
| NotionSync.TieIsLost | backend/pwbs/connectors/notion.py:655-659 | Two pages of one edit time, read one at a time: the second is not delivered; with the filter kept it is. |
| NotionSync.RepairedDeliversAll | backend/pwbs/connectors/notion.py:654-661 | With the original watermark kept in the page cursor, any page sizes deliver the whole result. |
| NotionSync.RestIsFiltered | backend/pwbs/connectors/notion.py:655-659 | What the next page is taken from is the remaining hits filtered again by the last page's edit time. |
| References.MatchMeans | backend/pwbs/briefing/validation.py:53 | On every text the scan matches exactly if the pattern can be read there, and the reading is unique; title and date are the stripped texts before and behind the comma. |
| References.ExtractFirst | backend/pwbs/briefing/validation.py:203-211 | The first reference is the leftmost match, and the search goes on behind it, on every text. |
| References.StripMeans | backend/pwbs/briefing/validation.py:207-208 | Stripping takes away exactly the white space at the two ends. |
| References.SpaceCodes | backend/pwbs/briefing/validation.py:207-208 | White space, by code point. |
| References.Tokenize | backend/pwbs/briefing/validation.py:53 | Text with balanced, un-nested brackets is a sequence of characters and bracket groups. |
| References.MatchGroup | backend/pwbs/briefing/validation.py:53 | At a group's bracket the pattern matches exactly if the group is a reference, and then exactly the group. |
| References.ExtractGroups | backend/pwbs/briefing/validation.py:200-212 | Extraction from balanced text returns the references among its groups, in order. |
| Cleaning.ReplaceGroup | backend/pwbs/briefing/validation.py:314-322 | Replacing a group's text in the whole text exchanges exactly the groups with that body. |
| Cleaning.CollapseGroups | backend/pwbs/briefing/validation.py:324-325 | Collapsing runs of spaces acts inside each group and between groups, never across a bracket. |
| Cleaning.StripGroups | backend/pwbs/briefing/validation.py:326 | Stripping removes characters outside the groups only. |
| Cleaning.ReferenceSurvivesCollapse | backend/pwbs/briefing/validation.py:324-325 | Collapsing makes no group a reference that was none, and no reference a plain group. |
| CleanedReferences.RejectedExactly | backend/pwbs/briefing/validation.py:138-165 | A reference's text is among the rejected ones exactly if its title is rejected. |
| CleanedReferences.RemovingKeepsTheAccepted | backend/pwbs/briefing/validation.py:307-326 | The references of the cleaned text are the accepted ones of the original in order, each with its own spaces collapsed. |
| CleanedReferences.MarkingKeepsAll | backend/pwbs/briefing/validation.py:314-326 | In marking mode all references stay, in order; the warnings are no references. |
| CleanedReferences.ExactlyTheValid | backend/pwbs/briefing/validation.py:155-182 | Extracting from the cleaned text returns exactly the valid references of the original, in order, if and only if none of them holds a double space. |
| CleanedReferences.DoubleSpaceIsLost | backend/pwbs/briefing/validation.py:324-325 | An accepted reference with two spaces in its title comes back changed. |
| SourceValidator.FindBestMatch | backend/pwbs/briefing/validation.py:261-301 | A match is the first document with the highest score: 1 for an equal title, 0.9 if one title holds the other, else the ratio, titles folded and stripped and empty ones passed over. There is one exactly if some score is 1, or above zero and at least the floor. |
| SourceValidator.CleanText | backend/pwbs/briefing/validation.py:307-326 | The loop replaces the texts of the unmatched references one after the other, in both modes, then collapses and strips. |
| SourceValidator.Validate | backend/pwbs/briefing/validation.py:118-195 | Every extracted reference is judged by the scan, the text is cleaned of exactly the rejected ones, they are counted, and exactly the matched documents' chunks are listed, once each; without references the text is unchanged. |
| SourceValidator.ChunksAppend | backend/pwbs/briefing/validation.py:155-185 | The chunks are collected one reference after the other, each those of its document. |
| SourceValidator.UniqueInOrder | backend/pwbs/briefing/validation.py:184-185 | The listed chunks keep the order of their first occurrence. |
| SourceValidator.CleaningOnceIsEnough | backend/pwbs/briefing/validation.py:155-182 | If no accepted reference holds a double space, validating the cleaned text again rejects nothing and changes nothing. |
| CosineBound.CauchySchwarz | backend/pwbs/briefing/validation.py:383-390 | For vectors of any, even unequal, lengths the square of the zipped product is at most the product of the full sums of squares. |
| CosineBound.DotMeans | backend/pwbs/briefing/validation.py:385 | One more pair of coordinates adds its product; what the longer vector has beyond the other does not count. |
| CosineBound.CosineInUnit | backend/pwbs/briefing/validation.py:383-390 | The cosine similarity lies between -1 and 1. |
| CosineBound.CosineMeans | backend/pwbs/briefing/validation.py:383-390 | The similarity times both norms is the product of the vectors, 0 if a norm is 0, and 1 for a vector with itself. |
| QualityGate.SplitExactly | backend/pwbs/briefing/validation.py:335 | The pieces hold no place to split, and the text is the pieces with white space after a mark, or line breaks, between any two. |
| QualityGate.SentencesAreWhole | backend/pwbs/briefing/validation.py:393-396 | Sentences are non-empty, begin and end without white space and hold no place to split. |
| QualityGate.SentencesKeepLetters | backend/pwbs/briefing/validation.py:393-396 | The sentences hold the text's characters in order, white space aside. |
| QualityGate.Nearest | backend/pwbs/briefing/validation.py:485-493 | The scan returns the largest similarity, at least 0, and the first chunk that has it, or the first chunk if none is positive. |
| QualityGate.ScoreSentence | backend/pwbs/briefing/validation.py:474-503 | A sentence without embedding scores 0 and low; any other the largest cosine to a chunk, at least 0, high above the upper threshold, medium from the lower one on and low below, with the nearest chunk's id. |
| QualityGate.ScoreAll | backend/pwbs/briefing/validation.py:465-503 | Exactly the sentences of at least the minimal length are scored, each as often as it occurs and in order. |
| QualityGate.Validate | backend/pwbs/briefing/validation.py:423-532 | A briefing is accepted exactly if it has references and chunks and its share of low sentences is within the limit; scored are exactly its long enough sentences; overall is the mean confidence, the share that of the low ones, 0 and 1 without any; content and warning follow. |
| QualityGate.SumConcat | backend/pwbs/briefing/validation.py:505-509 | The sum behind the mean is that of its parts. |
| QualityGate.AssessmentInUnit | backend/pwbs/briefing/validation.py:484-513 | Every confidence, their mean and the share of low sentences lie in [0, 1]. |
| QualityGate.AcceptedIsConfident | backend/pwbs/briefing/validation.py:505-516 | With 0 <= medium <= high, an accepted briefing's overall confidence is at least medium times (1 - the limit). |
| QualityGate.MoreChunksRaise | backend/pwbs/briefing/validation.py:485-495 | Further chunks, wherever inserted, lower no sentence's confidence or level. |
| QualityGate.MoreChunksKeepAccepted | backend/pwbs/briefing/validation.py:505-516 | Further chunks turn no accepted briefing into a rejected one. |
| BudgetTrim.CutByPriority | backend/pwbs/briefing/context.py:568-574 | On the drop chain every section keeps a prefix, and one has shrunk only if all sections of lower priority are empty. |
| BudgetTrim.Pop | backend/pwbs/briefing/project_context.py:424-442 | A pop on the lowest non-empty section is exactly one step along the chain. |
| BudgetTrim.FirstFitExists | backend/pwbs/briefing/context.py:586-599 | For every context, budget and tokenizer there is a first fitting point, or everything is dropped. |
| BudgetTrim.FirstFitUnique | backend/pwbs/briefing/context.py:586-599 | There is only one, so the specification determines the result. |
| BriefingContexts.MorningContext.EnforceTokenBudget | backend/pwbs/briefing/context.py:564-602 | The three loops end at the first state of the chain documents, patterns, decisions that fits the budget, or with all of them empty: each keeps a prefix, one shrinks only if those before it are empty, a context that fits stays. The rest is unchanged, the count is a recount, truncated is set exactly if something was dropped. |
| BriefingContexts.MorningText | backend/pwbs/briefing/context.py:605-629 | What is measured is exactly the date and every event, document, decision and pattern, in this order, each behind a blank. |
| BriefingContexts.MorningLength | backend/pwbs/briefing/context.py:605-629 | Measured in characters this is the sum of all fields and entries and a blank for each entry. |
| BriefingContexts.MorningDrop | backend/pwbs/briefing/context.py:582-597 | An entry dropped takes off its length and one blank. |
| BriefingContexts.MorningHolds | backend/pwbs/briefing/context.py:607-626 | Every entry occurs in the measured text. |
| BriefingContexts.ProjectContext.EnforceTokenBudget | backend/pwbs/briefing/project_context.py:402-446 | The same for documents, open items, participants and timeline with a running total; truncated is set exactly if the context was over budget. |
| BriefingContexts.ProjectText | backend/pwbs/briefing/project_context.py:449-473 | What is measured is exactly the name and every decision, timeline entry, participant, open item and document, in this order, each behind a blank and its section's word. |
| BriefingContexts.ProjectLength | backend/pwbs/briefing/project_context.py:449-473 | Its length in characters. |
| BriefingContexts.ProjectDrop | backend/pwbs/briefing/project_context.py:424-442 | An entry dropped takes off its length, its section's word and the blank. |
| BriefingContexts.ProjectHolds | backend/pwbs/briefing/project_context.py:455-470 | Every entry occurs in it behind its section's word. |
| BriefingContexts.WeeklyContext.EnforceTokenBudget | backend/pwbs/briefing/weekly_context.py:488-518 | The same for documents and project progress, over a text whose section headings vanish with their last entry. |
| BriefingContexts.WeeklyText | backend/pwbs/briefing/weekly_context.py:524-559 | What is measured is exactly week and number and each section with entries under its heading, one entry a line. |
| BriefingContexts.WeeklyLength | backend/pwbs/briefing/weekly_context.py:524-559 | Its length in characters: a section adds heading and lines, and nothing without entries. |
| BriefingContexts.WeeklyDrop | backend/pwbs/briefing/weekly_context.py:504-514 | An entry dropped takes off its line, the last of a section the heading's too. |
| BriefingContexts.WeeklyHolds | backend/pwbs/briefing/weekly_context.py:531-557 | Every entry occurs in it on a line of its own. |
| BriefingContexts.MeetingContext.EnforceTokenBudget | backend/pwbs/briefing/meeting_context.py:353-382 | The same for documents and open items. |
| BriefingContexts.MeetingText | backend/pwbs/briefing/meeting_context.py:384-403 | What is measured is exactly title, time, location and every participant, document and open item, in this order, separated by blanks. |
| BriefingContexts.MeetingLength | backend/pwbs/briefing/meeting_context.py:384-403 | Its length in characters. |
| BriefingContexts.MeetingDrop | backend/pwbs/briefing/meeting_context.py:366-380 | An entry dropped takes off its length and one blank. |
| BriefingContexts.MeetingHolds | backend/pwbs/briefing/meeting_context.py:387-400 | Every entry occurs in it. |
| BriefingContexts.TrimmedContext | backend/pwbs/briefing/weekly_context.py:505-516 | A trimmed context fits or has nothing trimmable left, and with one entry fewer dropped it would not have fitted. |
| BriefingContexts.TruncatedWithoutLoss | backend/pwbs/briefing/project_context.py:444-446 | Something is dropped exactly if the context was over budget with something to drop; this is where the four notions of truncated differ. |
| BriefingContexts.TruncatedWithNothingDropped | backend/pwbs/briefing/project_context.py:444-446 | A project context with nothing to drop is marked truncated. |
| CalendarCursor.FetchSince | backend/pwbs/connectors/google_calendar.py:240-368 | Every event becomes a document or an error, each in the events' order; the cursor wraps the incoming one while pages remain, is the next sync token on the last page, and is absent with more to come after a 410. |
| CalendarCursor.RequestExactly | backend/pwbs/connectors/google_calendar.py:278-287 | Without a cursor a request has no token; a token as issued goes along as sync token, without a page. |
| CalendarCursor.ChainUnwraps | backend/pwbs/connectors/google_calendar.py:68-93 | After k non-final pages k decodings of the cursor give back the original cursor and all k page tokens in order. |
| CalendarCursor.RequestOnPage | backend/pwbs/connectors/google_calendar.py:278-287 | The request for a page carries that page's token and, as sync token, the whole cursor before it. |
| CalendarCursor.OriginalTokenExactly | backend/pwbs/connectors/google_calendar.py:348-354 | The original sync token is sent if and only if at most one page has been read before. |
| CalendarCursor.RepairedKeepsToken | backend/pwbs/connectors/google_calendar.py:73-77 | If the decoded token were re-encoded, every request would carry the original sync token and the right page. |
| CalendarCursor.Listing.GoesRound | backend/pwbs/connectors/google_calendar.py:300-311 | Against a service that accepts only tokens it issued, a full sync of three or more pages cycles through first page, second page and 410. |
| CalendarCursor.Listing.CompletesExactly | backend/pwbs/connectors/google_calendar.py:348-362 | There a full sync ever gets its last page if and only if the listing has at most two pages. |
| CalendarCursor.ThreePagesNeverComplete | backend/pwbs/connectors/google_calendar.py:348-362 | A listing of three pages is never read to its end, for any codec; the variant reads it in three calls. |
| CalendarCursor.Listing.RepairedCompletes | backend/pwbs/connectors/google_calendar.py:348-362 | The variant completes every listing with exactly as many calls as pages. |
| Billing.FindMeans | backend/pwbs/billing/service.py:329-332 | A lookup finds none, the only, or several matching rows. |
| Billing.PlanExactly | backend/pwbs/billing/service.py:95-102 | A user is on the paid plan exactly if their row has it with status active or trialing. |
| Billing.HandledExactly | backend/pwbs/billing/service.py:279-486 | What each event comes to, column by column, in every case of the lookup, and what it answers. |
| Billing.Session.CheckoutCompleted | backend/pwbs/billing/service.py:313-358 | The handler's assignments, its flush and the rollback are one atomic application: the customer's row, or a new one of the user, has the subscription and the paid plan, its other columns kept; refused exactly if that would use a subscription or user twice or the user does not exist. |
| Billing.Session.SubscriptionUpdated | backend/pwbs/billing/service.py:361-415 | The row with the subscription, else the only one with the customer, gets status, cancellation and those of period start, period end and price that the event brings; nothing else changes. |
| Billing.Session.SubscriptionDeleted | backend/pwbs/billing/service.py:418-444 | The row with the subscription keeps user, customer and cohort and is free and canceled otherwise; the user's plan is then free. |
| Billing.Session.ConfirmPayment | backend/pwbs/billing/service.py:447-465 | The row with the subscription becomes active and nothing else changes; its plan is then the user's. |
| Billing.Session.RejectPayment | backend/pwbs/billing/service.py:468-486 | The row with the subscription becomes past due and nothing else changes; the user's plan is then free. |
| Billing.Session.HandleWebhookEvent | backend/pwbs/billing/service.py:279-310 | Any event, dispatched, is one atomic application with those effects; the table's constraints hold before and after. |
| Billing.Session.GetOrCreateFree | backend/pwbs/billing/service.py:74-92 | The user's row is returned, created as a free active one if missing; nothing else changes; it fails exactly for a user that does not exist. |
| Billing.Session.CreateCheckout | backend/pwbs/billing/service.py:144-214 | An active paid plan is refused, a Stripe customer on the row is used without a change, and otherwise the customer Stripe creates is written into the row or a new free one; the insert fails exactly for a user that does not exist. |
| Billing.DeliveredTwice | backend/pwbs/billing/service.py:279-310 | Any event delivered twice leaves the table as delivered once. |
| Billing.RunConsistent | backend/migrations/versions/0005_add_subscriptions.py:55-57 | In every run of webhooks, requests for a user's row and started checkouts users and subscription ids stay unique and users exist. |
| Billing.DistinctExactly | backend/migrations/versions/0005_add_subscriptions.py:55-57 | Nothing enforces unique customers: a call keeps them distinct if and only if it does not write a customer in use, that is create a row with one or start a checkout with one for a user without paid plan and Stripe customer; a webhook never does. |
| Billing.RunDistinct | backend/pwbs/billing/service.py:74-92 | Without such a call customers stay distinct in every run. |
| Billing.NeverAmbiguous | backend/pwbs/billing/service.py:376-381 | While customers are distinct no event's lookup finds several rows. |
| Billing.SharedCustomer | backend/pwbs/billing/service.py:329-332 | After two users' rows were created for one customer every checkout of that customer raises. |
| Billing.PlanIsLastGrant | backend/pwbs/billing/service.py:334-350 | A row is on the paid plan if and only if the last plan-changing event applied to it is a completed checkout. |
| Billing.ProOnlyByCheckout | backend/pwbs/billing/service.py:95-102 | From any table of free rows, after any calls: a user is on the paid plan if and only if their row's last plan-changing event is a completed checkout and its status is active or trialing. |
| Billing.DeletionIsFinal | backend/pwbs/billing/service.py:434-440 | After an applied deletion no sequence of calls without a completed checkout brings the paid plan back. |
| Billing.AccessAfterUpdate | backend/pwbs/billing/service.py:387-395 | After an update the paid plan is effective if and only if the row has it and the status is none of canceled, past_due and incomplete. |
| Billing.UnpaidKeepsPaidPlan | backend/pwbs/billing/service.py:387-395 | A user whose subscription Stripe reports as unpaid keeps the paid plan. |
| Marketplace.Service.PublishPlugin | backend/_deferred/marketplace/marketplace_service.py:42-91 | The call is refused, without any change, exactly for an unknown kind, an unknown author or a slug and version in use; otherwise it adds one pending plugin and nothing else. The invariants hold before and after, and it is the step the runs are made of. |
| Marketplace.Service.ReviewPlugin | backend/_deferred/marketplace/marketplace_service.py:99-132 | Refused exactly for a missing plugin or a transition that is not allowed; otherwise the status is set, and on approval verification and date. The invariants hold before and after. |
| Marketplace.Service.InstallPlugin | backend/_deferred/marketplace/marketplace_service.py:195-261 | Refused exactly if the plugin is missing or not approved, installed already, the user has 50, the configuration is not accepted or the user does not exist; otherwise one row more and the count one higher. The invariants hold before and after. |
| Marketplace.Service.UninstallPlugin | backend/_deferred/marketplace/marketplace_service.py:264-290 | Refused exactly if there is no row; otherwise the row is gone and the count one lower, not below zero. The invariants hold before and after. |
| Marketplace.DeletionExactly | backend/pwbs/models/plugin.py:43-121 | A deleted account takes along its rows, the plugins it wrote and their rows, and nothing else. |
| Marketplace.RunKeeps | backend/_deferred/marketplace/marketplace_service.py:111-130 | In every reachable state a plugin is verified exactly if it has a publication date and exactly if it is approved or suspended; installed plugins exist and were published; no user has more than 50; slug and version are unique. |
| Marketplace.PublishedForGood | backend/_deferred/marketplace/marketplace_service.py:124-128 | A publication date once set never changes, whatever calls follow, while the plugin exists. |
| Marketplace.CountIsRowsPlusLost | backend/pwbs/models/plugin.py:43-121 | A plugin's install count is its number of installation rows plus those that account deletions removed. |
| Marketplace.NothingLostExactly | backend/pwbs/dsgvo/deletion_service.py:120-122 | Account deletions took none of a plugin's rows if and only if no account was deleted while it had the plugin installed. |
| Marketplace.CountExactly | backend/pwbs/dsgvo/deletion_service.py:120-122 | The count is the number of rows if and only if no account was deleted while it had the plugin installed. |
| Marketplace.CountDrifts | backend/pwbs/dsgvo/deletion_service.py:120-122 | After publishing, approval, an installation and the deletion of that account the count is 1 without a row. |
| Marketplace.CountIsRows | backend/_deferred/marketplace/marketplace_service.py:250-287 | In runs of marketplace calls alone the count is the number of rows. |
| Marketplace.FloorNeverApplies | backend/_deferred/marketplace/marketplace_service.py:282-287 | Whatever can be uninstalled was counted, so the decrement's floor never applies. |
| Marketplace.InstallThenUninstall | backend/_deferred/marketplace/marketplace_service.py:195-290 | Uninstalling undoes an installation completely. |
| Permissions.RankIsInclusion | backend/_deferred/rbac/permissions.py:13-70 | A role has all permissions of another if and only if it does not rank below it. |
| Permissions.HeldFromRank | backend/_deferred/rbac/permissions.py:13-75 | Each permission is held exactly from its lowest role upwards. |
| Permissions.AssignableIsBelow | backend/_deferred/rbac/permissions.py:78-89 | A role can be assigned exactly by the roles above it; the owner's special case changes nothing. |
| Organizations.Backend.CreateOrganization | backend/_deferred/teams/service.py:43-73 | Succeeds exactly for an existing user and a free slug or fallback, and adds the organization with the creator as owner; otherwise nothing changes. The invariants hold before and after, and it is the step the runs are made of. |
| Organizations.Backend.InsertMember | backend/_deferred/teams/service.py:115-143 | Only an owner inserts; an existing membership is returned unchanged; otherwise one row is added. |
| Organizations.RolesLetThrough | backend/_deferred/rbac/permissions.py:13-75 | Which roles the three membership routes let through. |
| Organizations.Backend.AddOrgMember | backend/_deferred/routes/organizations.py:172-228 | Succeeds exactly if an owner asks for a role below owner for a member or an existing user; adds the row unless there is one, and an audit entry; otherwise nothing changes. The invariants hold before and after. |
| Organizations.Backend.RemoveOrgMember | backend/_deferred/routes/organizations.py:231-273 | Succeeds exactly if an owner removes a member, whose row is then gone; otherwise nothing changes. The invariants hold before and after. |
| Organizations.Backend.ChangeOrgMemberRole | backend/_deferred/routes/organizations.py:276-337 | Succeeds exactly if an owner gives a member a role below owner; otherwise nothing changes. The invariants hold before and after. |
| Organizations.Backend.SetDocumentVisibility | backend/_deferred/teams/service.py:230-261 | Succeeds exactly for the document's owner and, for the team, an existing organization, which is set then and cleared if private; otherwise nothing changes. The invariants hold before and after. |
| Organizations.RunKeeps | backend/_deferred/teams/service.py:64-70 | In every reachable state an organization's owners are its creator or nobody, members refer to existing organizations and users, and slugs are unique. |
| Organizations.OwnerlessIsFrozen | backend/_deferred/teams/service.py:127-192 | Once an organization has no owner its membership never changes again. |
| Organizations.OwnerLostExactly | backend/_deferred/teams/service.py:146-192 | An organization loses its owner if and only if the owner removes or demotes themself. |
| Organizations.MembershipRequestsExactly | backend/_deferred/routes/organizations.py:180-217 | A membership request succeeds if and only if an owner makes it, for a role below owner and a member or user that exists; otherwise nothing changes. |
| Organizations.ManagerRefused | backend/_deferred/teams/service.py:127-129 | A manager who holds the permission to invite and may assign the role is refused. |
| Organizations.AuditReplays | backend/_deferred/routes/organizations.py:218-227 | The audit trail replayed over the founding owners gives the membership, in every reachable state. |
| Organizations.ListedExactly | backend/_deferred/teams/service.py:213-227 | The team listing holds, for a member, exactly the organization's documents that the access check grants, and for anyone else nothing. |
| Organizations.SharingExactly | backend/_deferred/teams/service.py:264-291 | After a visibility change the document can be read exactly by its owner and, if shared, the organization's members; no other document's readers change. |
| Organizations.RemovalRevokes | backend/_deferred/teams/service.py:282-291 | A removed member loses exactly access to others' documents of that organization. |

## Left out

- Rebasing of local commits by `git pull --rebase`: a clone with commits of its own fails the pull in the model; the invariant shows that no command ever starts there.
- Network failures of a push whose outcome is unknown to the client, and processes that are killed between two git calls.
- Other top-level keys of the task file, stale-claim warnings, printing, argument parsing.
- Slack runs with HTTP errors (the cursor is advanced even then), messages without a stamp, threads that gain replies after they were delivered, merging a thread into one text, the base64 and JSON text of the cursor.
- Notion markdown, titles and properties of a page; databases; the JSON text of the cursor.
- Notion and calendar sync with pages edited while a search is being read.
- HTTP, OAuth, webhook signatures, rate-limit retries, token storage.
- White space and letter case outside Latin-1; `SequenceMatcher`, embeddings and tokenizer are arbitrary functions; similarities are computed over the reals, without rounding.
- The formatting of a context's entries: an entry is the text it contributes; the assembly of the contexts from search and graph.
- `participant_histories` of the morning context, which is neither counted nor trimmed.
- The Stripe API behind a checkout session (the id of a created customer is an input) and its configuration, the portal, feature limits, the `expires_at` column, and the second copy of the billing service under `_deferred`.
- Plugin manifests beyond whether a configuration is accepted; browsing, ratings, configuration and toggling of plugins.
- Slug generation: the slug and its fallback are inputs. Organization routes that only read. Account deletion and single sign-on provisioning as they affect memberships.
- The order and limit of the team listing: every selection from it is covered, because each listed document is.
- Concurrent database transactions: one call is one transaction.
