# Ticket service: verified models

The service mirrors incident tickets from ServiceNow into a local table, works out
for each of them how urgently a lead should look at it, redacts what it sends to a
language model, and decides who may see what. This project models the seven parts of
it whose correctness spans many calls, and proves what each of them promises.

`dafny verify dfyconfig.toml` checks everything.

## How the parts are modelled

**Access (`Accounts`, `Queues`, `AccessRequests`, `AccessProtocol`, `SelfDecision`,
`LastAdmin`).** The account table is a map from user name to account, the request table
a map from id to request. The methods of `UserStore` and `RoleRequestService` are first
proved one call at a time: what each leaves in the tables, and that no sequence of
account operations ever loses the last active administrator. `AccessProtocol` then takes
the same calls apart into their SQL statements and lets any number of them interleave
with each other, with the nightly sweep and with every other writer of the account
table. A decision is final, is made once, by another than made the request, and calls
`set_role` once at most, from the very call that won. (That at most one request per
account and role is open, `OneOpenRequestEach`, is the unique key's doing and holds by
its guard alone.) An approval never narrows: over any run, if the account is at the role
write what it was at the scope read, every queue stays and the names ticked are covered
exactly when they hold no comma. It takes sight away from exactly one kind of account,
an administrator with no scope of its own; that account is reached where
`allowed_targets` lets ADMIN be asked for, by a request older than the promotion.

`LastAdmin` follows the check in `set_role`, which reads before it writes. Two calls
about to demote the only two administrators leave nobody exactly when both checks come
before either write. Such a run starts from a table with an administrator in it: two
approvals cross, after a change of roles from outside that keeps one. A write takes the
last administrator away exactly when the table it writes to no longer allows it, over
whole runs too; as long as nobody writes between a read and its write, one remains after
every run.

**Sync (`Sync`, `SyncWatermark`).** `Sync` runs the program's loops against a remote
that holds still. A full sync makes the active tickets exactly the remote open ones in
scope, for every table it may start from, exactly when its two windows reach all of them
and a re-read would keep no others. For dates that needs `aged_after_days` to be less than
45; at 45 there is an instant both windows miss. For scope it needs no open ticket in a
group that differs from a configured one in case or outer blanks alone, because the query
compares names exactly and the re-read does not. `SyncWatermark` lets the remote move
between any two statements, whatever the scope: no visible change is missed exactly when
updates become visible in less than the five minutes of overlap and the windows meet. Five
minutes to the second is already too late.

**Activity (`Activity`).** The grouping loop is proved equal to a plain description of
it, and replaying the cards is compared with replaying the raw events. They agree after
every save exactly when no save is of the one lossy shape, a blank field that ends on
the first value it was given after holding another. In the end they agree on a field
exactly when each save that is lossy there is followed by one whose card speaks of it.

**Redaction (`Placeholders`, `Scrubbing`, `Secrets`, `Secrecy`, `Nesting`,
`Redaction`).** The program works on characters. The proofs read the same text as
symbols, in which a placeholder is one symbol, and show that `str.replace` and
dictionary lookup cannot tell the two apart. Nothing a pattern finds when its turn comes
is in what goes out (`Secrecy`). Scrubbing first rewords secrets, so that "pwd=X"
becomes "pwd: X" with a placeholder for X. What comes back is the reworded text, exactly
when no match had a blank at an end and every nested placeholder is strictly shorter
than the one around it; and it is the text itself exactly when, besides, every secret in
it was given in that form. All three conditions can fail with the shipped patterns:
"pwd=X" is such a text, a card number can match a trailing blank, and the ten-thousandth
API key inside a private key is as long as the key's own placeholder. Nesting fails much
sooner in a text that is scrubbed twice: what is left of "pwd: X" is "pwd: " and a
placeholder, which the second scrub takes for the secret, and the two placeholders are
equally long.

**Signals and score (`Signals`, `Timeutil`, `Scoring`).** One theorem covers reordering
and noise together: a history mixed, in any order, with events that record no work by
an agent or the caller gives the same signals. An untouched ticket only climbs, for
every setting of the thresholds. Before rounding this holds of every history exactly when
none of the four weights that watch the clock is negative; a table that breaks this is
accepted by `load_weights`, and under one of them every breached ticket of the lowest
priority sinks from 100 to 91 in ten days.

**Settings (`Json`, `SettingsStore`, `SettingsRaces`, `AdminSettings`, `Config`).** One
process alone reads what it wrote. Under threads, what a read hands out is what the
table held less than thirty seconds, plus that load, ago. The module's documentation
says a write refreshes immediately: every later read shows it exactly when, at the
moment the write forgets the cache, no other read has loaded an older table and not yet
stored it. Saving a form twice changes nothing exactly when no number in it
is NaN, which `float()` accepts and neither bound turns away. Reading key by key and
reading the merged file agree on every override and on every path apart from the
overrides; a whole subtree read through `get` (`core/context.py:151`) is right exactly
when each override inside it only repeats the file.

**Vector index (`Retrieval`).** Whatever was written and invalidated before, a search
returns a top-k list of the table itself, and any two such lists have the same scores.

Beside these stand short lemmas, one for each table and guard the program is made of, that
say in plain numbers and words what it gives: which states are open, which share of the
accounts is too many, how many points a priority is worth.

`Text` and `Collections` hold the string and set operations the others share.

## Assumptions

ServiceNow, Keycloak, the patterns of the redactor, number parsing, timestamp parsing,
the follow-up hint and the norm of a vector are parameters: any total function will do.
A database statement is atomic. Scores and durations are reals, instants are whole
seconds. Where a proof needs more than that, the lemma says so in its `requires`.

## Model

| member | source | states |
|---|---|---|
| Text.LowerIs | web/access.py:87-91 | lower case, letter by letter |
| Text.BlankIs | web/access.py:83-84 | which characters are stripped |
| Text.SplitIsUndone | web/access.py:83-84 | the parts of a split, with the separator in between, are the text |
| Text.TwoNamesJoined | web/access.py:87-91 | two names are stored with a comma and a blank between them |
| Text.ParsedNamesAreClean | web/access.py:83-84 | every name read out of a stored list is trimmed, not empty and free of commas |
| Text.StoredListRoundTrip | web/access.py:83-91 | a list of such names joined and split again is the same list |
| Queues.LexIs | web/access.py:87-91 | the order of names is that of a dictionary |
| Queues.JoinNames | web/access.py:87-91 | returns one of the lists that sorting the set of cleaned names by lower case may give, or nothing when no name is left |
| Queues.ListingIsUnique | web/access.py:87-91 | without two names that differ only in case, that sorted list is determined by the set |
| Queues.JoinIgnoresOrderIff | web/access.py:87-91 | the stored text is the same for every order of the names exactly when no two of them differ only in case |
| Queues.TickedIsReadBackIff | web/access.py:83-91 | of the names an administrator ticked, those read back out of the stored text are exactly those without a comma |
| Queues.WideningNeverNarrows | web/access.py:326-356 | the widened scope, stored and read back, keeps every earlier queue in place, covers every granted one and adds none already held in another case |
| Accounts.UserStore.SetRole | web/auth.py:383-414 | the whole table after a grant; refused for the last active administrator |
| Accounts.UserStore.SetActive | web/app.py:1322-1353 | the whole table after the active flag is set; three refusals, nothing else changes |
| Accounts.UserStore.JitUpsert | web/auth.py:416-501 | the whole table after a sign-in: by external id, by adoption of an unlinked row, or a new row |
| Accounts.SignInKeeps | web/auth.py:416-501 | a sign-in keeps role, flag and sources, and the scope unless it is the directory's and to be refreshed |
| Accounts.UserStore.Create | web/auth.py:503-524 | a new local account, or nothing when the name is taken |
| Accounts.UserStore.LookUp | scheduler/jobs.py:209-229 | stamps exactly the accounts still there, lists the missing, counts the failures |
| Accounts.UserStore.Sweep | scheduler/jobs.py:248-272 | deactivates the doomed accounts in order and no others; a dry run writes nothing |
| Accounts.UserStore.ReconcileUsers | scheduler/jobs.py:165-274 | the report and the whole table of one nightly pass, or that it was skipped and changed nothing |
| Accounts.SweepTracksLiveAdmins | scheduler/jobs.py:248-272 | the loop's own set of administrators equals the live active administrators at every point of a real run |
| Accounts.SweepIsDoomed | scheduler/jobs.py:248-272 | the sweep takes the flag from exactly the missing accounts minus the spared administrator |
| Accounts.RealRunDeactivatesExactly | scheduler/jobs.py:191-274 | exactly the missing minus the spared; never a local account, never one whose lookup failed |
| Accounts.NeverAboveTheCeiling | scheduler/jobs.py:234-246 | the accounts a run takes the flag from are, in percent of those checked, at most the ceiling; a refused run takes it from nobody |
| Accounts.RefusedIff | scheduler/jobs.py:234-246 | a run is refused exactly when the missing, in percent of the accounts checked, are more than the ceiling |
| Accounts.PercentIs | scheduler/jobs.py:234-246 | the percentage times the number checked is a hundred times the number missing |
| Accounts.FlagsStayWhenRefused | scheduler/jobs.py:234-246 | a refused run, and a dry one, takes the flag from nobody |
| Accounts.DryRunForetells | scheduler/jobs.py:191-274 | a dry run reports what the real run would report and takes no flag |
| Accounts.OneSparedAtMost | scheduler/jobs.py:248-272 | at most one account is spared, and only when every active administrator has gone |
| Accounts.AnAdminAlwaysRemains | web/auth.py:383-411 | no finite sequence of role changes, activations, sign-ins, creations and reconcile runs loses the last active administrator |
| AccessRequests.RoleRequestService.Choose | web/access.py:229-247 | the queues asked for, in the service's spelling, without those already held |
| AccessRequests.CanonicalIff | web/access.py:229-240 | a queue asked for is unknown exactly when the service knows none of that name in whatever case |
| AccessRequests.RejectionStands | web/access.py:284-325 | a rejection stands in the way of the queues it named until the cooldown is over; nothing else does |
| AccessRequests.BroaderRoles | web/access.py:210-217 | which roles are broader than which |
| AccessRequests.NoteIs | web/access.py:391-397 | a note is kept trimmed, up to two thousand characters, or not at all |
| AccessRequests.ElevationReplacesScope | web/access.py:326-356 | for an account that does not hold the role, the stored scope read back is what was granted |
| AccessRequests.AllKnownIff | web/access.py:369-376 | an approval knows the queues ticked exactly when each is one of the service's in whatever case |
| AccessRequests.WhoMayDecide | web/access.py:436-449 | a decision may proceed exactly when it is another's request and the account is there and active |
| AccessRequests.RoleRequestService.OpenRequest | web/access.py:183-282 | opens the request exactly when nothing stands against it, as a pending row of the person and role asked for, and otherwise gives the first ground in the order of the checks and changes nothing |
| AccessRequests.RoleRequestService.Approve | web/access.py:358-410 | which answer is given when, and the request row and the account after each; refused for one's own request, for an account gone or inactive and for a queue unknown |
| AccessRequests.RoleRequestService.Reject | web/access.py:412-434 | the request row and the answer after a rejection; refused for one's own request and for an account gone or inactive |
| AccessRequests.RoleRequestService.Cancel | web/access.py:453-460 | withdrawn by its owner while pending; otherwise nothing changes |
| AccessRequests.RoleRequestService.ExpireStale | web/access.py:462-475 | exactly the pending rows past their time expire, no other row changes, and the count is right |
| AccessRequests.ApprovalNeverNarrows | web/access.py:326-356 | for an account that holds the role, the stored scope read back keeps every earlier queue and covers, of the names ticked, exactly those without a comma |
| AccessRequests.ApprovalKeepsSightIff | web/access.py:326-356 | such an approval takes no sight away exactly when the account is not an administrator with an empty scope |
| AccessRequests.AdminIsATarget | web/access.py:201-212 | nobody who is none yet asks to become an administrator unless the settings list that role |
| AccessRequests.AnOldRequestTakesSight | web/access.py:183-410 | a lead without a scope may open a request for ADMIN; approved after the lead was made an administrator, it takes sight away |
| AccessProtocol.ADecisionIsFinal | web/access.py:391-404 | over every interleaving, a row that has left PENDING never changes again |
| AccessProtocol.LeavesPendingAtMostOnce | web/access.py:391-475 | over every interleaving, a request leaves PENDING at most once |
| AccessProtocol.SetRoleOncePerRequest | web/access.py:391-410 | `set_role` is called at most once for a request, only by an approval, and by the very thread whose guarded UPDATE decided it |
| AccessProtocol.OutcomesAreHonest | web/access.py:391-460 | a call told that it took effect is the thread that decided the row, so of all calls on one request at most one is; whoever is told it was decided is told the truth |
| SelfDecision.NobodyDecidesTheirOwn | web/access.py:358-460 | over every interleaving, a request approved or rejected was decided by another than made it, and one withdrawn was withdrawn by its owner |
| AccessProtocol.ApprovalWidens | web/access.py:326-410 | over any run, if the account is at the role write what it was at the scope read, its role and every queue are kept and the ticked names without a comma, and only those, are covered |
| AccessProtocol.ScopeWasRead | web/access.py:358-390 | a call past the scope read has read it at some point of its run |
| LastAdmin.TwoDemotionsLeaveNobodyIff | web/auth.py:383-411 | of the six orders of two checks and two writes, those that leave no active administrator are the ones with both checks before either write |
| LastAdmin.ApprovalsCanLeaveNobody | web/access.py:391-410 | a run from an initial machine with an administrator in it, in which two crossing approvals leave nobody, though no other writer ever does |
| LastAdmin.WriteLosesTheLastIff | web/auth.py:392-411 | a role write takes the last active administrator away exactly when the table it writes to no longer allows it |
| LastAdmin.AnAdminThroughoutIff | web/auth.py:383-411 | over every run in which no other writer leaves nobody, an active administrator is there throughout exactly when every role write meets a table that still allows it |
| LastAdmin.AnAdminRemains | web/auth.py:383-411 | over every run in which nobody writes to accounts between a read of `set_role` and its write, an active administrator remains |
| AccessProtocol.EveryRunKeepsInv | web/access.py:358-475 | the invariant of the protocol holds after every run of interleaved statements |
| Sync.IncidentReader.GetAged | pipeline/sync.py:144-150 | the reader lists the open tickets in its groups opened before the cut-off |
| Sync.IncidentReader.GetChangedSince | pipeline/sync.py:133-160 | the reader lists the tickets in its groups touched after the given instant |
| Sync.TicketSync.HighWater | pipeline/sync.py:162-169 | the newest stamp of the rows, or the fallback |
| Sync.TicketSync.FetchFull | pipeline/sync.py:144-160 | the two result sets merged, one row a ticket, and their high-water mark |
| Sync.TicketSync.FetchDelta | pipeline/sync.py:133-142 | what was touched since the watermark less the overlap |
| Sync.TicketSync.Persist | pipeline/sync.py:171-195 | every fetched row stored active, nothing else touched, and the number of changed fingerprints |
| Sync.TicketSync.RetireClosed | pipeline/sync.py:197-299 | departed tickets read again up to the ceiling, refreshed first and retired second; the rest untouched |
| Sync.TicketSync.Retire | pipeline/sync.py:301-306 | the row goes inactive and keeps everything else |
| Sync.TicketSync.Run | pipeline/sync.py:101-131 | the table, the watermark and the counters of changed and retired tickets after a run; a failed fetch changes nothing |
| Sync.ActiveAfterFullSync | pipeline/sync.py:144-299 | with no assumption on dates or scope, which tickets are active after a full sync and that each row is the remote record |
| Sync.BoardAfterFullSync | pipeline/sync.py:144-299 | in the states of ServiceNow and in seconds: which tickets are on the board after a full sync; a closed or resolved one never |
| Sync.BoardAfterDelta | pipeline/sync.py:133-142 | what a delta puts on the board and that it takes nothing off |
| Sync.FirstSeenStays | pipeline/sync.py:171-195 | the instant a ticket was first seen never changes |
| Sync.FingerprintIff | pipeline/sync.py:171-195 | a ticket counts as changed when one of six fields is another |
| Sync.AlwaysExactIff | pipeline/sync.py:144-299 | every full sync leaves exactly the wanted tickets active, whatever the table was, exactly when the windows reach all of them and a re-read keeps no open ticket the query would not return |
| Sync.ScopesAgreeIff | pipeline/sync.py:253-290 | with one list of groups for both, that second condition holds exactly when no open ticket is in a group that misses a configured one by case or blanks alone |
| Sync.FullSyncIsExact | pipeline/sync.py:144-299 | below 45 days and with the scopes agreeing on the remote, afterwards the active tickets are exactly the remote open ones in scope and each row equals its record |
| Sync.WindowsMeetIff | pipeline/sync.py:144-160 | the two windows reach every wanted ticket of every remote exactly when aged_after_days is less than 45 |
| Sync.UnreadRowsAreUntouched | pipeline/sync.py:229-299 | beyond the ceiling, or where a re-read failed, the row is as it was |
| SyncWatermark.EveryRunKeepsInv | pipeline/sync.py:101-167 | with a lag below the overlap and the windows meeting, no wanted ticket lies unreflected behind the watermark, over every run of full, delta and failed syncs and for every scope |
| SyncWatermark.NoChangeIsMissed | pipeline/sync.py:101-167 | when a run succeeds, every wanted ticket visible at its query is in the table as it was then |
| SyncWatermark.WhatIsMissingIsAhead | pipeline/sync.py:133-142 | at any moment, a wanted ticket not yet reflected is one the next delta returns |
| SyncWatermark.OverlapSufficesIff | pipeline/sync.py:133-142 | no run misses a change exactly when the visibility lag is less than the overlap and aged_after_days less than 45 |
| SyncWatermark.TheWindowsLeaveOneOut | pipeline/sync.py:144-160 | from 45 days on, the first sync of all misses a ticket opened 45 days before it |
| SyncWatermark.FiveMinutesIsTooLate | pipeline/sync.py:133-142 | with a lag of the whole overlap there is a run that misses a change for good |
| SyncWatermark.TheWatermarkMovesBack | pipeline/sync.py:162-169 | a run in which the watermark goes back to an older stamp |
| Activity.GroupActivity | web/activity.py:140-228 | the cards are the newest of the timeline, as many as the limit allows, newest first |
| Activity.SavesReplay | web/activity.py:149-210 | the events, regrouped into saves without the hidden ones, leave every field where the raw timeline leaves it |
| Activity.RowsMean | web/activity.py:184-208 | every row of a save stands for a field touched in it, with its newest value and its first known previous one |
| Activity.RowsTouched | web/activity.py:184-208 | the fields that have a row are exactly those touched, one row each |
| Activity.CardEffect | web/activity.py:212-225 | what replaying one finished card does to any field |
| Activity.SaveAndCardAgreeIff | web/activity.py:184-225 | a save and its card leave a field the same exactly when the save is not lossy there |
| Activity.CardsAgreeIff | web/activity.py:149-222 | the cards agree with the timeline after every save exactly when no save is lossy |
| Activity.PageTellsTheOutcomeIff | web/activity.py:149-228 | the page, oldest first, leaves a field where the trail leaves it exactly when each save that is lossy there is followed by one whose card speaks of the field |
| Activity.NewestFirst | web/activity.py:224-228 | for a timeline in order, the cards come newest first, and none is left out that is later than one shown |
| Activity.CardsAreWellMade | web/activity.py:149-225 | no card without anything to say, no row that is no change, no field twice, rows by label, trimmed values, nothing of the description |
| Activity.KindsAre | web/activity.py:131-158 | comments and work notes are told apart by field, the description is hidden, the nameless are the system |
| Activity.LabelKeyIs | web/activity.py:99-117 | how a field without a label of its own is named |
| Activity.EveryWordIsKept | web/activity.py:168-210 | comments and work notes are on one card each, in order, word for word |
| Activity.SetFromBlankAndPutBackIsLost | web/activity.py:212-225 | blank to A to B to A within one save shows nothing at all |
| Placeholders.DecimalIs | core/redaction.py:114-116 | the index of a placeholder is written in decimal, without a leading zero |
| Placeholders.ReadOneWay | core/redaction.py:107-120 | two readings of the same characters as text and placeholders are the same |
| Placeholders.NamesDiffer | core/redaction.py:114-120 | two placeholders of which one's characters open the other's text are the same placeholder |
| Placeholders.PlaceholderAtFront | core/redaction.py:92-95 | a placeholder's characters stand only where the placeholder stands, so PHONE_1 never clips PHONE_10 |
| Placeholders.ReplaceReadsSymbols | core/redaction.py:92-95 | `str.replace` of a placeholder's characters is replacing the placeholder |
| Redaction.MutuallyInverse | core/redaction.py:45-49 | the two dictionaries are each other's inverse whenever they hold what was issued |
| Redaction.Redactor.Placeholder | core/redaction.py:107-120 | the old placeholder for a value seen before, the next one for a new value, nothing for a blank; both dictionaries and the counter follow |
| Redaction.Redactor.Sub | core/redaction.py:62-63 | one pattern's pass over a text: what it keeps, word for word, and "[[LABEL_n]]" in place of each match |
| Redaction.Redactor.Scrub | core/redaction.py:53-64 | the secrets and then the nine passes; none of what one of the nine labels finds goes out, where no other pattern finds anything, nor a secret, where no pattern does; nothing when disabled or blank |
| Secrecy.NothingFoundGoesOut | core/redaction.py:53-64 | whatever a pattern finds when its turn comes, what goes out in the end is made of characters none of its matches holds |
| Secrecy.FirstToMatchWins | core/redaction.py:16-33 | a text that a pattern matches as a whole goes out as its placeholder, whatever later patterns would have matched |
| Redaction.NineInOrder | core/redaction.py:19-33 | the nine labels in their order |
| Redaction.CardBeforePhone | core/redaction.py:16-33 | what would do for a telephone number, too, goes out as a card number |
| Redaction.Redactor.Restore | core/redaction.py:85-95 | the placeholders replaced longest first, in any text |
| Scrubbing.IssueFacts | core/redaction.py:107-120 | issuing keeps the log sane: values distinct, indices counting up, only older placeholders nested |
| Scrubbing.PassMeaning | core/redaction.py:62-63 | a pass keeps the meaning of a text exactly when no match has a blank end, and shortens it otherwise |
| Scrubbing.TokenMeans | core/redaction.py:107-120 | a placeholder means what its value means, whatever was issued later |
| Scrubbing.TokenResolves | core/redaction.py:92-95 | restored longest first, a placeholder comes out plain exactly when everything nested in it is strictly shorter |
| Scrubbing.RestoreUndoesPassesIff | core/redaction.py:62-95 | restoring yields what a text meant before the nine passes, scrubbed before or not, exactly when nothing was trimmed and everything unfolds |
| Secrets.RewordedIsWrittenIff | core/redaction.py:102-104 | rewording leaves a text alone exactly when every secret already follows its word, a colon and a blank |
| Secrets.RestoreUndoesScrubIff | core/redaction.py:53-95 | a text without "[[" comes back reworded, then or after any number of further scrubs, exactly when nothing was trimmed and everything unfolds; itself exactly when its secrets were in colon form besides |
| Redaction.RestoreGivesTheTextBackIff | core/redaction.py:53-95 | the same of the characters and dictionaries of the program, where a text in which something was trimmed holds no bracket |
| Nesting.KeyBlocksUnfold | core/redaction.py:26-28 | if only private keys hold placeholders, of labels of at most six letters, everything unfolds below index 10000 |
| Nesting.TenThousandthStaysInside | core/redaction.py:92-95 | from API key 10000 on, a private key comes back with the placeholder inside |
| Nesting.ReachedByIssuing | core/redaction.py:92-120 | the log in which that happens is reached by issuing placeholders alone |
| Nesting.TrailingBlankIsLost | core/redaction.py:20-20 | a card match that ends in a blank comes back without it |
| Nesting.SecretScrubbedAgain | core/redaction.py:34-120 | scrubbed again, the placeholder of a secret is taken for a secret, and comes back whole exactly when the new number has more digits than the old |
| Nesting.ScrubbedTwice | core/redaction.py:34-104 | "pwd: X" comes back from one scrub and not from two |
| Nesting.AnotherFormIsReworded | core/redaction.py:102-104 | a secret given in any other form comes back in colon form |
| Nesting.OneMakesUpForTheOther | core/redaction.py:53-95 | for some patterns a text comes back although a secret was reworded and a blank trimmed, so the third condition is exact only where one of the two holds |
| Timeutil.RoundIs | core/timeutil.py:92-115 | rounding is to the nearest, and of two to the even one |
| Timeutil.DurationsAre | core/timeutil.py:92-115 | days to two decimals and whole minutes between two instants; none when the clocks disagree |
| Timeutil.DaysMonotone | core/timeutil.py:92-110 | elapsed days and minutes are never negative and never shrink as the clock advances |
| Signals.BuildTimeline | pipeline/signals.py:147-198 | the readings of the history, in order of their timestamps |
| Signals.FieldsAre | pipeline/signals.py:20-60 | the fields whose edits are work and those shown besides |
| Signals.EntryIff | pipeline/signals.py:147-198 | which rows of the history get an entry |
| Signals.EntryIs | pipeline/signals.py:147-198 | what an entry says |
| Signals.WorkIs | pipeline/signals.py:205-238 | which entries are work, and whose |
| Signals.SystemIff | pipeline/signals.py:132-144 | who counts as a machine |
| Signals.CallerIff | pipeline/signals.py:132-144 | who of the others counts as the caller |
| Signals.LastMeaningfulAgentAction | pipeline/signals.py:215-226 | the last dated entry of the timeline by an agent that counts as work |
| Signals.LastCallerActivity | pipeline/signals.py:229-238 | the last dated entry by the caller that counts |
| Signals.CountFollowups | pipeline/signals.py:282-307 | how many follow-ups there are and when the last dated one was |
| Signals.FollowUpIff | pipeline/signals.py:282-307 | a follow-up is what an agent wrote for the caller to read and that asks |
| Signals.OwnerIs | pipeline/signals.py:241-279 | whose move it is, for every reason for holding |
| Signals.ContainsThere | pipeline/signals.py:241-279 | a phrase is found in every text that holds it |
| Signals.ContainsWhere | pipeline/signals.py:241-279 | and in no other |
| Signals.DependencyIs | pipeline/signals.py:310-341 | which record a ticket waits for, and the ten states in which it is done with |
| Signals.AgesAre | pipeline/signals.py:353-378 | ages since opening and since the last work, the overrun, and what is taken over as it is |
| Signals.DaysInStateAre | pipeline/signals.py:404-406 | the time in the present state, or the age |
| Signals.StatesAre | pipeline/signals.py:404-404 | which entries change the state |
| Signals.ClosureIff | pipeline/signals.py:387-419 | when a ticket may be closed, defaults included |
| Signals.DeriveRiskFlags | pipeline/signals.py:465-506 | the flags in order, and exactly those the ticket deserves |
| Signals.FlagMeans | pipeline/signals.py:465-506 | what each of the eleven flags says about the ticket |
| Signals.GradesExclude | pipeline/signals.py:465-506 | a breach excludes being at risk, and prolonged inactivity excludes the plain kind |
| Signals.LastDatedIs | pipeline/signals.py:215-238 | in a sorted timeline the last dated entry of a kind depends on the set of timestamps alone |
| Signals.NoiseIsIgnored | pipeline/signals.py:353-462 | reordering a history and mixing in noise changes no signal but days_in_state, and not that one unless the noise changes the state |
| Signals.NoiseIff | pipeline/signals.py:147-198 | which events are noise, seen on the event itself |
| Signals.WaitingMeans | pipeline/signals.py:379-389 | with timestamps of one format, the caller waits exactly when some update of theirs is later than everything an agent did |
| Signals.ClosureNeedsAnAgent | pipeline/signals.py:215-226 | a dated follow-up found by one loop is found as an agent action by the other |
| Signals.ClosureStandsAlone | pipeline/signals.py:387-421 | CLOSURE_CANDIDATE never appears with CALLER_AWAITING_REPLY, DEPENDENCY_CLEARED or NO_ACTION_RECORDED |
| Scoring.LoadWeights | pipeline/scoring.py:32-60 | seven weights that sum to 100, whatever the table holds; the table's where they do |
| Scoring.ComputeAttentionScore | pipeline/scoring.py:149-182 | the rounded, clamped total and the line for every component |
| Scoring.LineAt | pipeline/scoring.py:166-182 | the line of each component, in order |
| Scoring.ContributionIs | pipeline/scoring.py:166-175 | a component contributes its share of its weight |
| Scoring.SlaPoints | pipeline/scoring.py:67-87 | the points for the service level, by share or by time left |
| Scoring.InactivityPoints | pipeline/scoring.py:90-94 | the points for idle time, and the default of four days |
| Scoring.AgePoints | pipeline/scoring.py:97-103 | the points for age beyond the threshold, and the default of five days |
| Scoring.FirstDigitIs | pipeline/scoring.py:106-107 | the digit a priority starts with |
| Scoring.PriorityPoints | pipeline/scoring.py:106-107 | the points for each priority |
| Scoring.ReassignmentPoints | pipeline/scoring.py:110-113 | twenty for each reassignment, thirty for each reopening, at most a hundred |
| Scoring.UnactionedPoints | pipeline/scoring.py:116-132 | the five amounts for what nobody has seen to |
| Scoring.OverrunPoints | pipeline/scoring.py:135-144 | the points for taking longer than such tickets take |
| Scoring.DefaultShares | pipeline/scoring.py:20-28 | the default weights |
| Scoring.PointsExplainTheScore | pipeline/scoring.py:166-182 | with non-negative weights the clamp never bites and the points shown add up to within 0.85 of the score |
| Scoring.RawMonotone | pipeline/scoring.py:67-144 | no component of an untouched ticket falls as time goes by, and only four can rise |
| Scoring.AnUntouchedTicketOnlyClimbs | pipeline/scoring.py:90-182 | for fixed ticket, history and service levels the score never falls as the clock advances, for all thresholds |
| Scoring.TicketsOnlyClimbIff | pipeline/scoring.py:90-182 | before rounding, no ticket of any history ever loses points by the passage of time exactly when none of the four weights that watch the clock is negative |
| Scoring.NegativeWeightsLetTicketsSink | pipeline/scoring.py:52-60 | under one accepted table every breached ticket of the lowest priority, whatever its history, sinks from 100 points to 91 in the first ten days of its life |
| SettingsStore.SettingsOverlay.Load | core/settings_store.py:115-144 | the allowed, decodable rows, or nothing when the table cannot be read |
| SettingsStore.SettingsOverlay.Current | core/settings_store.py:87-98 | the cache while fresh, otherwise a new load; alone with its table, what the table holds |
| SettingsStore.SettingsOverlay.Set | core/settings_store.py:152-168 | the row written and the cache forgotten, or a refusal that changes nothing |
| SettingsStore.SettingsOverlay.Clear | core/settings_store.py:173-184 | the row gone and the cache forgotten, or nothing when there was no override |
| SettingsStore.SettingsOverlay.Invalidate | core/settings_store.py:146-148 | the cache is no longer trusted |
| SettingsStore.SettingsOverlay.ReadAfterWrite | core/settings_store.py:87-168 | alone with its table, a read after a write of an allowed key sees that write and everything else as before |
| SettingsRaces.FreshIs | core/settings_store.py:87-113 | the cache is trusted for less than thirty seconds |
| SettingsRaces.NothingOlderIsHandedOut | core/settings_store.py:87-113 | over every interleaving, a map handed out by a load that succeeded is what the table held less than thirty seconds plus that load ago |
| SettingsRaces.AWriteIsSeenIff | core/settings_store.py:87-188 | after a write, and as long as the table is left alone, every successful read shows the table exactly when no other read held an older one when the cache was forgotten |
| SettingsRaces.ASlowReadHidesAWrite | core/settings_store.py:87-98 | a run in which a finished write is not seen by the next read |
| AdminSettings.ParseFacts | core/admin_settings.py:68-105 | what parsing yields, and that a stored number lies within its bounds unless it is NaN |
| AdminSettings.ParseIs | core/admin_settings.py:68-105 | what each kind of field stores and refuses |
| AdminSettings.ParsedListIs | core/admin_settings.py:79-81 | a list is read at commas and ends of lines, trimmed and without blanks |
| AdminSettings.Settings.ApplyForm | core/admin_settings.py:371-421 | nothing changes if one field is refused; otherwise the overrides and both lists of keys |
| AdminSettings.Settings.Reset | core/settings_store.py:173-188 | one override dropped, and whether there was one |
| AdminSettings.EqualIsSame | core/admin_settings.py:424-432 | what Python calls equal to a parsed value is the same up to a form |
| AdminSettings.OthersStay | core/admin_settings.py:403-417 | keys that were not submitted are untouched |
| AdminSettings.ReadsBackIff | core/admin_settings.py:400-417 | a submitted key reads back as submitted exactly when it is no NaN |
| AdminSettings.SavingTwiceIff | core/admin_settings.py:400-417 | saving the same form again decides to change nothing exactly when it holds no NaN |
| AdminSettings.OverriddenMeansDiffers | core/admin_settings.py:410-417 | any run of saves and resets keeps every override different from the file |
| Config.FileValue | core/config.py:95-106 | the value at a dotted path, or none where the default applies |
| Config.EffectiveDict | core/config.py:160-182 | the overrides put into the file one after another |
| Config.LookupAgreesWithGet | core/config.py:108-182 | for prefix-free keys, both ways of reading agree on every override and every path apart from them all |
| Config.UnderAnOverride | core/config.py:172-181 | a path through an override goes on inside its value |
| Config.SubtreeAgreesIff | core/config.py:108-118 | a subtree read through `get` is what is in force exactly when the overrides inside it repeat the file |
| Retrieval.MatchesIff | pipeline/retrieval.py:150-157 | which rows a filter lets through |
| Retrieval.DotPicks | pipeline/retrieval.py:160-162 | with an axis, the product of two vectors is a coordinate |
| Retrieval.DotAdds | pipeline/retrieval.py:160-162 | the product is additive |
| Retrieval.DotScales | pipeline/retrieval.py:160-162 | the product is homogeneous; with the two rows above this is what a product is |
| Retrieval.ScoreIsCosine | pipeline/retrieval.py:158-162 | a score times both lengths is the product of the vectors |
| Retrieval.VectorIndex.Load | pipeline/retrieval.py:78-126 | afterwards the matrix, if any, mirrors the table's rows of the right size |
| Retrieval.VectorIndex.Invalidate | pipeline/retrieval.py:128-132 | the matrices named are gone, the others untouched |
| Retrieval.VectorIndex.UpsertMany | pipeline/retrieval.py:181-201 | every item stored in order, the cache still a mirror or gone |
| Retrieval.VectorIndex.Search | pipeline/retrieval.py:136-177 | a top-k list of the table: filtered, descending, good enough, nothing better left out |
| Retrieval.CollectedIsTopK | pipeline/retrieval.py:164-177 | filtering by score after taking the best k leaves a top-k list of the table |
| Retrieval.ScoresAreDetermined | pipeline/retrieval.py:136-177 | two top-k lists for one search have the same length and the same scores |

## Left out

- User names, group names and setting keys are compared exactly; the database's collation, which ignores case and trailing blanks, is not modelled.
- Characters outside ASCII are neither blank, cased nor digits here.
- Floating point: scores, weights and durations are reals; NaN appears only where a form can bring it in, and infinities not at all.
- Timestamps are parsed by an arbitrary function and time zones do not appear.
- The justification text of a request, its length check, notifications and the `mark_notified` flag.
- The password side of accounts and the session cookie.
- Regular expressions: a pattern is any way of cutting a text into matches and the rest that never cuts a placeholder, and an assignment of a secret any such cut whose secret holds no blank and in which nothing but blanks follows a colon; that the shipped patterns are of this kind is not proved.
- The recursion over dictionaries in the redactor; text that already holds "[[" before its first scrub.
- Secrets.RestoreUndoesScrubIff: says nothing about a text in which a secret is not in colon form and a blank is trimmed as well, because for some patterns the one makes up for the other (`OneMakesUpForTheOther`); that it comes back reworded or not is still exact there.
- Redaction.RestoreGivesTheTextBackIff: a text in which something is trimmed holds no bracket, because trimming could bring two together and what follows them could then be read as a placeholder.
- Redaction.Redactor.Scrub: asks that its text can be read as characters and issued placeholders, because that is what text without "[[" and already scrubbed text are.
- Remote rows without a ticket number, which the sync skips; every modelled row has one.
- SHA-256 content hashes and JSON encoding are taken as injective.
- ServiceNow reads other than the three queries the sync makes; what each returns is stated in `IncidentReader`.
- The alias between a card under construction and its rows is modelled by updating the card; a negative limit or top_k is not modelled.
- `effective_dict` walks a mutable dictionary in place; the model rebuilds the dictionaries on the way.
- Config.EffectiveDict: the inner walk is the recursive function `Put`, because a dictionary is a value here and cannot be entered by reference.
- AdminSettings.Settings.ApplyForm: the file holds a list where a list is edited and nowhere else, because Python raises there and the save would stop half-way.
- AdminSettings.ReadsBackIff: the file has no boolean or list where a number is edited; `_same` would take any number but zero for true.
- The audit rows and log lines of settings, the section summaries and the restart banner.
- Retrieval.VectorIndex.UpsertMany: vectors arrive in the size of the index; the program stores what it is given and fails when loading it. Other processes writing to the table are not seen until the next load.
- Retrieval.VectorIndex.Search: the order among equal scores is arbitrary, as numpy leaves it.
- Text search fallback, KB documents, resolution baselines, alert de-duplication, recommendation storage, mail, charts, routes and OpenID Connect.
