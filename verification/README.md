# Call-centre backend: a verified model

This project models the stateful core of a call-centre backend built on Asterisk and
proves properties of the model in Dafny 4.11. It covers:

- **IVR dialplans.** IVR trees are printed as Asterisk dialplan text, read back, checked for
  conflicts, cut out of the file again, and kept in step with a table of trees. The file is a
  sequence of characters. The proofs pass from characters to lines and from lines to context
  blocks (`Text`, `Dialplan`, `DialplanLaws`, `DialplanDeletion`, `DialplanBlocks`,
  `DialplanExamples`, `DialplanReader`, `DialplanParser`, `IvrStore`, `IvrOwners`).
- **The predictive dialer.** Blasts, StasisStart, state changes, hold timers, destroyed channels,
  originate failures and DTMF digits are steps over channels, hold queue, timers, pending
  transfers, agents, call logs and leads. `DialerService` holds the handlers as methods that
  update fields; each is proved to have the effect of a function in `DialerState`, and the
  other `Dialer...` modules prove what all runs of those functions keep. In a run others may write
  and delete call logs, edit agents and leads, and add leads at any time.
- **SIP sessions.** Find, create, unique violation and find again, with one database request per
  step and any interleaving of any number of calls (`SipSessions`, `SipRows`).
- **Appointment statuses and lead hand-out** (`Crm`, `Leads`).
- **PJSIP section files.** Append, delete and replace named sections (`Pjsip`, `PjsipLaws`,
  `PjsipPieces`, `PjsipReplacement`, `PjsipReader`, `PjsipAgents`).
- **SIP messages.** The header and body split of section 7 of RFC 3261 (`SipMessages`).

The database is a set of maps with unique and foreign keys, a configuration file is a string
(or `None` when it does not exist), and hangups, originations, bridges, transfers and written
outcomes are recorded in a trace. Ids are natural numbers given out in order.

`dafny verify dfyconfig.toml` checks the whole project.

## Results that differ from what one might expect of the code

- A connected call does not always end as HUNGUP. The second leg to be destroyed finds HUNGUP in
  the log and falls back to NO_ANSWER (`DialerOutcomes.ConnectedEndsHungUpIff`).
- A lead that answered is recorded as "Answered" only when its own leg is destroyed first. When
  the agent hangs up first it is recorded as "No Answer" (`DialerOutcomes.AnsweredIffCustomerFirst`).
- HUNGUP and "Answered" need no bridge: whoever writes CONNECTED to a call log through the call-log
  service makes the dialer write them (`DialerInvariants.OutcomesAreEarned`,
  `DialerExamples.ReportedCallEndsHungUp`).
- BUSY and FAILED, and the contacts "Busy" and "Failed", never come from the dialer itself: they are
  written only after someone else has written that status to the call log
  (`DialerInvariants.BusyAndFailedAreReported`).
- A blind-transferred customer is asked to hang up when the agent leg goes, however much later,
  unless the customer is gone by then (`DialerOutcomes.TransferredCustomerIsHungUpIff`).
- A teardown leaves entries behind exactly when a call has more agent legs than the chain of
  hangups reaches (`DialerTeardown.TeardownIsComplete`, `DialerExamples.TwoAgentLegsAreReached`).
- A blast that is refused by the call limit or for want of settings has already taken a lead, which
  stays locked and is never dialled in any run (`DialerRuns.RefusedBlastLosesLead`).
- A customer for whom no agent is free drops out of the count behind the call limit until a
  StasisStart of its channel, and a customer that is up before its StasisStart waits without a
  timer until then (`DialerHolds.HeldCustomerIsCountedIff`, `DialerHolds.HeldCustomerIsTimedIff`,
  `DialerExamples.UpBeforeStasis`).
- Replacing a provider misses a section in exactly the cases `PjsipReplacement.Blocked` describes
  (`PjsipReplacement.ReplacementKeepsOthersIff`), and replacing again changes the file exactly when
  such a section was left at the end (`PjsipReplacement.ReplacingTwiceIsReplacingOnceIff`).
- The default status can be lost in exactly three ways, one of them an update of a status that
  does not exist (`Crm.DefaultSurvivesIff`).
- Deleting a context can cost another context its entries. An entry is lost when its line does not
  survive as far as the comma behind the key: because the deleted mark stands in front of that
  comma, or because a mark in an earlier line, a comment for instance, starts a cut that takes
  the line along. Where every cut ends at a header, deletion is filtering if and only if this
  happens nowhere (`DialplanDeletion.FilteringIffNoneLost`, `DialplanExamples.MarkInLineLosesEntry`,
  `DialplanExamples.MarkInCommentLosesEntry`).
- A cut can also end at a line such as `[name](!)`, which the parser does not read as a header.
  The lines behind it then come under another context (`DialplanExamples.TemplateEntriesMove`).
  Line by line the entries are right if and only if none is lost and none is moved, for every
  file (`DialplanDeletion.DeletionLineByLine`, `DialplanDeletion.ParsingAfterDeletionIff`).
- A create that fails for a missing extensions.conf, a blank name or an invalid tree leaves its row in
  the table, and a failing update leaves the new tree there; exactly these do
  (`IvrStore.FailedCreateKeepsRow`, `IvrStore.FailedUpdateKeepsTree`).
- Parsing a rendered SIP message again can lose a nameless header or a doubled carriage return,
  and nothing else (`SipMessages.ReparseIff`).

## Model

| member | source | states |
|---|---|---|
| Dialplan.ErrorsIff | src/utils/dialplan/dialplan-manager.ts:21-39 | a tree has no validation errors if and only if every node names an application and the root has a DTMF key |
| Dialplan.ValidateIvrNode | src/utils/dialplan/dialplan-manager.ts:21-39 | the recursive collection of errors gives the error list in order, empty exactly for valid trees |
| Dialplan.ProcessNode | src/utils/dialplan/dialplan-manager.ts:123-142 | the text built while walking the tree is the rendering of its list of dialplan lines |
| Dialplan.GenerateDialplan | src/utils/dialplan/dialplan-manager.ts:113-146 | a valid tree becomes its context block; an invalid one is rejected with the first validation error |
| Dialplan.ParseExtensionsConf | src/utils/dialplan/dialplan-manager.ts:48-73 | the line loop returns exactly the (context, extension) list the specification reads from the trimmed lines |
| Dialplan.GatherNewExts | src/utils/dialplan/dialplan-manager.ts:91-98 | the set gathered from a tree holds what it held before and the tree's keys, nothing else |
| Dialplan.FindConflicts | src/utils/dialplan/dialplan-manager.ts:77-112 | each kind of error is reported exactly when its cause is present; there is none if and only if the name is not blank and no key of the tree stands under it |
| DialplanParser.ErrorsInPreorder | src/utils/dialplan/dialplan-manager.ts:21-39 | the errors are the root's missing application, its missing key, and then in preorder every other node without an application, by name and id |
| DialplanParser.HeaderIff | src/utils/dialplan/dialplan-manager.ts:59-63 | the header pattern matches exactly bracketed non-empty names on one line and captures the name |
| DialplanParser.ExtIff | src/utils/dialplan/dialplan-manager.ts:66-69 | the extension pattern matches exactly `exten`, `=>` with any white space around it, a key and a comma, and captures the key; white space is part of it only when it is all there is |
| DialplanParser.ParsedIff | src/utils/dialplan/dialplan-manager.ts:48-73 | of any text the parser finds an entry if and only if a line declares it and the last header in front of that line opens its context |
| DialplanLaws.RenderExt | src/utils/dialplan/dialplan-manager.ts:66-69 | the parser's pattern finds the key of a printed entry line and nothing in a printed `same` line |
| DialplanLaws.CoreOfBlock | src/utils/dialplan/dialplan-manager.ts:113-146 | a printed context block is, line by line and up to layout, its header followed by the rendered lines of the tree |
| DialplanLaws.EntryKeysOfTree | src/utils/dialplan/dialplan-manager.ts:92-98 | the entry lines of a printed tree carry the tree's keys in preorder |
| DialplanLaws.ParserPrinterAgree | src/utils/dialplan/dialplan-manager.ts:48-73 | parsing any text followed by a printed tree gives the old list and then the preorder keys of the tree under its context |
| DialplanLaws.PlacedAreTheLines | src/utils/dialplan/dialplan-manager.ts:123-142 | the lines annotated with tree positions are the printed lines |
| DialplanLaws.GeneratedBodyIsSafe | src/utils/dialplan/dialplan-manager.ts:113-146 | the body starts with an entry line, ends in a Hangup, and every later entry line stands right behind its parent's line or a Hangup: sibling subtrees never fall through |
| DialplanReader.GeneratedTextReadsBack | src/utils/dialplan/dialplan-manager.ts:113-146 | a reader that takes the generated lines apart at their delimiters finds, in preorder, each node's key with priority 1 or the next priority, its application and its arguments, and a hangup behind every leaf that is not one |
| DialplanLaws.CutLeavesNone | src/utils/dialplan/dialplan-manager.ts:216-226 | after the pattern replacement no mark of the context is left, whatever the text |
| DialplanLaws.DeletingTwiceIsDeletingOnce | src/utils/dialplan/dialplan-manager.ts:216-226 | deleting a context twice gives the same text as once, for every text |
| DialplanLaws.DeletionUndoesSaving | src/utils/dialplan/dialplan-manager.ts:206-226 | saving a tree under an absent context and deleting it gives the trimmed file and a line feed, for trees of any depth |
| DialplanDeletion.CutIsCutLines | src/utils/dialplan/dialplan-manager.ts:221-224 | for every file the lazy global pattern works line by line: what stands in front of a mark stays, and the lines behind it go up to the next one that a bracket opens |
| DialplanDeletion.DeletedRemains | src/utils/dialplan/dialplan-manager.ts:216-226 | up to layout every file after a deletion is what remains of its lines, one by one |
| DialplanDeletion.KeptEntry | src/utils/dialplan/dialplan-manager.ts:66-69 | the first part of a line declares the line's entry if it reaches to the comma, and nothing otherwise |
| DialplanDeletion.DeletionLineByLine | src/utils/dialplan/dialplan-manager.ts:216-226 | in every file each line has the entry it should have after a deletion if and only if no entry of another context is lost and none comes under another context |
| DialplanDeletion.ParsingAfterDeletionIff | src/utils/dialplan/dialplan-manager.ts:216-226 | parsing after a deletion gives the old list without the entries of the deleted context if and only if no entry is lost and none moved, for every file that does not have both |
| DialplanDeletion.LandingMovesNone | src/utils/dialplan/dialplan-manager.ts:221-224 | when every cut ends at a header or at the end of the file no entry is moved |
| DialplanDeletion.FilteringIffNoneLost | src/utils/dialplan/dialplan-manager.ts:216-226 | when every cut ends at a header, parsing after a deletion is filtering if and only if every entry of another context keeps its line up to the comma; marks may stand anywhere |
| DialplanBlocks.HeadedLands | src/utils/dialplan/dialplan-manager.ts:221-224 | every cut ends at a header when brackets open lines only as headers; headers may be indented |
| DialplanBlocks.CutIsDropBlocks | src/utils/dialplan/dialplan-manager.ts:221-224 | the lazy pattern removes exactly the blocks of the context, line by line, from every file whose lines start with a bracket exactly when they are headers and carry the context's mark only as its header |
| DialplanBlocks.DeletedCore | src/utils/dialplan/dialplan-manager.ts:216-226 | deletion drops the context's blocks from such a file and changes nothing else but layout |
| DialplanBlocks.ParsingAfterDeletionIsFiltering | src/utils/dialplan/dialplan-manager.ts:216-226 | on such a file parsing after a deletion always gives the old list without the entries of the deleted context, in order |
| DialplanExamples.MarkInLineLosesEntry | src/utils/dialplan/dialplan-manager.ts:216-226 | an entry of another context whose key ends in the deleted mark is cut in two and no longer parsed |
| DialplanExamples.MarkInCommentLosesEntry | src/utils/dialplan/dialplan-manager.ts:216-226 | the deleted mark in a comment takes the entry behind it along |
| DialplanExamples.TemplateEntriesMove | src/utils/dialplan/dialplan-manager.ts:216-226 | when the deleted block is followed by a template header the template's entry comes under the context in front of the deleted one |
| DialplanExamples.LossHiddenByMove | src/utils/dialplan/dialplan-manager.ts:216-226 | a file with one entry lost and one moved in which the list read afterwards is nevertheless the right one |
| IvrStore.IvrService.SaveIvrDialplan | src/utils/dialplan/dialplan-manager.ts:155-215 | creates the custom file when missing, adds the include line once, checks conflicts, validates and appends; on failure what was written so far stays |
| IvrStore.IvrService.SaveIVRTree | src/system-manager/system-manager.service.ts:195-252 | the update path deletes, stores and saves under the old name; the create path refuses taken names, stores and saves; each error leaves the state its early exit leaves |
| IvrStore.IvrService.DeleteIVRTree | src/system-manager/system-manager.service.ts:437-456 | removes row and block for the owning company only; a missing file does not stop the row's deletion |
| IvrStore.IncludeOnce | src/utils/dialplan/dialplan-manager.ts:179-187 | the include line is present after a save, and a second save does not add it again |
| IvrStore.SaveKeeps | src/utils/dialplan/dialplan-manager.ts:155-215 | saving a row without a block succeeds exactly when extensions.conf exists and the row is printable, adds that row's block alone, and never meets a conflict unless the name is blank |
| IvrStore.CutKeeps | src/utils/dialplan/dialplan-manager.ts:216-226 | deleting a row's name removes that row's block and keeps every other row's block |
| IvrStore.CreateKeeps | src/system-manager/system-manager.service.ts:222-244 | a create keeps file and table in step and succeeds if and only if the name is new and not blank, extensions.conf exists and the tree is valid |
| IvrStore.UpdateKeeps | src/system-manager/system-manager.service.ts:203-221 | an update keeps file and table in step and succeeds if and only if the row exists, its name is not blank, extensions.conf exists and the tree is valid |
| IvrStore.DeleteKeeps | src/system-manager/system-manager.service.ts:437-456 | a delete keeps file and table in step |
| IvrStore.FailedCreateKeepsRow | src/system-manager/system-manager.service.ts:228-244 | a failing create leaves its row in the table if and only if the name was free and extensions.conf is missing, the name is blank or the tree is invalid; the file gets no block |
| IvrStore.FailedUpdateKeepsTree | src/system-manager/system-manager.service.ts:203-221 | a failing update changes the table if and only if the row exists, the tree is a new one and extensions.conf is missing, the name is blank or the tree is invalid; the old block is gone from the file |
| IvrStore.RunKeeps | src/system-manager/system-manager.service.ts:195-252 | every sequence of calls, failing ones included, keeps file and table in step |
| IvrStore.FileMirrorsTable | src/system-manager/system-manager.service.ts:195-252 | after any calls on a fresh system the custom file is its preamble and one printed block per row of a list of distinct rows, exactly the printable ones when extensions.conf exists |
| IvrStore.ParsedFileIsTable | src/utils/dialplan/dialplan-manager.ts:48-73 | the parser finds an entry in the file if and only if a printable row of the table has that name and key |
| IvrStore.ConflictsUnreachable | src/utils/dialplan/dialplan-manager.ts:192-204 | in every reachable state the conflict check passes for every create under a new name and every update, if the name is not blank |
| IvrOwners.DeleteAnswer | src/system-manager/system-manager.service.ts:437-456 | a delete succeeds if and only if the row exists and belongs to the caller's company; it then takes that row and its name's blocks alone, and otherwise changes nothing |
| IvrOwners.CreateStores | src/system-manager/system-manager.service.ts:222-244 | a create stores its row under a new id, with name, tree and company as given, exactly when the name is free |
| IvrOwners.UpdateStores | src/system-manager/system-manager.service.ts:203-221 | an update replaces the tree of its row and never its name or company |
| IvrOwners.FirstSave | src/utils/dialplan/dialplan-manager.ts:155-178 | the first save makes the custom file: its comment and the block |
| IvrOwners.RowLastsUntilItsCompanyDeletesIt | src/system-manager/system-manager.service.ts:195-252 | over any calls a row stays until a delete by its own company, with its name, its company and the tree of its last update |
| IvrOwners.RowsWereCreated | src/system-manager/system-manager.service.ts:222-234 | every row goes back to a create by its company under its name |
| IvrOwners.MainFileIncludesOnce | src/utils/dialplan/dialplan-manager.ts:179-187 | over any calls the main file stays as it is while there is no custom file, and then has the include line, put in once if it was missing |
| DialerServices.DialerService.StartAgentDial | src/dialer/dialer.service.ts:83-136 | an unknown agent or incomplete settings change nothing; otherwise the agent runs, becomes AVAILABLE and one blast follows |
| DialerServices.DialerService.StopAgentDial | src/dialer/dialer.service.ts:155-156 | the agent stops running and nothing else changes |
| DialerServices.DialerService.CountHeld | src/dialer/dialer.service.ts:75-81 | the loop counts exactly the structured hold entries of the company; bare ids are not counted |
| DialerServices.DialerService.BlastDial | src/dialer/dialer.service.ts:397-521 | the loop equals the recursive blast: it stops at the first turn that gives up and keeps what earlier turns did |
| DialerServices.DialerService.BelowLimit | src/dialer/dialer.service.ts:449-458 | the call limit's test on the counted hold entries; no limit when it is not positive |
| DialerServices.DialerService.DialLead | src/dialer/dialer.service.ts:422-513 | a turn takes a lead and writes its call log even when missing settings or the call limit then end the blast; only a complete turn originates and registers a channel |
| DialerServices.DialerService.OnStasisStart | src/dialer/dialer.service.ts:535-628 | which log the leg belongs to, that the log rings, and that customers alone enter the hold queue with a timer |
| DialerServices.DialerService.OnChannelStateChange | src/dialer/dialer.service.ts:631-757 | an Up event on an unknown channel changes nothing; otherwise the role decides between pairing and bridging |
| DialerServices.DialerService.PairWithAgent | src/dialer/dialer.service.ts:646-710 | without a free agent the hold entry becomes bare; otherwise the picked agent rings and is linked to the leg, and, unless the call log has been deleted, a registered agent leg is originated |
| DialerServices.DialerService.BridgeWithCustomer | src/dialer/dialer.service.ts:711-757 | without a customer leg the agent is hung up; otherwise the legs are bridged, hold entry and timer go, and, unless it has been deleted, the log is CONNECTED |
| DialerServices.DialerService.OnChannelDestroyed | src/dialer/dialer.service.ts:765-901 | outcome, hangup of the partner, and removal of the leg's entries |
| DialerServices.DialerService.RecordOutcome | src/dialer/dialer.service.ts:782-856 | the five status branches write the log's final status and the matching contact status of the lead |
| DialerServices.DialerService.SetHoldTimeout | src/dialer/dialer.service.ts:308-310 | setting a timer replaces the channel's old one |
| DialerServices.DialerService.OnHoldTimeout | src/dialer/dialer.service.ts:310-327 | a fired timer marks the log NO_ANSWER, asks to hang up and frees the hold entry, but only for a registered customer |
| DialerServices.DialerService.OnOriginateFailed | src/dialer/dialer.service.ts:488-500 | a failed origination writes INTERNAL_ERROR to log and lead and keeps the registered channel |
| DialerServices.DialerService.OnDtmfReceived | src/dialer/dialer.service.ts:904-961 | a repeated digit is dropped once; `#` opens or closes a transfer; other digits are collected while one is open |
| DialerServices.DialerService.HandleBlindTransfer | src/dialer/dialer.service.ts:963-980 | a transfer is opened exactly when both legs of the call are registered |
| DialerState.FindLeg | src/dialer/dialer.service.ts:524-528 | the first registered leg of the call in the role, or none exactly when there is none |
| DialerInvariants.NextKeepsInv | src/dialer/dialer.service.ts:397-990 | every event of the environment keeps the invariant over channels, hold queue, timers, transfers and trace |
| DialerInvariants.RunKeepsInv | src/dialer/dialer.service.ts:397-990 | every run keeps it |
| DialerInvariants.ReachableLegsOk | src/dialer/dialer.service.ts:28-37 | in every reachable state a call log has at most one registered customer, hold entries and timers belong to registered customers of their call, and transfers name a registered customer and agent leg of their own call |
| DialerInvariants.OutcomesAreEarned | src/dialer/dialer.service.ts:789-845 | in every run HUNGUP in a log or "Answered" on a lead is only ever written after a bridge of legs originated for that call, or after someone else wrote CONNECTED to its log |
| DialerInvariants.CustomersDialledOnce | src/dialer/dialer.service.ts:422-509 | over whole runs no lead, call log or channel is used for two customer originations |
| DialerInvariants.DestroyedIsFinal | src/dialer/dialer.service.ts:789-836 | in every reachable state a destroyed leg's log goes from CONNECTED to HUNGUP, stays BUSY or FAILED, and becomes NO_ANSWER from anything else, RINGING included; it gets the leg's agent, and no other log changes |
| DialerInvariants.DestroyedWritesContact | src/dialer/dialer.service.ts:838-845 | and the lead of a destroyed customer is marked contacted with the contact for that status; no other lead changes |
| DialerInvariants.LegsMatchOriginations | src/dialer/dialer.service.ts:503-509 | in every reachable state a registered customer carries the lead it was dialled for, and an agent leg the agent it was dialled to |
| DialerInvariants.LeadWritesAreDialled | src/dialer/dialer.service.ts:490-500 | every outcome ever written to a lead belongs to a call dialled to that lead before |
| DialerInvariants.BusyAndFailedAreReported | src/dialer/dialer.service.ts:812-827 | BUSY and FAILED, and their contacts, are only ever written after someone else wrote that status to the log |
| DialerEffects.DialRegistersCall | src/dialer/dialer.service.ts:425-510 | each origination of a blast registers a leg with the lead dialled, its number and the blasting agent, under a WAITING log for that agent and number; older legs and logs stay |
| DialerEffects.RunningIsLastGiven | src/dialer/dialer.service.ts:126-156 | after any run an agent runs, with its slots, exactly as the last start or stop of it has left it |
| DialerEffects.StatusIsLastGiven | src/dialer/dialer.service.ts:655-736 | after any run an agent has the status of the last start (AVAILABLE), pairing (RINGING), bridge (BUSY) or outside edit of it |
| DialerEffects.EventRow | src/dialer/dialer.service.ts:535-836 | what every event does to an existing call log: status, agent and caller id |
| DialerEffects.CallerIdStays | src/dialer/dialer.service.ts:425-434 | no run of the dialer changes the caller id of a log |
| DialerEffects.EventLeg | src/dialer/dialer.service.ts:662-664 | a pairing links the customer's leg with the agent picked, and nothing else changes a registered leg |
| DialerEffects.HeldForTheAgentsCompany | src/dialer/dialer.service.ts:607-618 | StasisStart holds the call for the company of the agent its log names, or for 0 |
| DialerEffects.UnknownCustomerIsHeld | src/dialer/dialer.service.ts:549-618 | a customer that enters Stasis without a log gets a ringing one that names the event's agent and caller, and is held with a timer |
| DialerFrames.EventTrace | src/dialer/dialer.service.ts:397-990 | each event adds exactly its own acts to the trace |
| DialerFrames.EventTables | src/dialer/dialer.service.ts:28-37 | which events can change which tables |
| DialerFrames.EventLegs | src/dialer/dialer.service.ts:503-509 | no event but its destruction removes or changes a leg, and no channel id or customer's call log is used again |
| DialerFrames.EventLogs | src/call-log/call-log.service.ts:87-93 | a deleted call log never comes back |
| DialerRuns.EventEffect | src/dialer/dialer.service.ts:646-694 | a pairing takes an available agent and uses its availability up; only a release gives it back |
| DialerRuns.PairingsNeedReleases | src/dialer/dialer.service.ts:646-694 | over any run the legs originated to an agent are at most the times the agent became available, counting the start |
| DialerRuns.ReleaseBetweenPairings | src/agent/agent.service.ts:27-40 | between two pairings that pick the same agent some event set it AVAILABLE |
| DialerRuns.BlastIsBounded | src/dialer/dialer.service.ts:397-513 | a blast originates at most as many calls as agents are free and idle, and at most five, to the leads handed out first; none for an agent that is not running, for want of settings or above the call limit |
| DialerRuns.BlastCount | src/dialer/dialer.service.ts:397-513 | how many calls a blast originates in every case: none if the agent does not run, settings are missing or the held calls have reached a positive limit, and otherwise the least of five, the available idle agents and the open leads |
| DialerRuns.WillingBlastDialsAll | src/dialer/dialer.service.ts:422-513 | a blast that has its settings and is below the call limit dials exactly the leads it takes, in hand-out order |
| DialerRuns.RefusedBlast | src/dialer/dialer.service.ts:422-479 | a blast refused for want of settings or by the call limit dials no one, but has locked one lead and written a WAITING log for it |
| DialerRuns.EventLeads | src/dialer/dialer.service.ts:397-521 | every event acts on the lead table as a sequence of hand-outs and of edits that unlock nothing |
| DialerRuns.NoLeadTakenTwice | src/dialer/dialer.service.ts:397-521 | over any run of the dialer no lead is taken twice, dialled or not: a run of the dialer is a run of the lead table |
| DialerRuns.RunSpares | src/dialer/dialer.service.ts:397-521 | a lead that has been taken is never dialled, taken or freed again, whatever run follows |
| DialerRuns.RefusedBlastLosesLead | src/dialer/dialer.service.ts:422-479 | the lead a refused blast takes stays locked as long as it exists and is dialled neither in the run before nor in any run after |
| DialerHolds.NextHolds | src/dialer/dialer.service.ts:308-336 | every event keeps a live timer for each customer held by StasisStart whose log exists |
| DialerHolds.HeldCustomersTimeOut | src/dialer/dialer.service.ts:308-328 | in every reachable state a customer held by StasisStart, whose log has not been deleted, has a live timer, and its firing marks the call NO_ANSWER, asks to hang up that customer and frees that hold entry alone |
| DialerHolds.HeldCustomerIsTimedIff | src/dialer/dialer.service.ts:308-336 | in every reachable state a held customer has a live timer if and only if the last event among its StasisStart, the firing of its timer and the bridging of its call is the StasisStart |
| DialerHolds.HeldCustomerIsCountedIff | src/dialer/dialer.service.ts:75-81 | in every reachable state the call limit counts a held customer if and only if the last event among its StasisStart and its failed pairings is the StasisStart |
| DialerTeardown.ChainReaches | src/dialer/dialer.service.ts:857-892 | the legs a teardown takes are distinct: the customer, if there is one, and of the agent legs the one it starts with and one more the customer takes along |
| DialerTeardown.TeardownIsRun | src/dialer/dialer.service.ts:765-901 | a teardown is the run of the destroy events of that chain; each unregisters a channel, so it ends |
| DialerTeardown.ChainIsAskedFor | src/dialer/dialer.service.ts:857-892 | every leg of the chain but the first was asked to hang up before it is destroyed |
| DialerTeardown.HangsUpOnlyThePartner | src/dialer/dialer.service.ts:857-892 | a destruction asks to hang up at most one channel, a leg of the same call in the other role, and does so if and only if one is registered |
| DialerTeardown.TeardownKeepsOthers | src/dialer/dialer.service.ts:765-901 | a teardown leaves every other call's channels, hold entries, timers and transfers as they were |
| DialerTeardown.TeardownIsComplete | src/dialer/dialer.service.ts:857-900 | a teardown leaves nothing of its call in any table if and only if the call has no more agent legs than the chain reaches |
| DialerTeardown.OneAgentLegIsEnough | src/dialer/dialer.service.ts:857-900 | with at most one agent leg, destroying either leg removes the whole call |
| DialerOutcomes.TeardownSettles | src/dialer/dialer.service.ts:789-836 | the log's status after a teardown, from the status before and the number of legs that go |
| DialerOutcomes.ConnectedEndsHungUpIff | src/dialer/dialer.service.ts:803-836 | a connected call ends as HUNGUP if and only if no leg in the other role is registered; otherwise it ends as NO_ANSWER |
| DialerOutcomes.RunLeadless | src/dialer/dialer.service.ts:687-692 | in every run only customer legs carry a lead |
| DialerOutcomes.TeardownWritesLead | src/dialer/dialer.service.ts:838-851 | the lead gets the outcome of the log as the customer's destruction finds it, whichever leg goes first |
| DialerOutcomes.AnsweredIffCustomerFirst | src/dialer/dialer.service.ts:838-851 | in every reachable state the teardown of a connected call records its lead as answered if and only if the customer leg goes first |
| DialerOutcomes.PartnerAfterRun | src/dialer/dialer.service.ts:857-892 | after any run an agent leg's partner is the customer its call had before, or no one when that one is gone |
| DialerOutcomes.TransferredCustomerIsHungUpIff | src/dialer/dialer.service.ts:876-891 | after a blind transfer and any run, the agent leg's destruction asks to hang up the transferred customer and no one else if that customer is still registered, and no one if not |
| DialerDtmf.RunsAreHalved | src/dialer/dialer.service.ts:904-911 | every maximal run of k equal digits contributes k/2 digits, rounded up |
| DialerDtmf.DoubledIsRecovered | src/dialer/dialer.service.ts:904-911 | a stream in which every digit arrives twice is recovered exactly |
| DialerDtmf.AcceptedOnIsAccepted | src/dialer/dialer.service.ts:904-911 | what is accepted on a channel over a run depends on that channel's digits alone, whatever other events come between |
| DialerDtmf.ClosingTransfersWhatWasHeard | src/dialer/dialer.service.ts:917-944 | a closing `#` transfers to exactly the digits since the opening one, in order, or to 200 if there are none |
| DialerDtmf.DtmfIsHeard | src/dialer/dialer.service.ts:904-961 | a digit event changes a call's capture exactly when it is accepted on a leg of the call |
| DialerDtmf.LossIsHeard | src/dialer/dialer.service.ts:777-780 | the destruction of a leg drops its own call's capture and no other |
| DialerDtmf.OtherEventsUnheard | src/dialer/dialer.service.ts:904-990 | no event but a digit or the loss of a leg touches a call's capture |
| DialerDtmf.TransfersRefineCapture | src/dialer/dialer.service.ts:904-990 | over any run the pending transfer and the transfers made of a call are those of a capture fed with its accepted digits and the loss of its legs |
| DialerDtmf.HeardOnOneLeg | src/dialer/dialer.service.ts:904-990 | when one channel alone sends a call's digits and no leg is lost, the call hears that channel's accepted digits |
| DialerDtmf.DialledTransfer | src/dialer/dialer.service.ts:904-990 | end to end: if what is accepted on that channel is digits, `#`, an extension and `#`, the customer is told to continue at that extension, or 200, once, and no transfer stays open |
| DialerDtmf.DoubledTransfer | src/dialer/dialer.service.ts:904-990 | the same for a raw stream in which every digit arrives twice |
| DialerExamples.ConnectedCallIsReached | src/dialer/dialer.service.ts:789-851 | a run reaches a connected call with both legs and a lead; its teardowns end the log as NO_ANSWER and the lead as answered or not by who goes first |
| DialerExamples.TwoAgentLegsAreReached | src/dialer/dialer.service.ts:646-694 | a run gives a call two agent legs, and the customer's teardown leaves one behind |
| DialerExamples.ReportedCallEndsHungUp | src/call-log/call-log.service.ts:87-89 | a run in which an outside CONNECTED alone makes the dialer write HUNGUP and "Answered" |
| DialerExamples.UpBeforeStasis | src/dialer/dialer.service.ts:650-654 | a run that leaves a customer held without a timer and uncounted until StasisStart |
| DialerExamples.RefusedBlastIsReached | src/dialer/dialer.service.ts:443-447 | a run in which a blast without settings loses the one lead |
| SipSessions.SessionService.Create | src/debugger/sip/sip-session/sip-session.service.ts:45-48 | creating a session fails with the unique violation exactly when the call id has one |
| SipSessions.SessionService.Step | src/debugger/sip/sip-session/sip-session.service.ts:35-68 | one database request of one call, each outcome leading to the source's next await |
| SipSessions.NextKeepsInv | src/debugger/sip/sip-session/sip-session.service.ts:35-68 | every request of every call keeps call ids unique and what each waiting call relies on |
| SipSessions.SafeUnderEveryInterleaving | src/debugger/sip/sip-session/sip-session.service.ts:35-68 | at most one session per call id, every finished call has found it, no call ends in the rethrow, and every saved row hangs off the session of its own call id |
| SipSessions.FinishedCallsAgree | src/debugger/sip/sip-session/sip-session.service.ts:35-68 | two finished calls with the same call id agree on the session |
| SipSessions.WaitFree | src/debugger/sip/sip-session/sip-session.service.ts:35-68 | a call without a database fault finishes within four requests of its own, however the others are scheduled |
| SipSessions.SessionsAreWanted | src/debugger/sip/sip-session/sip-session.service.ts:113-133 | every session stands for a call id some call arrived with |
| SipRows.SavedExactlyOnce | src/debugger/sip/sip-session/sip-session.service.ts:113-160 | under every interleaving the saved messages and media offers are, as multisets, exactly the rows of the finished calls, each once |
| SipRows.LastReportWins | src/debugger/sip/sip-session/sip-session.service.ts:86-111 | a session has a QoS report if and only if a call has finished with one on it, and it is that of the last such call |
| SipRows.FaultEndsCall | src/debugger/sip/sip-session/sip-session.service.ts:35-78 | a failed request ends its call and changes nothing else |
| SipRows.KnownSessionTakesTwo | src/debugger/sip/sip-session/sip-session.service.ts:35-44 | a call whose session exists takes it without trying to create one, and is finished after two requests of its own |
| Leads.Oldest | src/customer-crm/customer-crm.service.ts:68-71 | the result is eligible and no eligible lead is older; none only when none is eligible |
| Leads.HandOutIsOldest | src/customer-crm/customer-crm.service.ts:67-82 | a hand-out gives and locks the oldest lead of the company that is neither contacted nor locked, or changes nothing when there is none |
| Leads.NoLeadTwice | src/customer-crm/customer-crm.service.ts:67-82 | over any run of hand-outs, additions, edits and removals no lead is handed out twice |
| Crm.CustomerCrmService.NextLead | src/customer-crm/customer-crm.service.ts:67-82 | find, then lock what was found |
| Crm.CustomerCrmService.CreateStatus | src/customer-crm/customer-crm.service.ts:234-243 | a new default clears every other one first |
| Crm.CustomerCrmService.UpdateStatus | src/customer-crm/customer-crm.service.ts:254-266 | the other defaults are cleared before the update, also when the update then fails |
| Crm.CustomerCrmService.DeleteStatus | src/customer-crm/customer-crm.service.ts:268-284 | refuse, or reassign and delete |
| Crm.CustomerCrmService.CreateAppointment | src/customer-crm/customer-crm.service.ts:287-298 | an appointment needs an existing status |
| Crm.CustomerCrmService.UpdateAppointment | src/customer-crm/customer-crm.service.ts:327-338 | given fields replace the stored ones, and a given status must exist |
| Crm.CustomerCrmService.DeleteAppointment | src/customer-crm/customer-crm.service.ts:340-342 | removes that appointment alone |
| Crm.RunKeepsInv | src/customer-crm/customer-crm.service.ts:234-342 | over every sequence of operations at most one status is the default and every appointment refers to an existing status |
| Crm.DeletingStatus | src/customer-crm/customer-crm.service.ts:268-284 | deleting a status loses no appointment, moves exactly those that pointed at it to the default, and is refused exactly when some exist and there is no other default |
| Crm.DefaultInUseStays | src/customer-crm/customer-crm.service.ts:270-276 | the default cannot be deleted while an appointment has it |
| Crm.DefaultSurvivesIff | src/customer-crm/customer-crm.service.ts:234-284 | a default survives an operation if and only if it is not one of three named kinds |
| Crm.Answers | src/customer-crm/customer-crm.service.ts:234-342 | when each operation succeeds and how it fails otherwise |
| Crm.StatusRow | src/customer-crm/customer-crm.service.ts:234-284 | an existing status keeps its company, is renamed by its own update alone and ceases to be the default by its own update or a new default |
| Crm.NewStatus | src/customer-crm/customer-crm.service.ts:234-243 | statuses come by creates alone, with the values given |
| Crm.AppointmentRow | src/customer-crm/customer-crm.service.ts:327-342 | an appointment changes by its own accepted updates, field by field, and goes by its own deletion |
| Crm.NewAppointment | src/customer-crm/customer-crm.service.ts:287-298 | appointments come by accepted creates alone, with the values given |
| Pjsip.PjsipFiles.WriteAgent | src/utils/pjsip-writer.ts:26-29 | appends the three blocks to whatever the file holds |
| Pjsip.PjsipFiles.DeleteAgents | src/utils/pjsip-writer.ts:31-49 | one pass per name, in order, then a trim and a line feed |
| Pjsip.PjsipFiles.WriteProvider | src/utils/pjsip-writer.ts:51-72 | the file becomes the sections with an empty line between them |
| Pjsip.PjsipFiles.ReplaceProvider | src/utils/pjsip-writer.ts:74-106 | one trimmed pass per name, then what is left and the new sections |
| Pjsip.GenerateProviderSection | src/utils/pjsip-writer.ts:108-125 | the nested loops print the sections in order, mark first, one entry per line |
| PjsipReader.ProviderReadsBack | src/utils/pjsip-writer.ts:108-125 | a reader that splits the lines at their first equals sign finds in the provider file exactly the sections written, with keys and values in order |
| PjsipReader.AppendedBlocksReadBack | src/utils/pjsip-writer.ts:9-18 | appending agents' blocks to any file adds exactly these sections to what the reader finds, without the entries named `name` |
| PjsipReader.WrittenAgentReadsBack | src/utils/pjsip-writer.ts:19-29 | writing an agent adds its endpoint, authentication and address of record, in this order |
| PjsipAgents.CutAgentLines | src/utils/pjsip-writer.ts:36-44 | for every file, with any line ends and marks anywhere, what the agent pattern leaves of its lines |
| PjsipLaws.CutAgentsKeeps | src/utils/pjsip-writer.ts:31-49 | deleting names keeps the text before the blocks, up to carriage returns at its end, and the blocks of other names in order |
| PjsipLaws.DeletingUndoesAppending | src/utils/pjsip-writer.ts:9-49 | appending an agent's blocks and deleting their names restores the trimmed file, also when blocks share a name |
| PjsipPieces.CutSectionPieces | src/utils/pjsip-writer.ts:97-98 | the pattern removes the pieces of the name that say anything and keeps all others |
| PjsipPieces.PassPieces | src/utils/pjsip-writer.ts:97-98 | a pass with its trim leaves the other pieces, the last one trimmed |
| PjsipReplacement.CleanedKeeps | src/utils/pjsip-writer.ts:96-99 | for every file the passes keep the head and, in order, exactly the sections of other names and those that are missed |
| PjsipReplacement.CleanedSectionsIff | src/utils/pjsip-writer.ts:96-99 | the passes keep exactly the sections of other names, in order, if and only if no section of the names is missed |
| PjsipReplacement.ReplacementKeepsOthersIff | src/utils/pjsip-writer.ts:74-106 | after a replacement the file is the old head, the sections of other names in order and the new sections, if and only if no old section of the five names is missed |
| PjsipReplacement.ReplacingTwiceIsReplacingOnceIff | src/utils/pjsip-writer.ts:74-106 | replacing twice writes the same text as replacing once if and only if the last section the first cleaning keeps bears none of the names |
| PjsipReplacement.BlankSectionSurvives | src/utils/pjsip-writer.ts:96-99 | a family of files in which the second pass misses its section: exactly the blank ones |
| SipMessages.ParseSipMessage | src/debugger/sip/sip-listener/sip-parser.ts:2-17 | the index loop with its break computes the header map and the body of the specification |
| SipMessages.SplitJoin | src/debugger/sip/sip-listener/sip-parser.ts:3-15 | splitting at line ends and joining with line feeds turns every CRLF into LF and changes nothing else |
| SipMessages.ParseOfRender | src/debugger/sip/sip-listener/sip-parser.ts:2-17 | parsing a rendered message returns its start line, its headers and its body with CRLF turned into LF; values may hold colons |
| SipMessages.ParsedShape | src/debugger/sip/sip-listener/sip-parser.ts:2-17 | of any text at all the parser makes a one-line start line and trimmed headers without line breaks or colons in their names |
| SipMessages.ParsedHeaders | src/debugger/sip/sip-listener/sip-parser.ts:2-17 | the parse of any text: its first line, for each name the value of the last line before the first blank one that declares it, and the lines behind that one |
| SipMessages.ReparseIff | src/debugger/sip/sip-listener/sip-parser.ts:2-17 | any parsed message survives rendering and parsing again if and only if no header is nameless and the body holds no CRLF |
| SipMessages.ReparseLosesBlankName | src/debugger/sip/sip-listener/sip-parser.ts:11-12 | a name of white space becomes a nameless header |
| SipMessages.ReparseLosesDoubledCr | src/debugger/sip/sip-listener/sip-parser.ts:3-15 | a doubled carriage return leaves a CRLF in the body |

## Left out

- DialplanDeletion.ParsingAfterDeletionIff: says nothing of files in which a deletion loses one entry and moves another. There the two can hide each other in the list (`DialplanExamples.LossHiddenByMove`), so losses and moves do not decide it; `DialplanDeletion.DeletionLineByLine` is exact for these files too, with each entry in its line.
- Names with brackets, line breaks or pattern characters (`DialplanLaws.PlainName`): the source puts names into patterns unescaped. Node and config strings with brackets or line breaks, and DTMF keys with commas or leading white space, are outside the text format in the same way.
- Ids as strings: channels, logs, leads and rows have numeric ids in order of creation, which is the insertion order the source's records and queries follow.
- Leads created at the same instant: the model takes the smallest id, the source leaves the order to the database.
- Message texts of errors and log lines: an error is a value that names its kind.
- The header name `__proto__`, which a JavaScript record treats specially.
- The two database requests inside `nextLead`, and the awaits inside the dialer's handlers and the status operations: each is one step.
- Database failures other than those named: in the SIP model any request may fail; in the dialer, writes to logs and leads fail exactly when the row is missing.
- Agents deleted while the dialer runs, and the foreign keys to them.
- Runs in which a customer channel enters Stasis without having been registered (the handler's effect then is `DialerEffects.UnknownCustomerIsHeld`), and state changes queued until a channel has meta.
- DialplanReader.GeneratedTextReadsBack: stated for arguments without commas and applications without opening parentheses, because the text does not tell those apart.
- PjsipReader.ProviderReadsBack: stated for names, keys and values on one line and keys that hold no equals sign and do not start with a bracket, for the same reason.
- An origination that throws at once, and an agent without an endpoint (it exists only if the agent row vanished after being picked).
- Settings that change while a blast is under way.
- The retry timers of a blast, the agent information flags, music on hold, websocket messages, endpoint listing (the idle agents are a parameter) and the random choice among free agents (any free agent may be picked).
- The phone number of an agent leg, which nothing reads.
- The attended-transfer stubs, which only log.
- The `pjsip reload` command after a deletion and the JSON text of a stored tree.
- Fields of appointments other than status and note, and their foreign keys to members and leads.
- CRUD services, controllers, guards, metrics, SMS, file uploads and Telegram: no state shared with the above, or only easy members.
