# Verified model of the access-control server

The server manages door controllers, credentials ("cards"), access levels ("groups"), events and
the sessions of its web interface. This project models the stateful Go code under the interface
and proves what that code keeps over every input, every order of iteration over a Go map and every
run. `dafny verify dfyconfig.toml` checks all of it.

How the modules follow the program:

- `Gaps`, `EventStore`, `EventFetch`, `Screening`, `Convergence`, `Reconcile`: the protocol that fills gaps in the event log.
  The server works out which indices are missing from a cached, sorted index, asks each controller
  for a bounded batch, stores it and repeats. The store is a class with its two dirty-flagged
  caches; the fetch loops run on unsigned 32-bit indices. The main results are that the report is
  the exact complement, that a batch never asks for an event that is held or out of range, that
  what is stored is the controller's own answer in every field, and exactly when rounds converge.
  `Screening` says which missing events a budget reveals, and
  `Convergence` turns that into a condition on what is held at the start.
- `LevelMerge`, `TimeProfiles`, `Acl`, `AclAgreement`, `Controllers`: the access control list, computed for all
  cards at once and for one card on one controller. Both methods are proved against one
  declarative specification (`Acl.Resolved`), from which their agreement follows, and against what a
  profile means in terms of the records alone (`Acl.Means`); validation of the controllers supplies
  the assumption that each door is wired once.
- `Decimal`, `Oid`, `CatalogTable`: identifiers. Printing and parsing, routing of field
  identifiers, and allocation over whole runs.
- `Groups`, `CardRecords`, `CardEdits`, `CardImports`, `Cards`, `ControllerImport`, `ImportPlan`,
  `ImportMeaning`, `System`: access levels and credentials. Cards and their membership maps are heap objects; a shadow copy shares neither, so a
  failed transaction leaves the committed cards as they were. `CardRecords` says what may be
  observed of the store, as values; the methods of `Cards` are proved against it. `CardEdits` says
  what an edit means for each field, in terms of the identifiers and the text of a request. The
  import of what controllers hold is followed from the controllers' own lists (`ControllerImport`)
  through the list of imports (`CardImports`) to the committed records (`ImportMeaning`).
- `History`: names as they were at some time in the past.
- `Sessions`, `SessionRuns`, `SessionHistory`: login, use, invalidation, key rotation and sweeping. Each method of
  `Sessions.Local` is proved to take one step of a state machine, and `SessionRuns` reasons about
  all runs of that machine. `SessionHistory` gives the answer to every operation in terms of the
  operations before it alone, without the state.
- `Commit`: compaction of the changes stashed by a request, and their commit.
- `Common`, `Sorting`: shared vocabulary, and the stable sort that stands for Go's.

Iteration over a Go map is a loop that picks any remaining key, so each result holds for every
order. `assign-such-that` picks are the only nondeterminism.

## Where the code differs from its comments

- The gap budget of `Missing` is one counter for all controllers (system/events/events.go:291-301);
  the comment at system/system.go:231 promises it for each. A controller can then read Ok with
  events missing: `Reconcile.SharedBudgetStarves` is an instance.
- The budget is also spent on holes below a controller's first event, which are never filled. Once a
  controller's log has rolled over, it alone can use up the budget in this way, read Ok with events
  missing and never fetch them (`Reconcile.RolledOverLogStarves`). `Reconcile.TurnIsSound` says
  exactly when an Ok is false, and `Convergence.Converges` exactly when rounds complete a controller.
- The report is the complement of the held indices if and only if 2^32-1 is not held, because
  `last + 1` wraps (`Gaps.ReportIsComplement`).
- `MAX` bounds the two descending fetch loops and not the third branch (`EventFetch.BatchSound`).
- A load of saved events that fails half way keeps what it added but does not mark the caches; it
  leaves clean caches stale exactly when the first saved key was not held (`EventStore.Events.Load`).
- The full access list also applies the levels, and the No Access level, of deleted records, so a
  live card that shares its number with deleted records gets the merge of them all. Without rules the
  two computations then agree on a door exactly when that equals the card's own merge
  (`AclAgreement.SharedAgreesExactly`; `AclAgreement.SharedNumberDisagrees` is an instance).
- Deletions on a shadow copy show in the shared catalog at once, so a request that fails later
  leaves a live committed card marked as deleted there (`System.Server.UpdateCards`).
- `EnsureImported` counts entries, false ones included: a level that grants exactly the wanted
  relays but keeps an entry for a revoked door is not reused (`Groups.ReusableGrantsExactly`).
- The session keys are documented as two historical secrets; the two slots hold the current key and
  one before it, and the rotation loop copies upwards, so with more slots it would not keep a
  history at all (`Sessions.RotationKeepsHistory`).
- Edits at the same instant keep their order of arrival and are therefore undone in the wrong order
  by the history lookups. A lookup is right exactly when the last to arrive of the earliest edits
  from the time asked for starts from the same name as the first of them (`History.LookupExactly`);
  with strictly increasing times it always is.
- `Trim` undoes `Append` only for a suffix that starts with its dot (`Oid.TrimUndoesAppend`).

## Model

| member | source | states |
|---|---|---|
| Gaps.RunLength | system/events/events.go:292-293 | the binary search ends on the exact length of the run of consecutive indices at the head of the slice |
| Gaps.RunIsMonotone | system/events/events.go:292-293 | `slice[0] + i` never wraps, and the search predicate `slice[i] != slice[0] + i`, once true, stays true, which the binary search relies on |
| Gaps.InnerGaps | system/events/events.go:291-302 | the loop ends, every reslice shrinks, and it reports the first gaps of the list up to the budget and what is left of the budget |
| Gaps.HolesExact | system/events/events.go:291-302 | the gaps are nonempty, ordered, strictly inside the list, and cover exactly the indices that the list skips |
| Gaps.ReportIsComplement | system/events/events.go:279-302 | with an unlimited budget the report is the exact complement of the held indices over 1..2^32-1 if and only if 2^32-1 is not held |
| Gaps.ReportIsSound | system/events/events.go:279-302 | with any budget the intervals are nonempty, pairwise disjoint, miss every held index, and a budget g allows at most g inner gaps |
| EventStore.Events.Load | system/events/events.go:151-186 | adds saved events as they were saved, up to the first duplicate key; a failed load leaves clean caches coherent if and only if the first saved key was already held |
| EventStore.LoadSucceeds | system/events/events.go:160-179 | a load succeeds exactly when no saved key is repeated or already held, and then adds exactly the saved keys |
| EventStore.LoadKeeps | system/events/events.go:160-179 | even a failed load never loses or changes an event |
| EventStore.LoadAdds | system/events/events.go:160-179 | a load adds nothing exactly when there is nothing to load or the first key is held |
| EventStore.LoadIsPrefix | system/events/events.go:160-179 | a load adds the saved events, each as it was saved and under its own controller and index, up to the first whose controller and index are held by then, and nothing else |
| EventStore.CachesDetermineKeys | system/events/events.go:257-273 | one index or page list cannot be right for two sets of events with different keys, so a cache that is not marked goes stale |
| EventStore.Events.Received | system/events/events.go:310-339 | stores the batch event by event, as received and with the names looked up, marks both caches, and keeps the store coherent |
| EventStore.StoreAllAdds | system/events/events.go:318-334 | a batch adds exactly its keys and never changes an event already held |
| EventStore.StoreAllStores | system/events/events.go:318-334 | what is new in the store is the first event of the batch for its controller and index, as received in every field, with the names looked up for it |
| EventStore.Events.Refresh | system/events/events.go:257-273 | after it the index cache holds for each controller exactly its held indices, strictly ascending |
| EventStore.IndexIsUnique | system/events/events.go:257-273 | there is only one such index, so a cached answer equals a recomputed one |
| EventStore.Events.Missing | system/events/events.go:251-308 | the report for every controller, with one gap budget shared by all of them, computed from a coherent index |
| EventStore.Events.AsObjects | system/events/events.go:71-130 | from a coherent cache, one page of the events that may be viewed, in the order of the cache and without leaving one out before the page is full, together with the overall first and last event |
| EventStore.PagesBoundary | system/events/events.go:113-125 | no held event is earlier than the first published or later than the last |
| EventStore.PagesCount | system/events/events.go:75-94 | the object cache lists every held event exactly once |
| EventStore.LimitedIsPage | system/events/events.go:97-111 | a page takes visible events from its start on, at most the maximum, and leaves none out before it is full |
| EventStore.RoundedIsNear | system/events/events.go:84 | the time by which events are listed is a whole second within half a second of the event |
| EventFetch.FetchDown | system/interfaces/LAN.go:361-380 | the descending loops end without wrapping below index 0 and ask for exactly the capped run of indices |
| EventFetch.FetchUp | system/interfaces/LAN.go:379-382 | the ascending loop ends without wrapping above 2^32-1, since its branch leaves out the last index |
| EventFetch.GetEvents | system/interfaces/LAN.go:303-393 | the status is Incomplete exactly when an interval concerns the controller; there is one event for each request that was answered and no other, in the order of the requests: the controller's own with every field as answered, or a blank one when it has none |
| EventFetch.AnswersAreReplies | system/interfaces/LAN.go:333-358 | the same for the events collected for any list of requests |
| EventFetch.BatchSound | system/interfaces/LAN.go:360-384 | each request is in the controller's range and the interval, none is repeated, the first two branches never take the count past MAX, and the third asks for its whole interval |
| EventFetch.RequestsSound | system/interfaces/LAN.go:360-384 | over all intervals every request is in range and in some interval, and disjoint intervals give distinct requests |
| EventFetch.RequestsProgress | system/interfaces/LAN.go:321-384 | something is asked for exactly when the status is Incomplete |
| Screening.TakenCovers | system/events/events.go:291-302 | a missing index between held ones is reported exactly when fewer gaps than the budget lie below it |
| Screening.ReportReveals | system/events/events.go:279-302 | the whole report, as a condition on the set of held indices |
| Screening.QuietExactly | system/interfaces/LAN.go:321-327 | a report concerns no part of the range exactly when nothing there is missing, or both its ends lie among the held indices and the gaps below it use up the budget |
| Convergence.ConvergesIsKept | system/interfaces/LAN.go:360-384 | a round keeps the convergence condition and keeps its negation |
| Convergence.ConvergingIsNotScreened | system/interfaces/LAN.go:321-384 | while the condition holds and something is missing, the controller is asked for an event |
| Convergence.AskedIsUpper | system/interfaces/LAN.go:360-384 | of a gap that reaches down to the first event, a batch fetches the upper part |
| Convergence.TailIsAsked | system/interfaces/LAN.go:360-370 | above everything held exactly the last MAX events are asked for |
| Reconcile.ReportRelevant | system/interfaces/LAN.go:321-327 | whatever is held below 2^32-1, a report concerns a controller exactly when its range reaches below or above the held indices or meets a gap that the budget pays for |
| Reconcile.CompleteList | system/events/events.go:279-302 | nothing in the controller's range is missing exactly when both end points are held and no gap meets the range |
| Reconcile.BatchIsNew | system/interfaces/LAN.go:360-384 | whatever is held below 2^32-1, every request is new, in range and made once, and there are some exactly when the report concerns the controller |
| Reconcile.PlanAt | system/events/events.go:275-305 | each controller's entry is its report for the budget left by those before it |
| Reconcile.TurnIsSourced | system/interfaces/LAN.go:333-358 | every event that a turn adds to the store is the controller's own answer to the request for it |
| Reconcile.BudgetBounds | system/events/events.go:291-301 | a budget of at least zero never goes below zero, an unlimited one never runs out, and each controller takes no more than it has gaps |
| Reconcile.MissingIsComplement | system/events/events.go:251-308 | with an unlimited budget every controller's entry is the complement of what is held for it |
| Reconcile.TurnIsSound | system/interfaces/LAN.go:321-384 | a status of Ok means that nothing was missing, except exactly when both ends of the range lie among the held indices and the gaps below the range are at least as many as the budget left |
| Reconcile.Round | system/system.go:231-250 | one round of Missing, fetch and store for all controllers: what each was asked for is what it gained, each event gained is that controller's own answer in every field, and nothing held is lost |
| Reconcile.SomethingIsAsked | system/events/events.go:275-305 | while anything is outstanding and the budget exceeds the gaps that no round fills, some controller is asked for an event |
| Reconcile.RoundProgress | system/system.go:231-250 | a round that reads Ok throughout changes nothing, any other strictly reduces what is outstanding, and with a budget above the gaps that no round fills it reads Ok throughout exactly when nothing is outstanding |
| Reconcile.ProgressingRound | system/system.go:231-250 | the same for the methods |
| Reconcile.Reconcile | system/system.go:231-250 | convergence: with a shared budget above the gaps that no round fills, as many rounds as there are missing events complete every controller; stored events are never lost or changed, and every new one is its controller's own answer |
| Reconcile.RoundOfOne | system/system.go:231-250 | one round for one controller, whatever is held and whatever the budget: the status, what it changes, and that the convergence condition is kept |
| Reconcile.ReconcileOne | system/system.go:231-250 | for one controller the condition is exact: enough rounds complete it if and only if the condition holds at the start, and otherwise no number of rounds does; every new event is the controller's own answer |
| Reconcile.NoStray | system/events/events.go:279-302 | a store that holds nothing outside the controllers' ranges has no gap that no round fills |
| Reconcile.RolledOverLogStarves | system/events/events.go:291-302 | a controller alone reads Ok with events missing, and no number of rounds fetches them |
| Reconcile.SharedBudgetStarves | system/events/events.go:291-301 | a controller reads Ok although an event is missing, because another used up the shared budget |
| LevelMerge.FoldExact | system/acl.go:159-183 | the fold fails exactly when two different time profiles come before the first unrestricted level, and otherwise gives the merge of the set |
| LevelMerge.OrderDoesNotMatter | system/acl.go:275-291 | any two orders of the same levels that both succeed agree |
| LevelMerge.SuccessDependsOnOrder | system/acl.go:159-183 | whether the fold succeeds does depend on the order |
| TimeProfiles.SlotOfPrinted | system/groups/group.go:417-427 | the slot of a printed identifier base.n is 255 - n for 1..253 and an error otherwise |
| TimeProfiles.SlotsIdentifyLevels | system/groups/group.go:417-434 | scheduled levels share a slot exactly when they are the same level, and no slot is "none" or "always" |
| Acl.GetDoorSlot | system/catalog/impl/cache.go:84-124 | the two separate searches of an unordered map find one and the same channel, because each door is wired once |
| Acl.Permissions | system/acl.go:253-416 | for every card whose number no other record has, on every controller and door, the list has the specified profile and the card's or default dates, and that profile is what the records mean (`Acl.Means`): 0 for a card with the No Access level, then what a rule forbids or allows, then 0 exactly when none of its levels opens the door and 1 exactly when an unscheduled one does, where the 24/7 level opens every catalogued door; without rules, for a live card that shares its number with deleted records only, the merge of what all of them are granted; it succeeds only without bad levels and failing rules, and each error has its cause |
| AclAgreement.UpdateCardPermissions | system/acl.go:118-251 | sends the specified profiles, with the same meaning, for doors 1 to 4 with the card's or default dates, or deletes a card that is unknown, deleted, unconfigured or without dates; each error has its cause in a record with the number |
| Acl.ResolvedIsUnique | system/acl.go:118-251 | the specification determines the profile |
| Acl.ResolvedMeans | system/acl.go:147-224 | the specified profile in terms of the records alone: memberships, the levels' own doors, the rules |
| Acl.LevelsSay | system/groups/group.go:102-114 | without rules: the 24/7 level opens every catalogued door whatever its record lists, a single other level exactly the doors that its record holds as true, and No Access none |
| AclAgreement.SentIsMeant | system/acl.go:118-251 | what is sent to a controller, in the same terms |
| AclAgreement.PathsAgree | system/acl.go:118-416 | for such a card, whenever both computations succeed they give every door the same profile and the card the same dates |
| AclAgreement.BothPaths | system/acl.go:118-416 | the same for the two methods on the same records, dates and deletion included |
| Acl.GrantsOfNumber | system/acl.go:275-291 | what the full list merges for a number is what all records with that number are granted |
| Acl.DeletedRecordLendsLevels | system/acl.go:333-359 | a deleted record with the same number lends its levels to the live card in the full list only |
| AclAgreement.SharedAgreesExactly | system/acl.go:118-416 | for a live card that shares its number with deleted records, without rules, the two computations agree on a door exactly when the card's own merge equals that of all the records |
| AclAgreement.BothPathsShared | system/acl.go:118-416 | the same for the two methods; the single-card update may also find a deleted record and then deletes the card |
| AclAgreement.SharedNumberDisagrees | system/acl.go:333-359 | records for which they do not agree |
| Controllers.Validate | system/controllers.go:74-100 | accepts exactly when no live controllers share a device number, every door is known and each is assigned to one channel of one controller |
| Controllers.ValidateDevices | system/controllers/controllers.go:249-278 | accepts exactly when every record has an identifier, modified ones a name or number, and live device numbers are distinct |
| Controllers.ValidWires | system/controllers.go:74-100 | validated controllers give the access list wires that lead to known doors, each door once |
| Decimal.ValueOfDec | system/catalog/impl/table.go:30-74 | parsing undoes printing |
| Oid.AppendIs | system/catalog/schema/oid.go:13-15 | appending a field suffix puts exactly one dot between the two, whether or not the suffix has its own |
| Oid.ContainsOwnField | system/catalog/schema/oid.go:39-44 | a record contains each of its own field identifiers |
| Oid.TrimUndoesAppend | system/catalog/schema/oid.go:13-23 | trimming a suffix undoes appending it exactly when the suffix starts with its dot |
| Oid.RoutingIsUnique | system/catalog/schema/oid.go:39-44 | among records base.n at most one contains a given field, so the first match over an unordered map is the only one |
| CatalogTable.Table.New | system/catalog/impl/table.go:30-50 | the wrapping search ends whenever a free identifier exists and issues the first one after the mark, never one known, deleted or reserved |
| CatalogTable.Table.Put | system/catalog/impl/table.go:52-74 | raises the mark except for reserved numbers; an identifier outside the table, without a number or out of range is refused |
| CatalogTable.NumberMeans | system/catalog/impl/table.go:52-74 | which number an identifier is put under: that of the digits behind the first dot with a digit after the base; refused are another base, no such dot, and a number out of range |
| CatalogTable.PutOfPrinted | system/catalog/impl/table.go:52-74 | putting an identifier that the table printed reads its number back |
| CatalogTable.NewMovesUp | system/catalog/impl/table.go:30-50 | below the limit every new number is above the mark |
| CatalogTable.RunKeeps | system/catalog/impl/table.go:30-80 | over every run of New, Put and Delete, whatever is put, the mark never goes down until the counter wraps |
| CatalogTable.RunRemembers | system/catalog/impl/table.go:30-80 | no identifier is ever forgotten |
| CatalogTable.IssuedOnce | system/catalog/impl/table.go:30-80 | over every run, whatever is put and even after the counter has wrapped, an identifier from New was never issued or put before, deleted or not, and is never 254 or 255 for access levels |
| CatalogTable.EventTable.New | system/catalog/impl/events.go:31-55 | an event key keeps its identifier for ever, and the mapping stays one to one until the counter wraps |
| CatalogTable.EventTable.Put | system/catalog/impl/events.go:57-95 | an identifier outside the table, another one than the key's own, or one without a number in range is refused; the mapping stays one to one exactly when no other key has the identifier |
| Groups.Groups.EnsureImported | system/groups/groups.go:223-269 | returns a live, unscheduled level, not first-card and not No Access, that opens exactly the wanted relays; adds one only if none can be reused, under the name asked for (or the default) or else that name with the first number from 2 on that is not in use, and keeps live names unique |
| Groups.ReusableGrantsExactly | system/groups/groups.go:228-242 | a level is reused exactly when it grants exactly the wanted relays and has no entry for another door |
| Groups.Groups.SearchName | system/groups/groups.go:248-261 | the search for a name ends, with the first candidate that no live level has, ignoring case |
| Groups.FreshIsNamed | system/groups/groups.go:243-261 | the name given: the one asked for, trimmed, or the default, or with the first number from 2 on for which no live level has the name, ignoring case and surrounding space |
| Groups.CandidatesDiffer | system/groups/groups.go:248-261 | candidates are pairwise different even ignoring case, so the search cannot go round |
| Groups.EnsureTwice | system/groups/groups.go:223-269 | a second import of the same relays under any name succeeds and adds nothing |
| Groups.Groups.Validate | system/groups/groups.go:308-337 | accepts exactly when live levels are keyed by their identifiers, valid where modified, and have distinct names |
| Groups.LowerThenTrim | system/groups/groups.go:328-333 | validation and the search for a name compare names in the same way |
| CardRecords.FieldsAreTold | system/cards/card.go:226-362 | a card's own field identifiers lead to their fields |
| CardRecords.MembershipsAreTold | system/cards/card.go:349-375 | the identifier of a membership names its level, and the card contains it |
| CardRecords.EditsReachTheirField | system/cards/card.go:254-375 | a printed number is read back, and an edit grants or revokes exactly one catalogued level |
| CardEdits.SetFieldMeans | system/cards/card.go:212-386 | an accepted edit of the identifier with suffix .1 to .9 changes that one field to the trimmed text, the number, the PIN, the parsed date or the lowered kind, or clears it, or grants or revokes the one level named; the marks are cleared and every other field stays |
| CardEdits.RefusedExactly | system/cards/card.go:212-386 | an edit is refused exactly when the card is deleted, a number or PIN has a digit and is no number in range, a date cannot be parsed, the kind is none of the three, or the level is not in the catalog |
| CardEdits.UpdateMeans | system/cards/cards.go:158-175 | on a store, the card that owns the field changes in that way and no other card changes |
| CardEdits.PrintedOwns | system/cards/cards.go:158-175 | among the identifiers that the catalog prints every field has at most one owner |
| Cards.Card.Set | system/cards/card.go:212-393 | the edit of one field, on the card and its membership map in place; an error changes nothing, and without the right an edit can only clear the marks |
| Cards.Card.SetText | system/cards/card.go:226-254 | the text fields, trimmed, and the kind, which is one of three words |
| Cards.Cards.Update | system/cards/cards.go:158-175 | edits the card that owns the field and no other: an authorised edit succeeds exactly when it is acceptable and does what its value says, one without authority can only clear the marks, and an error changes nothing |
| Cards.Cards.Create | system/cards/cards.go:139-156 | adds a blank record under an identifier that is not in use |
| Cards.Cards.Delete | system/cards/cards.go:177-194 | marks the record and keeps it until it is swept |
| Cards.Cards.Clone | system/cards/cards.go:412-425 | a deep copy: neither cards nor membership maps are shared |
| Cards.Cards.Validate | system/cards/cards.go:427-458 | accepts exactly when live keys are the cards' identifiers, modified cards have a name or number, and nonzero numbers are distinct; nothing of this is assumed |
| Cards.Cards.Sweep | system/cards/cards.go:475-484 | removes exactly the records deleted before the cutoff |
| Cards.Cards.Found | system/cards/cards.go:284-340 | numbers stay distinct, every configured record is untouched, and the live unconfigured numbers are exactly those found that are not configured; a new record is blank but for its number and its mark |
| Cards.Cards.Scan | system/cards/cards.go:293-313 | the scan with its swap-removes, in any order: what is left to add is what was found and is not live, what is removed is what is unconfigured and was not found |
| Cards.SwapRemove | system/cards/cards.go:303-304 | overwriting an entry with the last one and shortening removes exactly that entry |
| CardRecords.FoundIsExact | system/cards/cards.go:284-340 | removing and adding what the scan says reaches that state |
| CardRecords.FoundMeans | system/cards/cards.go:315-339 | what discovery does to each record: what is added, what goes and what stays |
| Cards.Cards.MergeControllerImports | system/cards/cards.go:211-264 | every number ends as the list says, no card or true membership is lost, added and updated count the numbered records, and a valid store stays valid; in terms of the list alone: which import decides dates and PIN, which levels are granted, that an imported card counts as configured and modified, and that no other record changes |
| CardRecords.MergedDetail | system/cards/cards.go:219-260 | one import changes only the card with its number |
| CardRecords.MergedKeeps | system/cards/cards.go:219-260 | one import keeps numbers distinct and every record, with its name and its true memberships |
| CardRecords.MembershipsGrow | system/cards/cards.go:252-255 | memberships only grow, by exactly the levels named for the card |
| CardRecords.LastImportDecides | system/cards/cards.go:245-251 | dates and PIN come from the last import that does not preserve them, and a preserved card keeps its own |
| CardRecords.EveryImportIsGranted | system/cards/cards.go:211-264 | every imported number ends up live, on a card that has the imported level |
| CardRecords.MergeIsIdempotent | system/cards/cards.go:211-264 | importing a list again changes no date, PIN or membership |
| CardRecords.MergedMarks | system/cards/cards.go:219-260 | one import marks the card with its number as configured and modified, names a new card after its number, and leaves every other record as it was |
| CardImports.DetailsFollow | system/cards/cards.go:242-258 | dates, and the PIN where PINs matter, are those of the last import that does not preserve them; levels are added and those named are granted |
| CardImports.ImportsMean | system/cards/cards.go:211-264 | the whole effect of a list of imports on the records, in terms of the list alone |
| Cards.ImportTwice | system/cards/cards.go:211-264 | the second time adds no card and changes no detail |
| ControllerImport.ReadControllerImport | system/controller_import.go:45-152 | for controllers and doors in any order, each card's summary has exactly the controllers that hold it, a relay exactly when some controller that holds the card has profile 1 for it on a channel locally wired to that door, and is supported exactly when no controller gives it a time profile, an unassigned open relay or a first-card privilege and all agree on its details |
| ControllerImport.SupportIsOrderFree | system/controller_import.go:77-81 | whether a card is supported or resolvable does not depend on which entry was seen first |
| ControllerImport.SummaryIs | system/controller_import.go:65-105 | the same in terms of the controllers' own lists |
| ControllerImport.FindACLCard | system/controller_import.go:225-243 | the selected controller's entry, or else that of the lowest-numbered controller that has one, or else an empty card |
| ImportPlan.PlanImports | system/controller_import.go:174-204 | one import for each chosen card and no other, with the selected details and a level for exactly its relays |
| ImportPlan.PlanApplies | system/controller_import.go:174-208 | merging the plan leaves each chosen card live with those details and that level, and every other number as it was |
| ImportPlan.AgreedCardIsImported | system/controller_import.go:225-243 | a card on which the controllers agree is imported with the dates, and the PIN where PINs matter, that all of them have |
| ImportMeaning.PlannedDetails | system/controller_import.go:225-243 | the details imported are those of every controller for an agreed card, and of the selected one otherwise |
| ImportMeaning.PlanMeans | system/controller_import.go:154-223 | the plan, carried out, imports exactly the cards that are held, fit, not skipped and agreed or selected, and gives each a level for exactly the doors it opens on the controllers; nothing else changes |
| System.Server.UpdateCards | system/cards.go:55-110 | success commits exactly the edits of the request, each with the effect that `System.StepMeans` states, and a valid store; failure leaves the committed cards as they were and has a reason; either way a committed card is newly marked as deleted in the catalog exactly when its deletion was among the edits made |
| System.StepMeans | system/cards.go:55-110 | one edit of a request: a creation adds a blank record, an update changes the card that owns the field as its value says, a deletion marks one record, and nothing else changes |
| System.Server.ApplyControllerImport | system/controller_import.go:154-223 | cards and levels are replaced together or not at all; exactly the cards that are held, fit, not skipped and agreed or selected end up live, with the details of their source or their own, and with a level that opens exactly the doors for which some controller has profile 1 on a wired channel; no other record changes and no card is lost; it succeeds when records may be added and saved and the committed ones are valid and catalogued |
| System.Server.Run | system/cards.go:55-110 | over every run of edits, imports, discoveries and sweeps every key is its card's identifier and no two live cards share a nonzero number |
| History.History.Received | system/history/history.go:237-272 | each record without a time is stamped with its own reading of the clock; nothing is lost or repeated, the history stays listed from the latest, and edits at one instant stay in order of arrival |
| History.History.LookupCard | system/history/history.go:82-108 | undoes the card's later edits, starting from the current name |
| History.History.LookupController | system/history/history.go:55-80 | the same for controllers |
| History.UndoIsRedo | system/history/history.go:93-104 | undoing the later edits gives the name after exactly the edits before the time asked for, when times are strictly increasing |
| History.LookupIsTimeTravel | system/history/history.go:82-108 | with strictly increasing times the lookup gives that name, whatever the order of arrival |
| History.LookupExactly | system/history/history.go:82-108 | with edits at equal times allowed, and any order of arrival: the lookup is right if and only if the last to arrive of the earliest edits from the time asked for starts from the same name as the first of them to be made |
| History.UndoneTo | system/history/history.go:97-104 | a lookup undoes everything down to the last listed edit from the time asked for on |
| History.GroupStarts | system/history/history.go:263-272 | for edits that arrive in the order in which they are made, the edits at that instant are listed from the first of them |
| Sorting.SortByIsStable | system/history/history.go:263-272 | sorting keeps the order of edits with equal times |
| History.TimeTravel | system/history/history.go:237-284 | for the entries of a card's name among the records received in any batches, with or without times, and then looked up: right exactly under that condition, and always with strictly increasing times |
| History.StampAll | system/history/history.go:243-257 | a received record becomes an entry with the same item, number, field, name before and name after, at its own time or that of its reading of the clock |
| History.LastOfGroup | system/history/history.go:263-284 | the entry that the condition speaks of is the last for that card's name at that instant to arrive |
| History.SameInstant | system/history/history.go:263-272 | an instance with two edits at the same instant |
| Sessions.Local.Authenticated | auth/impl/local.go:349-407 | one step of the machine: checks, touch or removal, and a renewed token with the same claims when the key is not the current one |
| Sessions.Local.Verify | auth/impl/local.go:307-347 | the answer of the machine, without a touch |
| Sessions.Local.Authenticate | auth/impl/local.go:180-261 | issues a session token whose expiry is fixed at the login, and touches the session |
| Sessions.Local.Preauthenticate | auth/impl/local.go:131-178 | the same for login tokens |
| Sessions.Local.Invalidate | auth/impl/local.go:285-305 | removes the session or login that a verified token names |
| Sessions.Local.Regenerate | auth/impl/local.go:463-480 | the loop over the key slots in place |
| Sessions.Local.Sweep | auth/impl/local.go:503-531 | removes the entries idle for twice the idle time |
| Sessions.Local.GetToken | auth/impl/local.go:429-461 | finds the first slot whose key verifies the token |
| Sessions.RotationKeepsHistory | auth/impl/local.go:471-475 | the loop shifts the keys exactly when all but the last slot held one key, which two slots always satisfy |
| SessionRuns.SweepsAreInvisible | auth/impl/local.go:503-563 | with sweeps at any times, every other operation is answered as if there had been none |
| SessionRuns.AcceptedExactly | auth/impl/local.go:349-407 | over every run a session is accepted exactly when its key is held, the expiry fixed at its login has not passed, its user exists, it has not ended since that login, and it was touched within the idle time |
| SessionRuns.TokensComeFromLogins | auth/impl/local.go:391-406 | renewal after rotation never changes the claims, so every session token has those of a login |
| SessionRuns.EntriesAreBacked | auth/impl/local.go:494-570 | every entry of the session table stands for a session opened by a login and not ended, at the time of a touch |
| SessionRuns.SignedUntilSecondRotation | auth/impl/local.go:429-480 | a token verifies exactly until the second rotation after it was signed |
| SessionRuns.ActiveSessionIsUsable | auth/impl/local.go:22-38 | a session touched within the idle time is never lost to rotation, because rotations are further apart than that |
| SessionHistory.UsableIsCanUse | auth/impl/local.go:349-388 | whether a session can be used, in terms of the logins, uses, invalidations and rotations before and when they were |
| SessionHistory.AnsweredByHistory | auth/impl/local.go:131-480 | the answer to every operation in those terms: what a login issues, who an accepted use is and whether it is given a new token, what verifies and what is invalidated |
| SessionHistory.Serve | auth/impl/local.go:131-570 | the provider answers every run in which only tokens it gave out are presented as its history says; an accepted use returns the user and role of the login, and a token with the current key and the same claims exactly when the one presented has another key |
| SessionHistory.ClientStaysIn | auth/impl/local.go:388-406 | a client that always presents the last token it was given, at intervals within the idle time, is accepted as the user of its login until the expiry fixed at that login, across any number of rotations |
| SessionRuns.Run | auth/impl/local.go:131-570 | the provider's methods answer any sequence of operations as the machine does, so what is proved of its runs holds of them |
| Commit.Squoosh | system/db/dbc.go:74-88 | the backward loop computes the compaction |
| Commit.SquooshKeepsLast | system/db/dbc.go:71-88 | one entry for each identifier: its last, in the order of the last occurrences |
| Commit.SquooshTwice | system/db/dbc.go:71-88 | compaction is idempotent |
| Commit.SquooshKeepsMeaning | system/db/dbc.go:71-88 | putting the compacted list into a catalog gives the same as putting the raw one |
| Commit.DBC.Commit | system/db/impl.go:51-76 | puts, audit trail, hook, updates and deferred tasks happen in that order, each in full, and only the log is drained |
| Commit.CommitAndReply | system/db/impl.go:47-76 | what the request is told of is exactly what the catalog then holds |
| Commit.ReplayTwice | system/db/impl.go:51-59 | committing the same objects again changes nothing in the catalog |
| Commit.EffectsAre | system/db/impl.go:51-76 | a commit makes one put for each object, writes one entry of the trail for each record and one update for each one pending, in order |

## Left out

- HTTP dispatch, cookies, TLS, templates, the browser code, file and JSON handling, backup and restore.
- Controller I/O: a device is an oracle that gives its range and an answer, no answer or "no such event" for each index; convergence assumes that it answers and keeps its range.
- Reconcile.Reconcile: for several controllers that share the budget its condition is sufficient; for one controller Reconcile.ReconcileOne has the exact one. Both assume that 2^32-1 is not held, since the report then wraps.
- Sorting: `sort.Slice`, `sort.SliceStable` and `slices.Sort` are modelled by one stable sort.
- EventStore: one event store; the global cache is a field of it. The identifier that the catalog gives to each event is modelled in `CatalogTable` and not stored with the event. Names of devices, doors and cards come from an arbitrary function.
- Rules are an arbitrary function from a card to doors that are allowed and forbidden, or an error. The grules engine is not part of this model.
- AclAgreement.PathsAgree: door profiles and dates only; first-card flags and PIN masking differ between the two computations in the source.
- Acl.Permissions: for a card that shares its number the rules are left out, since the outcome depends on the order in which the records are evaluated; nothing is said of a number shared by two live records, which the store refuses, nor about which of several clashing levels is reported.
- Authorisation is a boolean for each operation.
- Cards.Card.Set: dates are parsed by an arbitrary map. The text fields are one value of the card.
- Cards.Card: nil and empty membership maps are not told apart. They read alike, and the source writes only to maps of clones, which are never nil, or after replacing a nil map.
- Cards.Cards.Found: the numbers found are taken to be distinct and not zero, as controllers hold each card once.
- System.Server.Run: each operation is one step; interleavings of the task queue with request handlers are not modelled. Room for the identifiers that a run uses up is assumed in the catalog.
- System.Server.UpdateCards: the objects stashed for the reply and the audit log of an edit are modelled in `Commit` only.
- Names are trimmed and compared over ASCII; Unicode case folding and spaces are not modelled.
- Groups.Groups.Validate: which modified levels have an invalid schedule or name is a parameter.
- Groups: levels are values, so nothing is said about sharing of their door maps; `EnsureDefaults` and the edits of levels are left out as easy members.
- ControllerImport.ReadControllerImport: the text of warnings and previews is reduced to whether there is any.
- History.LookupExactly: takes the card's number not to change between edits. `LookupDoor` is left out because its query never matches the key under which door edits are logged.
- Sessions: tokens are unforgeable records and identifiers and keys are fresh; passwords, one-time codes and the token library are not part of this model. A token without the part that an operation names makes the source panic, which is an answer here.
- Controllers.Sweep and the shadow copies of controllers and doors share state in the source and are not modelled.
