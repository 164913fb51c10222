# RoomMate: authored stores and plan checks

A model of the parts of RoomMate in which a mistake would lose or corrupt what people wrote, with proofs of
what they promise. Three groups:

**The stores of authored documents.** Blueprints with an append-only history and a review queue, the
assignments that pin their revisions in rooms, and the connections document. `Blueprints`, `Assignments` and
`ConnectionRuns` give each operation as a step on documents; `BlueprintRuns`, `Workspace` and
`ConnectionRuns` prove what holds over whole runs, with any interleaving, arbitrarily stale reads and any
clock; `BlueprintStore`, `AssignmentStore` and `ConnectionsStore` are the operations as they run, on a
`Disk` whose every intermediate state is recorded, each proved to make exactly its step and, cut off anywhere,
to leave the documents as they were before or after it. `Backups` and `Copies` say which copies are whose and
which are left, `Ids` and `Text` hold the made ids and the version stamps. `Content` is the validator of a
revision; `Connections`, `RoomResolver` and `ResolvedAgain` validate and resolve connections.

**Plan geometry over exact reals.** `Geometry` has the shoelace area and the half-open even-odd test, and
`Shapes` what these come to for triangles and rectangles; `RingChecks` has the crossing test and the ring check,
`SimpleRings` says when a ring that passes is simple; `Sampler` is the overlap sampler, and `Frames` the map that
places a blueprint's box in a room.

**Two scripts.** `WindowFrames` and `SillRule` recover the vertical offset of a model and the storey of an
element; `ImportClosure` is the worklist that checks a shipped library.

A run is a sequence of states with one request between each and the next, because a lock serialises the
writes; what is read without the lock is any earlier state. The clock, the disk's faults, the copies that
cannot be removed and what the model lists are parameters. A ledger of pushes and the disk's journal exist
only in the proofs.

Where the code and its documentation differ, the model follows the code:

- `check_rings` is documented as "simple with at least three distinct points"; it counts points, distinct or
  not, and looks for proper crossings only. A ring that passes is what is promised exactly when no vertex lies
  on an edge it is no end of (`SimpleRings.PassedIsSimpleIffUntouched`; one that fails it is in
  `SimpleRings.OutAndBackPasses`).
- Zones and links look bare rooms up only when some room has no model at all; routes, reaches and passages
  also when a model is blank (`RoomResolver.ZonesResolveWhen`, `RoomResolver.LoneBlankRoomIsRefused`).
- A nudge or rotation of the most negative 32-bit value passes its range check in a build without overflow
  checks (`Assignments.AcceptedIsInRange`).
- "Keep the newest" is by name: on a clock that ran backwards the copy just made can be the one pruned
  (`Copies.FreshCopyKept`, `Copies.ClockBackPrunesFreshCopy`).
- A save that fails after its copy is begun leaves that copy, torn or whole, and it takes one of the 20 places of
  replaced versions (`Copies.LastVersionsAreKept`, `Copies.TornCopyTakesPlace`).
- The frame reconciliation halves the smallest listed gap, and takes 1 when that is 0. What it is documented to
  promise of the smallest positive gap holds exactly when every listed gap is positive, or the smallest is 0 and
  the smallest positive one is 2 (`WindowFrames.PromiseHoldsIff`). A level listed downwards makes the tolerance
  negative and reports every sample (`WindowFrames.OutOfOrderIsNegative`, `WindowFrames.MedianIsReported`); two at
  one elevation hide a wrong level or report an honest sample (`WindowFrames.EqualLevelsHideWrongLevel`,
  `WindowFrames.EqualLevelsReportHonest`).
- The sampler's bounding box is that of the exteriors. Nothing is missed exactly when no hole reaches out of its
  box over a point of the other footprint (`Sampler.CommonPointsAreScanned`, `Sampler.HoleOutsideBoxIsMissed`).

## Model

| member | source | states |
|---|---|---|
| BlueprintRuns.HistoryGrows | src/blueprints.rs:531-675 | In every run, on any clock, a blueprint once on file stays on file and only grows (`Extends`: earlier revisions an unchanged prefix, waiting entries never altered), its stamp never goes back, and one stamp names one state |
| BlueprintRuns.BasedWriteActsOnWhatWasRead | src/blueprints.rs:537-543 | A write with a `base` that succeeds acts on exactly the state its caller read, however stale the read could have been: no lost update, no ABA |
| BlueprintRuns.ConflictMeansChanged | src/blueprints.rs:524-543 | A well-formed based write is answered with a conflict if and only if the blueprint is no longer the state its caller read |
| BlueprintRuns.OneWinner | src/blueprints.rs:524-543 | Of two writes made from one read of a blueprint at most one succeeds |
| BlueprintRuns.RefusalLeavesNoTrace | src/blueprints.rs:531-675 | A refused request, or one the disk fails, can be struck out of a run: the rest is a run to the same last state in which every other request meets the state it met |
| BlueprintRuns.CutRunIsRun | src/blueprints.rs:477-494 | A run whose requests may each be cut off by a crash, leaving the documents as before or as the request makes them, is a run: all that is proved of runs holds across crashes |
| BlueprintRuns.ConflictIsStaleBase | src/blueprints.rs:524-543 | A stale base is always a conflict and the only one |
| BlueprintRuns.BaseIsCurrent | src/blueprints.rs:537-543 | Any successful based write named the version it found |
| BlueprintRuns.BaseIsPassed | src/blueprints.rs:531-675 | A successful based write leaves a version that sorts strictly after its base |
| BlueprintRuns.TurnEditsOne | src/blueprints.rs:531-675 | One request changes one blueprint at most, and only as its operation says; every other one keeps its exact state |
| BlueprintRuns.TurnGrows | src/blueprints.rs:454-461 | Every change moves the stamp strictly forward, the `~` suffix included |
| BlueprintRuns.RunKeepsStore | src/blueprints.rs:496-675 | Every reachable blueprint is filed under its id and meets the state-machine invariant |
| BlueprintRuns.PushesAreConserved | src/blueprints.rs:562-645 | In every reachable state each id from 1 to the last one handed out is in exactly one of waiting, rejected and accepted; what waits is what was pushed, what was rejected is that without its bundle, and each accepted push is its own revision with the content and note pushed |
| BlueprintRuns.EditConserves | src/blueprints.rs:562-675 | Each single operation keeps that conservation law, against a ledger the store never reads |
| BlueprintRuns.AcceptAppliesRightBundle | src/blueprints_api.rs:126-146 | When the accept request's base came from an earlier read and accept succeeds, the bundle read without a lock is the one pushed under that pending id, and the state read is the state accepted from |
| BlueprintRuns.BundleReadIsPushed | src/blueprints_api.rs:126-146 | With no assumption on the base: the bundle read is the pushed one if and only if the id had been handed out at the read, or the push carried no bundle |
| BlueprintRuns.GuessedBaseMissesBundle | src/blueprints_api.rs:126-146 | The wrong side occurs for a base that no read gave: read, push, then accept under a guessed base |
| Blueprints.EditKeeps | src/blueprints.rs:531-675 | Every operation keeps the invariant: revisions numbered 1..n in order, `current_revision` one of them, queue ids increasing and at most `last_pending_id`, limits, valid content; and the stamp grows |
| Blueprints.EditExtends | src/blueprints.rs:531-675 | Every operation keeps the old revisions as a prefix and no entry of the queue is altered or re-enters it |
| Blueprints.EditDoesWhatIsAsked | src/blueprints.rs:531-675 | Every write that succeeds does all it was asked and no more: a rename gives the new name without its outer spaces, a mark marks, a push waits last with what it carried, an accepted push leaves the queue and is the next revision with its content and note, a rejected one is kept without its bundle; what was not named is as it was |
| Blueprints.EditStamps | src/blueprints.rs:454-461 | The new stamp is the clock if and only if that is later than the old one, and the old one with a tilde otherwise |
| Blueprints.EditSucceedsWhen | src/blueprints.rs:531-675 | A write succeeds if and only if its base is current, there is room, and the pending or the revision it names is there; a push needs no base |
| Blueprints.RefusalTellsWhy | src/blueprints.rs:315-324 | Of a well-formed request: not found exactly when the blueprint is not on file, a conflict exactly when it is and the base is another stamp, an internal error exactly when only the disk refused |
| Blueprints.CreateDoesWhatIsAsked | src/blueprints.rs:496-522 | A created blueprint has the trimmed name and the source asked for, is in use, with nothing waiting or rejected and one current revision that holds the content and the note given |
| Blueprints.TrimNoteIsAsked | src/blueprints.rs:337-343 | A note is kept without its outer spaces, and not at all when there is nothing else |
| Blueprints.CurrentMoves | src/blueprints.rs:531-675 | What each write makes current: an added revision if it says so, an accepted one always and with the content that waited, the one an update names; a push or a rejection changes nothing that is current |
| Blueprints.WriteTouchesItsOwn | src/blueprints.rs:531-675 | A write touches only its own part: history, queue, name or mark |
| Blueprints.FirstRevisionOk | src/blueprints.rs:496-522 | A created blueprint meets the invariant |
| Blueprints.MaxIsCount | src/blueprints.rs:547 | The largest number in the history is its length, so the next number is one more |
| Blueprints.FindByPlace | src/blueprints.rs:141-143 | Looking a revision up by number finds the one at that place, or none |
| Blueprints.CleanNameIsClean | src/blueprints.rs:326-335 | Cleaning a cleaned name changes nothing |
| BlueprintStore.TakePending | src/blueprints.rs:587-593 | Removes exactly the first entry with the id, in place, or nothing |
| BlueprintStore.BlueprintStore.LoadBlueprint | src/blueprints.rs:315-324 | Answers as the specification's `Load` |
| BlueprintStore.BlueprintStore.Write | src/blueprints.rs:477-494 | The documents become the old ones with this blueprint put in, or are unchanged when the disk refuses; exactly when it refuses; and cut off anywhere they are one or the other |
| BlueprintStore.BlueprintStore.Finish | src/blueprints.rs:477-494 | What an edit makes is answered and on file, or refused by the disk with nothing changed; cut off anywhere the documents are those before or after its step |
| BlueprintStore.BlueprintStore.Create | src/blueprints.rs:496-522 | The imperative operation, through validation, id, write and backup, gives the specification's answer and next state; the id is free; cut off anywhere it leaves the documents before or after it |
| BlueprintStore.BlueprintStore.AddRevision | src/blueprints.rs:531-558 | Adding a revision gives the specification's answer and next state, with base, limit and `make_current`; cut off anywhere it leaves the documents before or after it |
| BlueprintStore.BlueprintStore.Push | src/blueprints.rs:562-585 | A push, which takes no base, gives the specification's answer and next state; cut off anywhere it leaves the documents before or after it |
| BlueprintStore.BlueprintStore.Accept | src/blueprints.rs:595-622 | Accepting gives the specification's answer and next state; cut off anywhere it leaves the documents before or after it |
| BlueprintStore.BlueprintStore.Reject | src/blueprints.rs:625-645 | Rejecting gives the specification's answer and next state; cut off anywhere it leaves the documents before or after it |
| BlueprintStore.BlueprintStore.Update | src/blueprints.rs:648-675 | Renaming, moving the current marker and the in-use mark give the specification's answer and next state; cut off anywhere it leaves the documents before or after it |
| Content.ValidateContent | src/blueprints.rs:354-447 | Accepts exactly the revisions that meet the declarative rules and in which no items follow each other round, told by the items and not by the map; names a loop exactly when all other rules hold and there is one, and the item named is on it |
| Content.CheckFollowers | src/blueprints.rs:427-446 | With distinct ids the bounded walk of the item count+1 steps refuses exactly when some places of items each follow the next and come back to the first, and the item named is on such a loop |
| Content.FollowsIsItems | src/blueprints.rs:429-433 | With distinct ids the map has an entry for an item if and only if that item follows one, and the entry is the item it follows |
| Content.ReachingIsLooping | src/blueprints.rs:434-444 | Reaching itself in the map is being on a loop of items |
| Content.LoopOfTwoIsRefused | src/blueprints.rs:427-446 | Two items that follow each other, sound in every other way, are refused |
| Content.AcceptedChainsEnd | src/blueprints.rs:427-446 | In an accepted revision no chain of items, each following the next, is longer than there are items |
| Content.LoopsAreShort | src/blueprints.rs:427-446 | An item on any loop is on one of at most the item count hops, so the bound misses nothing |
| Content.ShortestReturn | src/blueprints.rs:427-446 | The pigeonhole step: a return longer than the number of followers can be cut to a shorter one |
| Content.Pigeonhole | src/blueprints.rs:427-446 | A list longer than a set it is drawn from repeats an element |
| Content.LongChainLoops | src/blueprints.rs:427-446 | A chain as long as the item set visits an item that reaches itself |
| Content.CheckOutlineAndDoors | src/blueprints.rs:354-373 | Refuses exactly outlines and doors that break their rules |
| Content.CheckIds | src/blueprints.rs:374-385 | Refuses exactly blank or repeated item ids |
| Content.CheckItem | src/blueprints.rs:386-426 | Refuses exactly items that break their rules |
| Text.NextStampGrows | src/blueprints.rs:454-461 | The next stamp sorts strictly after the previous one whatever the clock reads, and is what the clock reads exactly when that is later |
| Text.TrimDropsOuterSpace | src/blueprints.rs:326-343 | Trimming drops the spaces before and after and nothing else, and leaves nothing exactly of a text that is all spaces |
| Text.BeforeIsTransitive | src/blueprints.rs:454-461 | Stamps are ordered: transitive |
| Text.BeforeIsTotal | src/blueprints.rs:454-461 | Stamps are ordered: total |
| Text.BeforeIsStrict | src/blueprints.rs:454-461 | Stamps are ordered: strict |
| Ids.NewBlueprintId | src/blueprints.rs:463-471 | The retry loop ends, whatever the clock reads, after at most one try more than there are taken ids, with an id that is free and safe as a file name |
| Ids.NewAssignmentId | src/assignments.rs:407-416 | The retry loop for assignment ids ends after at most one try more than the taken ids have places, with an id that is free and safe as a file name |
| Ids.MadeIdsAreSafe | src/state.rs:227-244 | Every id the stores make passes the file-name rules, device names included |
| Ids.BlueprintIdTellsCounter | src/blueprints.rs:463-471 | A blueprint id is made from one counter only |
| Ids.AssignmentIdTellsCounter | src/assignments.rs:407-416 | An assignment id is made from one counter of each length only |
| Ids.BlueprintStemsDiffer | src/blueprints.rs:484 | Backup stems of two blueprints, of one project or two, never coincide although project ids may hold dashes |
| Ids.AssignmentStemsDiffer | src/assignments.rs:425 | Backup stems of two assignments, of one project or two, never coincide |
| Ids.StoresNeverShareStems | src/connections.rs:957 | The three stores share one backup directory and never a stem |
| Backups.NamesDecode | src/backups.rs:30-41 | A backup name of a given extension determines its stem and its stamp |
| Backups.MineAreMade | src/backups.rs:47-60 | A file counts as a document's exactly when it is a name made for it |
| Backups.NeverAnothers | src/backups.rs:43-60 | A document takes a copy for its own exactly when it is its own: `a` never takes one of `a.b` |
| Backups.NamesSortByStamp | src/backups.rs:60 | The names of one document sort as their stamps do |
| Backups.PruneKeepsNewest | src/backups.rs:47-67 | Pruning leaves exactly min(k, 20) of a document's k copies, and every copy removed sorts before every copy left |
| Backups.PrunedIsFront | src/backups.rs:60-67 | Removing the front of the sorted list removes exactly the copies with at least 20 of their own after them |
| Backups.RankFromEnd | src/backups.rs:60-62 | The rank of a copy is its distance from the end of the sorted list |
| Disk.Disk.Save | src/blueprints.rs:477-494 | At every step of a save, tearing included, the live documents are the complete old ones or those with the complete new document; over an old document the new one goes live only after a complete copy was made; exactly when a save succeeds; only this stem's copies are pruned |
| Disk.Disk.WriteTemp | src/blueprints.rs:478-483 | Writing the temp file touches no live document and no copy |
| Disk.Disk.BackUp | src/backups.rs:30-41 | A copy never overwrites: a taken name is refused with nothing changed |
| Disk.Disk.CopyAside | src/blueprints.rs:484-490 | A failed copy leaves the old document live |
| Disk.Disk.Install | src/blueprints.rs:491-493 | The rename installs the whole temp file, and pruning follows |
| Disk.Disk.Prune | src/backups.rs:47-67 | Removes exactly the pruned names that can be removed, and nothing else changes |
| Disk.Disk.Remove | src/assignments.rs:394-405 | At every step of a removal the live documents are the old ones or those without this one, and other copies are unchanged or pruned; the copy comes first, and a failed one leaves the document in place |
| Disk.SortNames | src/backups.rs:60 | Sorting rearranges: increasing, same names |
| Disk.NoTornDocument | src/blueprints.rs:477-494 | However many saves and removals are cut off by crashes, no live document is ever torn: each is the first one or one some save was given for that path |
| Disk.CutOffIsCrashStep | src/blueprints.rs:477-494 | A save or a removal cut off at any state of its journal is one step of such a chain |
| Disk.SafePointsCutClean | src/blueprints.rs:477-494 | Wherever a save or a removal is cut off, a restart finds every document whole, all as before or all with the change made |
| Copies.FreshCopyKept | src/backups.rs:43-67 | The copy just made survives its own pruning if and only if fewer than 20 of the document's copies sort after it; on a clock that ran backwards it may not |
| Copies.ClockBackPrunesFreshCopy | src/backups.rs:43-67 | The failing side occurs: beside copies of the next twenty seconds the copy just made is the one removed |
| Copies.ExactlyTheseAreLeft | src/backups.rs:30-67 | After any attempts on any documents, successful, failed or cut off, with any copies that refuse to go: of a document with increasing stamps exactly those copies are left that every later attempt due to remove them found stuck, each as it was made |
| Copies.LastCopiesAreThere | src/backups.rs:43-67 | The last 20 copies made of a document are always there |
| Copies.SaveIsAttempt | src/blueprints.rs:484-493 | What a save or a removal on the disk does to the copies is one such attempt: torn if the copy failed, whole but not pruned if the change failed |
| Copies.CutIsAttempt | src/blueprints.rs:484-493 | A save or a removal cut off at any state of its journal has made no copy or is one such attempt |
| Copies.TornCopyTakesPlace | src/backups.rs:43-67 | The failing side occurs: of twenty replaced versions the first goes, and a torn copy stays in its place |
| Copies.LastVersionsAreKept | src/backups.rs:43-67 | With nothing stuck, the versions replaced from one attempt on are all there if and only if none that came twenty or more after it went through; for the last 20 replaced versions, if and only if no attempt between the first and the last of them failed |
| Copies.OtherSaveKeepsMine | src/backups.rs:43-67 | An attempt on another document neither adds, changes nor removes a copy of this one |
| Copies.StemsTellDocuments | src/blueprints.rs:484 | Two stems of the three stores are one exactly when they are of one document of one store |
| Copies.StoresKeepOthersCopies | src/backups.rs:43-67 | In the one directory the stores share, no save or removal of any of them touches a copy of another document of any of them |
| Workspace.PinsAreStable | src/assignments.rs:347-391 | In every interleaving of the two stores the revision a stored assignment pins is on file in every later state with the content it had when it was loaded, although the check was made before the lock |
| Workspace.PinHasLoad | src/assignments.rs:357-363 | Every stored assignment goes back to an earlier load of a blueprint that was in use and had the revision |
| Workspace.AssignmentIsLastRequested | src/assignments.rs:347-391 | In every state of every run each assignment is what the last request stored for its room asked for: it pins the revision named, or the one current at its load if none was named, of the blueprint named, with the mapping, room name and note given |
| Workspace.RoomHasOneIff | src/assignments.rs:347-405 | In every state of every run a room has an assignment if and only if a request stored one for it and no removal has taken it away since |
| Workspace.RevisionIsStable | src/blueprints.rs:547-555 | An append-only history answers for a revision number as it always did |
| Workspace.BlueprintGrows | src/blueprints.rs:531-675 | Along a two-store run a blueprint only grows |
| Workspace.RetiredAfterLoad | src/assignments.rs:358-360 | `in_use` holds only at the load: a blueprint retired after the load is still assigned, one retired before is refused |
| Workspace.OneAssignmentPerRoom | src/assignments.rs:366-376 | In every state of every run a room has at most one assignment, and each is filed under its id |
| Workspace.ReassigningKeepsId | src/assignments.rs:366-377 | Assigning a room again keeps its assignment's id |
| Workspace.OverridesAreTheLastGiven | src/assignments.rs:381-385 | In every run a room's overrides are the cleaned form of the last list given for it since it was last without an assignment, empty if none was given |
| Workspace.TableIsOk | src/assignments.rs:347-391 | Every reachable table is sound: one per room, clean overrides, clean mapping |
| Workspace.CutRunIsRun | src/assignments.rs:347-435 | A run of both stores whose operations may each be cut off by a crash is a run |
| Assignments.CleanOverrides | src/assignments.rs:318-344 | The loop accepts exactly the lists in which each override is within its limits and none repeats an item already kept, and returns the overrides that change something |
| Assignments.KeptIsSelection | src/assignments.rs:318-344 | What is kept is an in-order selection of what was sent: exactly the overrides that are no no-ops |
| Assignments.KeptAreTheChanges | src/assignments.rs:339-341 | An override is kept if and only if it leaves its item out, moves it or turns it |
| Assignments.KeptIsClean | src/assignments.rs:318-344 | One override per item, no no-op, and cleaning again changes nothing |
| Assignments.NoopFirstOrLast | src/assignments.rs:333-341 | A change may follow a no-op for the same item, a no-op may not follow a change |
| Assignments.AcceptedIsInRange | src/assignments.rs:324-335 | An override passes by itself if and only if it names an item and each number is in range or the most negative 32-bit value, whose `abs` wraps; one that passes is in range if and only if none is the latter |
| Assignments.MostNegativeNudgePasses | src/assignments.rs:327-332 | The concrete override that passes the check far out of range |
| Assignments.CleanMappingIsClean | src/assignments.rs:294-315 | A kept mapping is at most one of frame, shift and edge map, and cleaning it again changes nothing |
| Assignments.CleanMappingIsAsked | src/assignments.rs:294-315 | A mapping is accepted if and only if at most one of frame, shift and edge map is given and it is within its limits; what is kept is what was given, but for the whole turns of a frame |
| Assignments.PreparedIsOk | src/assignments.rs:347-363 | What reaches the lock is clean |
| Assignments.PrepareIsAsked | src/assignments.rs:347-364 | What reaches the lock is what was asked: the revision named, or the current one of the blueprint loaded where none was, with the room, its name, the mapping, the overrides and the note of the request |
| Assignments.PrepareSucceedsWhen | src/assignments.rs:347-364 | A request reaches the lock if and only if its room, mapping, overrides and note are within their rules and the blueprint is there, in use, with the revision named |
| Assignments.MissingIsNotFound | src/assignments.rs:357-364 | It is answered as not found exactly when the blueprint is missing, or is in use without the revision named |
| Assignments.CommitKeeps | src/assignments.rs:365-391 | Storing keeps one assignment per room and, for a room that has one, its id |
| Assignments.CommitStoresPrepared | src/assignments.rs:375-391 | What is stored is what reached the lock, field by field, stamped by the clock |
| Assignments.CommitSucceedsWhen | src/assignments.rs:366-370 | Storing succeeds if and only if the disk takes it and there is room or the room already has an assignment |
| AssignmentStore.AssignmentStore.FindRoom | src/assignments.rs:366-367 | Finds the room's assignment if it has one |
| AssignmentStore.AssignmentStore.PrepareRequest | src/assignments.rs:347-364 | What runs before the lock, against the other store as it is at that moment |
| AssignmentStore.AssignmentStore.StorePrepared | src/assignments.rs:365-391 | What runs under the lock gives the specification's answer and next table; cut off anywhere it leaves the table before or after it |
| AssignmentStore.AssignmentStore.Write | src/assignments.rs:418-435 | The table becomes the old one with this assignment put in, or is unchanged; exactly when; and cut off anywhere it is one or the other |
| AssignmentStore.AssignmentStore.Delete | src/assignments.rs:394-405 | Removes exactly this assignment, or answers why not; cut off anywhere the table is with it or without it |
| Connections.Validate | src/connections.rs:450-550 | Accepts exactly the zones and links that meet the declarative rules |
| Connections.ValidateZone | src/connections.rs:463-513 | A zone is accepted exactly when it has a name, 2 to 5000 distinct named members, valid cuts, a hub that is a member and a note that is not too long |
| Connections.ValidateMembers | src/connections.rs:477-485 | Members are accepted exactly when named and distinct |
| Connections.ValidateCuts | src/connections.rs:493-508 | Cuts are accepted exactly when each joins two different members and no two join the same pair in either direction |
| Connections.OrderedForgetsDirection | src/connections.rs:502 | Sorting a pair of rooms forgets its direction and nothing else |
| Connections.ValidateLinks | src/connections.rs:517-549 | Links are accepted exactly when ids are safe and distinct and each joins two different named rooms at a cost in range |
| Connections.ValidateRoutes | src/connections.rs:554-600 | Accepts exactly the routes that meet the declarative rules |
| Connections.ValidateReaches | src/connections.rs:605-659 | Accepts exactly the reaches that meet the declarative rules, those of the read included |
| Connections.ValidateSources | src/connections.rs:626-644 | Start rooms are accepted exactly when there are 1 to 500, named and distinct |
| Connections.ValidatePassages | src/connections.rs:664-703 | Accepts exactly the passages that meet the declarative rules |
| RoomResolver.ForProject | src/connections.rs:719-730 | The index holds, for each room id, the models it occurs in, in order; and is empty when no lookup is needed |
| RoomResolver.RoomResolves | src/connections.rs:732-746 | A room resolves exactly when it names its model or is alone under its id in the listing, and then refers to that room: never a guess |
| RoomResolver.OneModel | src/connections.rs:732-737 | One model in the index means one entry in the listing |
| RoomResolver.ZonesResolveWhen | src/connections.rs:751-765 | Zones and links resolve exactly when each room names its model, or is alone under its id and some room of the request has no model at all: a lone room with a blank model is refused otherwise |
| RoomResolver.RoutesResolveWhen | src/connections.rs:803-831 | Routes resolve exactly when each room names its model or is alone under its id |
| RoomResolver.ReachesResolveWhen | src/connections.rs:835-865 | Reaches resolve exactly when each start room names its model or is alone under its id |
| RoomResolver.PassagesResolveWhen | src/connections.rs:869-893 | Passages resolve exactly when each room names its model or is alone under its id |
| RoomResolver.LoneBlankRoomIsRefused | src/connections.rs:751-765 | The refusing side occurs: a zone of a named room and a blank one that is alone under its id is refused, a route between them resolves |
| RoomResolver.ResolvedIsAsked | src/connections.rs:765-799 | Zones and links resolve in place: members, cuts and hub each refer to the room asked for |
| RoomResolver.RoutesAreAsked | src/connections.rs:803-831 | Routes resolve in place, field by field: rooms as asked, name trimmed, a blank method and a zero size dropped and others kept, the colour in small letters, the rest unchanged; an absent list stays absent |
| RoomResolver.ReachesAreAsked | src/connections.rs:835-865 | Reaches resolve in place, field by field: start rooms as asked, name trimmed, a blank method dropped, the rest unchanged; an absent list stays absent |
| RoomResolver.PassagesAreAsked | src/connections.rs:869-893 | Passages resolve in place, field by field: rooms as asked, a zero size dropped and others kept, the rest unchanged; an absent list stays absent |
| ResolvedAgain.ZonesComeBack | src/connections.rs:751-799 | Saved zones and links, sent back as read, resolve to themselves whatever the model now lists |
| ResolvedAgain.RoutesComeBack | src/connections.rs:803-831 | Saved routes, sent back as read, resolve to themselves whatever the model now lists |
| ResolvedAgain.ReachesComeBack | src/connections.rs:835-865 | Saved reaches, sent back as read, resolve to themselves whatever the model now lists |
| ResolvedAgain.PassagesComeBack | src/connections.rs:869-893 | Saved passages, sent back as read, resolve to themselves whatever the model now lists |
| ConnectionRuns.ReachableIsSound | src/connections.rs:902-953 | Every document any run of saves can reach passes all four validators |
| ConnectionRuns.CommitIsSound | src/connections.rs:927-953 | One save keeps that and moves the stamp strictly forward |
| ConnectionRuns.VersionsGrow | src/connections.rs:929-941 | A project's document only moves forward and one stamp names one document, the empty stamp the empty document |
| ConnectionRuns.SaveActsOnWhatWasRead | src/connections.rs:929-934 | A valid save goes through if and only if the document is the state its base was read from; otherwise it is a conflict |
| ConnectionRuns.StaleBaseConflicts | src/connections.rs:929-934 | Once any save of the project has gone through, a base from before it conflicts for ever, the empty base included, and changes nothing |
| ConnectionRuns.ListsAreTheLastNamed | src/connections.rs:942-944 | In every state each of the five lists equals what the last successful save that named it prepared, and is empty if none did; routes, passages and reaches need not be named |
| ConnectionRuns.SaveKeepsLists | src/connections.rs:942-944 | One save: a list it names is replaced, one it does not name is kept |
| ConnectionRuns.PreparedIsOk | src/connections.rs:908-926 | What reaches the lock is valid, and names the lists the request named |
| ConnectionRuns.PreparedIsAsked | src/connections.rs:902-926 | What reaches the lock is what was asked: every list in place, record by record, each with the rooms named, and lists left out still left out |
| ConnectionRuns.PrepareSucceedsWhen | src/connections.rs:902-926 | Where the rooms can be read a request reaches the lock if and only if every room of every list can be found, as that list looks them up, and the resolved lists meet their rules |
| ConnectionRuns.CutRunIsRun | src/connections.rs:955-969 | A run whose saves may each be cut off by a crash is a run |
| ConnectionRuns.SavingBackKeepsEverything | src/connections.rs:902-979 | Any reachable document, sent back as it was read, is saved with nothing changed but its version, even when its rooms have left the model or the model cannot be read |
| ConnectionsStore.PrepareRequest | src/connections.rs:908-926 | Resolving and validating list by list gives the specification's preparation |
| ConnectionsStore.ConnectionsStore.LoadDocument | src/connections.rs:431-442 | The project's document, or the empty one |
| ConnectionsStore.ConnectionsStore.Write | src/connections.rs:955-969 | The documents become the old ones with this one put in, or are unchanged; and cut off anywhere they are one or the other |
| ConnectionsStore.ConnectionsStore.Save | src/connections.rs:902-979 | The imperative save, through lock, version check, write and backup, gives the specification's answer and next state, and cut off anywhere leaves the documents before or after it |
| Geometry.RingArea | scripts/check_areas.py:87-93 | The loop computes the signed shoelace area |
| Geometry.SplitAddsArea | scripts/check_areas.py:87-93 | A ring cut in two by any wall between two of its vertices: the two signed areas add to the whole's |
| Geometry.SplitCountsWallTwice | scripts/check_areas.py:139-158 | Ray crossings of the two parts are the whole's plus the wall's twice |
| Geometry.SplitIsExclusive | scripts/check_areas.py:139-158 | At every point, on the wall included, the even-odd answers of the two parts exclusive-or to the whole's: a common edge contributes nothing |
| Geometry.ToggleIsUndirected | scripts/check_areas.py:153-157 | An edge toggles the same walked either way |
| Geometry.HalvesShareToggle | scripts/check_areas.py:153-157 | The two halves of an edge together toggle as the edge does, at the dividing point's height too |
| Geometry.VertexOnEdgeKeepsArea | scripts/check_areas.py:87-93 | A vertex put on an edge changes no area |
| Geometry.VertexOnEdgeKeepsCrossings | scripts/check_areas.py:139-158 | A vertex put on an edge changes no crossing count at any point |
| Geometry.ReverseShoelace | scripts/check_areas.py:87-93 | Walking a ring the other way negates its area |
| Geometry.ReverseCrossings | scripts/check_areas.py:139-158 | Walking a ring the other way keeps its crossings |
| Shapes.TriangleArea | scripts/check_areas.py:87-93 | The signed area of a triangle is half the turn of its corners; with `Geometry.SplitAddsArea` this fixes the area of every ring |
| Shapes.RectangleArea | scripts/check_areas.py:87-93 | The signed area of an axis-parallel rectangle walked counter-clockwise is width times height |
| Shapes.ToggleIsSide | scripts/check_areas.py:151-157 | The ray crosses an edge if and only if the edge spans its height and the point is on its inner side |
| Shapes.TriangleInside | scripts/check_areas.py:139-158 | Every point strictly inside a triangle is found inside, and none outside it is |
| Shapes.TriangleEitherWay | scripts/check_areas.py:139-158 | A triangle walked the other way holds the same points |
| Shapes.RectangleInside | scripts/check_areas.py:139-158 | Inside a rectangle are exactly the points from its low sides up to, but without, its high sides |
| RingChecks.CrossingIsExact | scripts/check_areas.py:340-349 | Two segments properly cross if and only if they are not parallel and share a point strictly inside both |
| RingChecks.CrossingIsSymmetric | scripts/check_areas.py:340-349 | The crossing test is symmetric in the segments and under reversal of each |
| RingChecks.SharedEndNeverCrosses | scripts/check_areas.py:340-349 | Segments with a common end never properly cross |
| RingChecks.SkippedPairsNeverCross | scripts/check_areas.py:330-333 | The pairs the loop skips could never have crossed |
| RingChecks.FirstCrossed | scripts/check_areas.py:329-337 | The double loop finds the first edge that crosses a later one, or proves that no two edges cross |
| RingChecks.Report.Fail | scripts/check_areas.py:211-217 | A failure is appended |
| RingChecks.CheckRings | scripts/check_areas.py:321-337 | The report gains, in order, one failure for each ring under three points and one for the first self-crossing ring, where checking stops |
| RingChecks.ReportIsLossless | scripts/check_areas.py:321-337 | A self-intersection is reported if and only if some ring of at least three points has two edges that cross |
| SimpleRings.SimpleIsUncrossedUntouched | scripts/check_areas.py:321-337 | A ring of at least three points is simple if and only if no two of its edges properly cross and no vertex lies on an edge it is no end of |
| SimpleRings.PassedIsSimpleIffUntouched | scripts/check_areas.py:321-337 | When nothing is reported, a ring is simple with distinct points, as documented, if and only if no vertex lies on an edge it is no end of |
| SimpleRings.MeetingSegments | scripts/check_areas.py:340-349 | Two segments that meet properly cross, or an end of one lies on the other: what the crossing test alone leaves out |
| SimpleRings.SharedEndMeets | scripts/check_areas.py:330-333 | Two edges from one vertex that meet elsewhere run along each other to the far end of one |
| SimpleRings.OnSegmentIsExact | scripts/check_areas.py:340-345 | Lying on a segment is a test of one turn and two intervals |
| SimpleRings.SimpleHasDistinctPoints | scripts/check_areas.py:322 | The points of a simple ring are all distinct |
| SimpleRings.SimpleHasThreePoints | scripts/check_areas.py:322 | A simple ring has at least three distinct points |
| SimpleRings.OutAndBackPasses | scripts/check_areas.py:321-337 | A ring that passes and is not simple: out and back along one edge, two points, no area |
| Sampler.PointInPolygon | scripts/check_areas.py:139-158 | The toggling loops compute the parity of all crossings |
| Sampler.PointInFootprint | scripts/check_areas.py:161-162 | Some polygon holds the point |
| Sampler.StraddleParity | scripts/check_areas.py:151-157 | Around any closed ring the number of edges that cross any height is even |
| Sampler.OutsideBoxIsEven | scripts/check_areas.py:151-203 | A point outside a ring's half-open box sees an even number of crossings |
| Sampler.InsideIsScanned | scripts/check_areas.py:165-203 | Every point inside a footprint lies in the half-open box of all its vertices |
| Sampler.OutsideBoxHolesDecide | scripts/check_areas.py:139-162 | Outside the box of the exteriors a point is in the footprint if and only if it is in an odd number of one polygon's holes |
| Sampler.InsideIsInBox | scripts/check_areas.py:180-188 | Every point of a footprint lies in the half-open box of its exteriors if and only if no point outside it is in an odd number of one polygon's holes |
| Sampler.HolesInBoxStayIn | scripts/check_areas.py:180-188 | Holes all of whose points lie in the box put no point outside it in the footprint |
| Sampler.MissedIsUnscanned | scripts/check_areas.py:180-188 | A point of both footprints is outside the scanned window if and only if a hole of one reaches out of its box there, over the other |
| Sampler.CommonPointsAreScanned | scripts/check_areas.py:180-188 | Every point in both footprints lies in the scanned window if and only if no hole of either reaches out of its box over a point of the other |
| Sampler.HolesInBoxMissNothing | scripts/check_areas.py:180-188 | Nothing is missed whenever the holes of both footprints stay in their boxes |
| Sampler.RejectLosesNothing | scripts/check_areas.py:180-203 | Counting over the window gives the count over any larger part of the grid if and only if no sample point there is missed |
| Sampler.EarlyZeroIsExact | scripts/check_areas.py:187-188 | When the boxes do not meet, no point is in both footprints if and only if nothing is missed |
| Sampler.Bbox | scripts/check_areas.py:115-118 | Holds every point, and is tight on all four sides |
| Sampler.CountRow | scripts/check_areas.py:195-203 | One row counts exactly its grid points in both footprints |
| Sampler.SampleOverlap | scripts/check_areas.py:165-203 | The accumulating loops give the number of grid points in both footprints times the cell area |
| Shapes.SampledRectangles | scripts/check_areas.py:165-203 | Of two overlapping rectangles the sampled area is that of a block less than one step shorter or longer on either side than the rectangle they share, and exactly that where its sides are whole steps |
| Shapes.StepsCover | scripts/check_areas.py:189-203 | The steps that sample a length make up that length to less than one step |
| Sampler.OverlapIsSymmetric | scripts/check_areas.py:165-203 | Overlap does not depend on which footprint comes first |
| Sampler.HoleOutsideBoxIsMissed | scripts/check_areas.py:180-188 | The failing side occurs: a footprint with a hole drawn away from its exterior, and a point of it that is never scanned |
| Frames.CheckedBox | src/assignments.rs:76-98 | A frame is kept exactly when its move and its scales are in range; the kept one differs only in its angle, by whole turns, and is kept as it is again |
| Frames.WrappedIsTheAngle | src/assignments.rs:89-97 | The wrapped angle is the one angle in (-180, 180] that points the same way |
| Frames.PlaceScalesArea | src/assignments.rs:100-106 | Placing sends the pivot to the centre and multiplies the signed area of any ring by sx times sy, which is positive: never mirrored, never degenerate |
| Frames.PlaceIsInjective | src/assignments.rs:100-106 | Two points are never placed on one |
| Frames.PlaceByRightAngles | src/assignments.rs:100-106 | Unturned, a point lies from the centre as from the pivot, stretched along each axis; turned by a right angle, what lay to the right lies above and what lay above, to the left |
| Frames.PlaceMixesRightAngles | src/assignments.rs:100-106 | Any other turn mixes those two by its cosine and sine |
| Frames.PlaceKeepsDistances | src/assignments.rs:100-106 | Placing keeps distances but for the stretch along each axis |
| Frames.RingScales | src/assignments.rs:100-106 | Any affine map multiplies the signed area of any ring by its determinant |
| WindowFrames.Reconcile | scripts/analyse_windows_probe.py:413-480 | There is a report if and only if some element is on a listed level with a sill and a box; when more than half of those have their box start where an offset of v puts their sill, the offset is v; and the report holds the median, the spread, the smallest gap, the tolerance and the outlier rows in order |
| WindowFrames.SampleIsOffset | scripts/analyse_windows_probe.py:444-452 | Exactly the elements on a listed level with a sill and a box give a sample, and it is v if and only if the box starts at the level plus the sill less v; the sill height counts, the level offset only without one |
| WindowFrames.LevelIsLast | scripts/analyse_windows_probe.py:441 | An element is on the last level listed with its id |
| WindowFrames.MostFitIsMedian | scripts/analyse_windows_probe.py:443-458 | When more than half of the usable elements fit one offset, that is the median |
| WindowFrames.MedianIsInTheMiddle | scripts/analyse_windows_probe.py:457-458 | The offset is one of the samples, at most half of which lie below it and fewer than half above |
| WindowFrames.SpreadIsWidest | scripts/analyse_windows_probe.py:467 | The spread is the widest that two samples lie apart |
| WindowFrames.ToleranceIsHalfGap | scripts/analyse_windows_probe.py:460-462 | The tolerance halves the smallest gap, and is 1 where that is 0 or there is none |
| WindowFrames.SortedArranges | scripts/analyse_windows_probe.py:457 | Sorting only rearranges the values |
| WindowFrames.MedianFollowsMajority | scripts/analyse_windows_probe.py:457-458 | The middle of a sorted list lies in any interval that holds a strict majority |
| WindowFrames.MajorityDecides | scripts/analyse_windows_probe.py:443-480 | If more than half the samples lie in an interval narrower than the tolerance, the offset does too, none of them is reported, and every sample a storey from the interval is |
| WindowFrames.AlwaysReportedIffTwoTolerances | scripts/analyse_windows_probe.py:433-480 | A sample thrown off by d from one the majority agrees with is reported in every sample set, with a majority interval narrower than the tolerance, if and only if d is at least two tolerances |
| WindowFrames.WrongLevelIsReported | scripts/analyse_windows_probe.py:433-441 | An element reported on the wrong level is always reported if and only if the two levels are at least two tolerances apart; on levels listed strictly upwards any two are |
| WindowFrames.PromiseIsHalfStorey | scripts/analyse_windows_probe.py:433-480 | The promise for a storey of p (no sample of a majority interval narrower than p/2 is reported, every one p or more from a value of it is) holds if and only if the tolerance is p/2 |
| WindowFrames.PromiseHoldsIff | scripts/analyse_windows_probe.py:461-479 | For the smallest positive gap the promise holds if and only if every gap is positive, or the smallest gap is 0 and that positive one is 2 |
| WindowFrames.EqualLevelsHideWrongLevel | scripts/analyse_windows_probe.py:461-479 | The failing side occurs: beside two levels at one elevation an element on the wrong level is not reported |
| WindowFrames.EqualLevelsReportHonest | scripts/analyse_windows_probe.py:461-479 | The failing side occurs: beside two levels at one elevation a sample that agrees to well under half a storey is reported |
| WindowFrames.RowsAreOutliers | scripts/analyse_windows_probe.py:471-479 | The rows are exactly those of the samples further from the median than the tolerance |
| WindowFrames.RowSaysHowFar | scripts/analyse_windows_probe.py:471-477 | A row names its element, how far its sample is from the offset, and how many storeys that is, when there is one |
| WindowFrames.OutOfOrderIsNegative | scripts/analyse_windows_probe.py:461-463 | The tolerance is negative if and only if some level is listed below the one before it |
| WindowFrames.OutOfOrderReportsEverything | scripts/analyse_windows_probe.py:461-479 | With a negative tolerance every sample is reported, the median included; otherwise the median never is |
| WindowFrames.MedianIsReported | scripts/analyse_windows_probe.py:443-479 | The failing side occurs: with two levels listed downwards the one element, the median itself, is reported |
| SillRule.SillRuleByPlace | scripts/analyse_windows_probe.py:387-410 | However the levels are listed, the answer is the last listed at or below the sill, or the first listed that is crossed when at least half of the height is above it; on rising levels that is the next one up, so no storey is skipped |
| SillRule.BelowEveryLevel | scripts/analyse_windows_probe.py:399-410 | An element that starts below every level is put on the first listed, or on the first crossed with at least half its height above that; on rising levels always on the lowest |
| ImportClosure.FindClosure | scripts/check_duhast_closure.py:71-95 | The worklist ends, and `reached` is the least set closed under the imports of the files it resolves to and under ancestors; each unresolvable name is listed once with a file that imports it |
| ImportClosure.ClosureIsUnique | scripts/check_duhast_closure.py:71-95 | There is only one such set, whatever order the queue takes |
| ImportClosure.ImportsAreMentioned | scripts/check_duhast_closure.py:46-58 | A file imports a name if and only if the name, or one it is an ancestor of, is what an `import` names, the package of a `from` import, or that package with one of its words for which there is a module file or a package |
| ImportClosure.ModulesAreMentioned | scripts/check_duhast_closure.py:46-58 | The list made of a file's statements holds exactly the names they mention |
| ImportClosure.MentionedIsReached | scripts/check_duhast_closure.py:79-95 | Whatever a loaded file mentions is reached, the modules among the words of a `from` import included |
| ImportClosure.Check | scripts/check_duhast_closure.py:117-141 | The exit status is 0 exactly when every reached name resolves to a file that loads no DLL |
| ImportClosure.Resolve | scripts/check_duhast_closure.py:35-43 | A plain module file wins over a package, and None means that neither file is there |

## Left out

- Floating point: coordinates, sizes and offsets are exact reals, so rounding, NaN and infinities do not occur and the finiteness checks are taken as met; sine and cosine are any pair with unit sum of squares.
- 32-bit limits of revision numbers and of `last_pending_id`, which are unbounded here.
- Stamps of years past 9999, whose text no longer sorts by time; the proofs about stamps hold for any text the clock gives.
- HTTP, JSON and its schema versions, logging and the texts of error messages; a refusal is one of the error kinds.
- Applying an accepted bundle to sheets and tag rules (`src/blueprint_bundle.rs`); a bundle is an opaque text.
- The order and summaries of listings, and the `get` views of a blueprint.
- Hand-edited files and processes that bypass the locks. That a live file always parses follows from `Disk.NoTornDocument`; the parse error of a torn one is not modelled.
- Lock poisoning and the creation of directories, whose failure is one of the disk's faults at the temp file.
- Content of a revision beyond outline, items, doors and follow links: captured properties are counted, not interpreted.
- What is derived from connections at read time: routing, reach, wall sharing. Their services are not part of this model.
- Checks of the area script that compare with the server's figures or need `atan2`, and its text report.
- Rounding in the reports of the window script, and its coverage tables.
- The regular expressions of the import scan, encoding cookies, and the walk over directories; a source is its list of import statements. Names with an empty dotted part are outside the model.
- Workspace.Run: starts from empty stores; an assignment's blueprint is read from the same project as the assignment.
- ConnectionRuns.Run: each list's lookup of the project's rooms is an arbitrary listing per save, since the model it reads is another store.
- Sampler.SampleOverlap: asks for a positive step and for exteriors with at least one point, because the script does not end, or fails, without them.
- Copies.ExactlyTheseAreLeft: for a document whose stamps increase and that had no copies before its first attempt. A save of a document that is not on file makes no copy, and its pruning is not one of the attempts: it finds none, unless the id of a removed assignment came back.
- The 64-bit width of the id counters: the loops of `Ids` are shown to end within the tries counted there, and a counter that wraps needs 2^64 of them.
- WindowFrames.PromiseHoldsIff: where some listed gap is positive; without one there is no storey to promise anything of.
- Geometry.SplitIsExclusive: one wall at a time; a plan cut into many rooms follows by cutting again.
