# Rights-management client: a verified model

This project models five parts of the Windows rights-management client in Dafny and proves what they
guarantee.

* **Shared-memory request transport** (`Transport*.dfy`). Client threads claim fixed record slots of one
  mapped section by compare-and-swap, publish a request, poll for the answer, and scrub and release the slot;
  the engine claims, answers and recycles records. `Transport` is a state machine in which every shared read,
  store and compare-and-swap, and every byte of a block copy, is one step, and the steps of any number of
  client threads, of the engine's worker and of its handlers interleave freely. `TransportInvariant` holds the
  inductive invariant, `TransportTickets` that no two submissions are confused, `TransportSafety` the
  consequences over whole runs, `TransportBound` and `TransportExact` the exact bounds on requests and answers
  under which they hold,
  `TransportReturns` what TRUE and FALSE tell a caller, `TransportLoss` exactly when a published request is lost,
  `TransportCalls` what single calls do: on a section that is not ready, on a timeout, in `post_response`.
* **Classification list over the label graph** (`Bits`, `ClassifyItem`, `ClassifyData`, `LabelGraph`,
  `ListEvents`, `ListSplice`, `ListTree`, `ListSync`, `ListWitness`, `ClassifyList`, `ClassifyDialog`,
  `ClassifySession`). A label's selection is an `int` used as an index or as a bit
  mask; the displayed rows are a pre-order expansion of the label graph, edited in place by combo boxes; control
  ids and a list box follow the rows; initial tags narrow the values by priority; OK collects the tags. The
  classes `Item`, `LabelData`, `ListCtrl` and `Dialog` change their fields as the C++ objects do and are proved
  against functions on values, and the properties are proved about those functions. `ListSync` says exactly when
  the rows displayed stay a fresh expansion; `ClassifySession` runs the objects from initial tags to OK.
* **Label tree, its XML form and the wizard** (`LabelXml`, `Labels`, `Wizard`). Labels are linked objects with
  parent links, loaded from and printed to an element tree; the wizard walks the selected path.
* **Tag buffers** (`TagBuffer`). Two encoders of name=value multi-strings and one decoder.
* **Two small cores** (`ObligationCache`, `DialogUnits`), and the comparison of texts (`Text`).

`dafny verify dfyconfig.toml` checks everything. Nothing rests on automatic induction:
`dafny verify --manual-lemma-induction dfyconfig.toml` checks it as well.

## Results worth knowing

* The transport is safe over all runs exactly when neither a request nor an answer is longer than a record's data
  (`TransportExact.SafeIffBoundsFit`). `post_response` frees the record on a longer answer although its client
  still awaits it, and a second client can then take the slot (`TransportBound.TakenTwice`). `SubmitRequest` only
  asserts the length; without the assertion it stores the full length over the bytes that fit
  (`TransportBound.PublishedCut`).
* `CCoreObject::WaitForResponse` returns TRUE on a timeout as well, with nothing copied
  (`TransportReturns.SilentReturn`). It does so exactly when the call's slot stays abandoned; every other TRUE comes
  with the answer to the call (`TransportReturns.ReturnsTell`).
* A published request can be lost: `recycle_cancel_request` looks at `record_state` and at `record_cancelled` one
  after the other, and between the two looks the record can change hands, so the worker scrubs a notification the
  engine never claimed (`TransportLoss.RequestLost` is such a run). It happens exactly at the second look, and only
  to a request no client awaits (`TransportLoss.OnlyDisownedDropped`).
* On a tree-shaped label graph a combo box change of row n leaves the rows equal to a fresh expansion exactly if two
  things hold (`ListSync.TreeComboInSyncIff`, and `ListSync.RunInSyncIff` for whole runs). First, only the *first*
  sub-label id of the chosen value may resolve: the handler returns at the first id that does not, and a fresh
  expansion gives the k-th id level + 1 + k where the handler gives level + 1 (`ListWitness.SubLabelMissed`). Second,
  the first row after row n's own expansion stands no higher than row n: the handler deletes by level only, and the
  k-th sub-label of a default selection stands k levels above the first, so that setting the first one deletes its
  siblings, with their mandatory checks and tags (`ListWitness.SiblingLost`). Where at most one sub-label id of
  every value resolves, the second always holds (`ListSync.LoneFitsIff`) and only the first decides
  (`ListSync.LoneRunInSyncIff`).
* An initial tag can be lost: one that matches a label which is not displayed at OK is neither among the unmatched
  tags nor contributed by a displayed label (`ClassifySession.TagLost`). A single-selection label that an initial
  tag matched is named by the displayed labels' tags exactly if some row displays it, or displays another selected
  label of the same name (`ClassifySession.SessionLosesHidden`).
* Bit 31 of a multiple selection is the sign of the `int`: 31 values are exactly what `Select` supports
  (`ClassifyItem.SelectInsertsIff`).
* OK on a wizard page, shown by a combo box choice, skips the mandatory check of the last label; the tags then
  cover all mandatory labels exactly if that label would have passed (`Wizard.Dialog.OnOk`; `Wizard.EarlyOk` is
  such a document and click).
* The decoding loop stays inside its buffer for every section with an even number of bytes; for an odd number
  the exact condition is `TagBuffer.SectionStaysInsideIff`, and `TagBuffer.OddSectionLeaves` a section that fails it.
* Encoding then decoding gives back the pairs with both parts filled exactly if each is free of NULs, has no
  equals sign in its name and no space around either part (`TagBuffer.RoundTripIff`).

## Assumptions

Sequential consistency; a section mapped with every record zeroed or scrubbed; client threads, not processes,
hold slots (two threads of a process store the same id); one engine worker. For the list: an acyclic label graph
(the source does not terminate on a cyclic one), control creation succeeds, ids stay below 65536 because the window
procedure takes them from the low word of `wParam` (nxrmcmui/src/classifylistctrl.cpp:396), a combo box reports an
index it offers, multiple selections have at most 31 values. For the wizard: the default selections name existing
values, multiple selections have at most 31 values and no sub-labels. Case-insensitive comparison is that of the C
locale. What the locale calls a space is a parameter of the decoder.

## Model

| member | source | states |
|---|---|---|
| TransportInvariant.InitialInv | nxrmdrv/src/nxrmdrv/nxrmdrv.c:233-237 | a section just mapped, with every record zeroed or scrubbed and nobody active, meets the invariant |
| TransportInvariant.FillComplete | nxrmconv/src/corehlp.cpp:123-131 | once every store of SubmitRequest but the publishing one is done, the record carries the whole request: type, length and bytes |
| TransportInvariant.FreeComplete | nxrmconv/src/corehlp.cpp:286-300 | FreeRecord leaves a fully scrubbed record, whatever it held; the release of record_taken is its last store |
| TransportInvariant.RecycleComplete | nxrmdrv/src/common/nxrmcorehlp.cpp:559-601 | the engine's release, which stores in another order, ends in the same scrubbed record |
| TransportInvariant.AnswerComplete | nxrmdrv/src/common/nxrmcorehlp.cpp:603-666 | before post_response publishes, the record carries the whole answer and its length |
| TransportInvariant.StoreKeepsDone | nxrmconv/src/corehlp.cpp:121-131 | a store of a routine undoes none of the stores it made before |
| TransportInvariant.ScanInv | nxrmconv/src/corehlp.cpp:256-283 | a probe of the allocation loop, winning or losing its compare-and-swap, keeps the invariant, with the probes so far exactly the passes and offsets the loop counters say |
| TransportInvariant.FillInv | nxrmconv/src/corehlp.cpp:123-137 | every store of SubmitRequest keeps the invariant: until the last one the engine cannot see the record, and then it sees all of it |
| TransportInvariant.PollInv | nxrmconv/src/corehlp.cpp:160-167 | polling keeps the invariant |
| TransportInvariant.TimeoutInv | nxrmconv/src/corehlp.cpp:163-166 | a timeout keeps the invariant: the slot stays taken as abandoned and the caller is told TRUE, or the state is read once more |
| TransportInvariant.RecheckInv | nxrmconv/src/corehlp.cpp:169-175 | the second look at record_state keeps the invariant; a CCoreObject thread always finds the record ready there |
| TransportInvariant.CancelInv | nxrmdrv/src/common/nxrmcorehlp.cpp:240-316 | setting record_cancelled hands the slot to the engine, whatever the engine is doing with it |
| TransportInvariant.LengthInv | nxrmconv/src/corehlp.cpp:178-179 | reading the answer's length keeps the invariant |
| TransportInvariant.CopyInv | nxrmconv/src/corehlp.cpp:178-178 | copying the answer byte by byte keeps the invariant: nobody else writes the record meanwhile |
| TransportInvariant.ReceiptInv | nxrmconv/src/corehlp.cpp:178-179 | what has been handed back is the engine's answer to this submission, cut to the buffer, with the right count |
| TransportInvariant.ReleaseInv | nxrmconv/src/corehlp.cpp:286-300 | every store of FreeRecord keeps the invariant; the slot becomes free only when scrubbed |
| TransportInvariant.ClaimingInv | nxrmdrv/src/common/nxrmcorehlp.cpp:517-557 | the engine claims a record only as a whole request of one submission |
| TransportInvariant.RecyclingInv | nxrmdrv/src/common/nxrmcorehlp.cpp:559-601 | every store of recycling keeps the invariant; only cancelled records nobody handles are recycled |
| TransportInvariant.HandlerInv | nxrmdrv/src/nxrmdrvman/nxrmdrvman.cpp:997-1090 | every step of serving and answering a record keeps the invariant, as long as the answer fits |
| TransportInvariant.StepInv | nxrmdrv/inc/nxrmdrv.h:90-105 | every step any thread can take keeps the invariant, as long as requests and answers fit a record |
| TransportTickets.StepTickets | nxrmconv/src/corehlp.cpp:105-188 | every step keeps the tickets of all submissions held or returned from below the next one and pairwise distinct |
| TransportSafety.ShapeKept | nxrmdrv/inc/nxrmdrv.h:74-105 | no step, legal or not, leaves the section: every offset and record index stays that of a whole record |
| TransportSafety.InvExclusive | nxrmconv/src/corehlp.cpp:260-300 | a slot has at most one holder, a held record is taken, a record that is not taken is fully scrubbed, and a record ready for the engine holds a whole request |
| TransportSafety.InvAccounted | nxrmconv/src/corehlp.cpp:140-188 | the taken records are exactly those held by a thread, abandoned by a timeout, cancelled, or being recycled |
| TransportSafety.TransportSafe | nxrmconv/src/corehlp.cpp:105-300 | over every interleaving, as long as requests and answers fit a record: exclusive slots, scrubbed free records, whole requests, every answer the answer to its own request with no two submissions sharing a ticket, FALSE never told to a CCoreObject thread and TRUE told to others exactly with an answer, the not-ready branch behind the wait loop unreachable, slot accounting, and NULL only if not ready or after three full passes (that a section which is not ready yields no slot: `TransportCalls.HolderSawReady`) |
| TransportCalls.NotReadyUntouched | nxrmconv/src/corehlp.cpp:250-253 | over every run, as long as the section is not made ready, no record changes and no thread holds a slot |
| TransportCalls.NotReadyRefused | nxrmconv/src/corehlp.cpp:250-253 | a thread that asks for a record then gets NULL, and nothing else changes |
| TransportCalls.HolderSawReady | nxrmconv/src/corehlp.cpp:246-283 | over every run, with any toggling: a thread that holds or looks for a slot read ready as true in that very call |
| TransportCalls.ConvTimesOut | nxrmconv/src/corehlp.cpp:160-167 | a CCoreObject thread whose timeout has expired returns TRUE at once, with nothing, and leaves the record alone |
| TransportCalls.CommonTimesOut | nxrmdrv/src/common/nxrmcorehlp.cpp:270-299 | any other looks once more and returns FALSE with the record cancelled, if it is still not ready |
| TransportCalls.CommonFindsAnswer | nxrmdrv/src/common/nxrmcorehlp.cpp:270-310 | or goes on to copy the answer, if it is ready now |
| TransportCalls.SilenceHasCause | nxrmconv/src/corehlp.cpp:160-167 | over every run, as long as requests and answers fit: a thread is told of a call without an answer only if its wait loop found the timeout expired or the section not ready |
| TransportCalls.WorkerLooks | nxrmdrv/src/common/nxrmcorehlp.cpp:517-601 | the worker claims a record ready for the engine, starts to recycle one answered or rejected and cancelled, and leaves any other alone |
| TransportCalls.PostResponds | nxrmdrv/src/common/nxrmcorehlp.cpp:603-666 | post_response run to its end: a cancelled record, or one whose answer is too long, is scrubbed and freed; any other holds the whole answer, is published, and is otherwise unchanged |
| TransportSafety.PassCoversSection | nxrmconv/src/corehlp.cpp:258-272 | one pass probes every whole record behind the header once, in order, and nothing else |
| TransportSafety.RoundsAreProbes | nxrmconv/src/corehlp.cpp:256-281 | giving up means three such passes |
| TransportSafety.AbandonedForEver | nxrmconv/src/corehlp.cpp:163-166 | a slot abandoned by a timeout stays taken for the same submission in every later state, so a late answer reaches no later request |
| TransportBound.TakenTwice | nxrmdrv/src/common/nxrmcorehlp.cpp:603-666 | for any bound on answers above a record's data there is a run after which two threads hold one slot |
| TransportBound.PublishedCut | nxrmconv/src/corehlp.cpp:121-133 | for any bound on requests above a record's data there is a run that publishes a record whose length exceeds the bytes in it |
| TransportExact.SafeIffBoundsFit | nxrmdrv/src/common/nxrmcorehlp.cpp:603-666 | every run is safe if and only if requests and answers are both at most 3948 bytes |
| TransportReturns.StepTraced | nxrmconv/src/corehlp.cpp:160-188 | every step keeps silent returns (TRUE, nothing copied) and abandoned slots matched, call by call |
| TransportReturns.ReturnsTell | nxrmconv/src/corehlp.cpp:151-189 | over every run, as long as requests and answers fit: a return says TRUE with nothing copied exactly if a slot is abandoned for its call; any other TRUE has the answer; FALSE has none and is never told to a CCoreObject thread |
| TransportReturns.SilentReturn | nxrmconv/src/corehlp.cpp:163-165 | a run from the start after which a caller has been told TRUE and handed nothing |
| TransportLoss.DroppedIff | nxrmdrv/src/common/nxrmcorehlp.cpp:559-601 | a published request not being recycled starts to be recycled in a step exactly if the step is the worker's second look at its record and the request is cancelled; it is then a whole request |
| TransportLoss.OnlyDisownedDropped | nxrmdrv/src/common/nxrmcorehlp.cpp:559-601 | over every run: a request is dropped exactly by a second look at one its client no longer awaits; awaited and timed-out ones never are |
| TransportLoss.DroppedForGood | nxrmdrv/src/common/nxrmcorehlp.cpp:559-601 | over every run from a dropped request: in each state up to the first in which the record is scrubbed, the worker is scrubbing it and no handler serves it |
| TransportLoss.RequestLost | nxrmdrv/src/common/nxrmcorehlp.cpp:572-577 | a run from the start in which a published notification is dropped before the engine claims it |
| ClassifyItem.SelectRefinesInsert | nxrmcmui/src/classifydata.cpp:55-82 | Select inserts into a multiple selection, replaces a single one, clears with -1, ignores other indices, and keeps selections naming existing values |
| ClassifyItem.UnselectRefinesRemove | nxrmcmui/src/classifydata.cpp:84-101 | Unselect removes from a multiple selection and clears a single one |
| ClassifyItem.SelectInsertsIff | nxrmcmui/src/classifydata.cpp:62-73 | selecting value i of a multiple selection inserts i exactly if i is below 31 |
| ClassifyItem.ListingOrder | nxrmcmui/src/classifydata.cpp:127-149 | the listing has strictly increasing indices and is exactly the selected set |
| ClassifyItem.ListedValues | nxrmcmui/src/classifydata.cpp:127-149 | the values listed are those at the listed indices |
| ClassifyItem.FilledIffNonEmpty | nxrmcmui/src/classifydata.cpp:151-161 | -1 and 0 both mean the empty selection of a multiple label, and the listing is empty exactly then |
| Text.SameNoCaseIff | nxrmcmui/src/dlgclassify2.cpp:84-90 | texts compare equal exactly if they differ at most in capitals of the same letters |
| ClassifyData.Item.Select | nxrmcmui/src/classifydata.cpp:55-82 | the object's new state and selected set, and the value returned |
| ClassifyData.Item.Unselect | nxrmcmui/src/classifydata.cpp:84-101 | the object's new state and selected set |
| ClassifyData.Item.GetFirstSelectedValue | nxrmcmui/src/classifydata.cpp:103-125 | the head of the listing, none if nothing is selected |
| ClassifyData.Item.GetSelectedValues | nxrmcmui/src/classifydata.cpp:127-149 | appends exactly the listing; the count is the length of the whole vector, which is the listing's for an empty one |
| ClassifyData.Item.IsSelected | nxrmcmui/src/classifydata.cpp:151-159 | whether the selected set is not empty |
| ClassifyData.Item.IsSelectedAt | nxrmcmui/src/classifydata.cpp:161-177 | membership in the selected set |
| ClassifyData.Item.AddValue | nxrmcmui/inc/classifydata.hpp:67-67 | appends the value and changes nothing else |
| ClassifyList.LabelData.GetItem | nxrmcmui/inc/classifydata.hpp:113-121 | finds the first label with the id |
| LabelGraph.LookupFindsFirst | nxrmcmui/inc/classifydata.hpp:113-121 | the label found has the id, and no earlier one has |
| LabelGraph.DescendantsAbove | nxrmcmui/src/classifylistctrl.cpp:552-569 | an expansion starts with its label, and every descendant stands above its level |
| LabelGraph.ExpandShape | nxrmcmui/src/classifylistctrl.cpp:552-569 | a label is followed by the expansions of its selected value's sub-label ids, id after id, the k-th of them k + 1 levels up, and by nothing else |
| LabelGraph.ExpandRankFree | nxrmcmui/src/classifylistctrl.cpp:552-569 | the expansion depends on the label graph and selections only, not on how acyclicity is witnessed |
| LabelGraph.EntriesFromFlatten | nxrmcmui/src/classifylistctrl.cpp:539-547 | displaying entry after entry is the concatenation of the entries' expansions |
| ListEvents.RunIsMaximal | nxrmcmui/src/classifylistctrl.cpp:446-456 | the rows the handler deletes are the maximal following run of strictly greater level |
| ListEvents.InsertedRows | nxrmcmui/src/classifylistctrl.cpp:461-470 | the insertion loop shows the longest run of resolvable sub-label ids, each on the same level |
| ListEvents.InsertedCleared | nxrmcmui/src/classifylistctrl.cpp:461-470 | it clears the selection of exactly the labels it shows |
| ListEvents.ComboMeaning | nxrmcmui/src/classifylistctrl.cpp:424-478 | on any rows over any graph: prefix and suffix kept, exactly the maximal run replaced by the chosen value's sub-labels up to the first that does not resolve, one level up; the changed row's label is selected, the new rows' labels cleared, all others kept |
| ListEvents.ChosenRows | nxrmcmui/src/classifylistctrl.cpp:458-470 | the new rows are exactly the sub-labels of the chosen value up to the first id that does not resolve |
| ListEvents.CheckSetMeaning | nxrmcmui/src/classifylistctrl.cpp:480-506 | a check box that is ticked adds its value to the selection of its row's label, one that is cleared removes it; nothing else of any label, and no row, changes |
| ListSplice.SpliceEntries | nxrmcmui/src/classifylistctrl.cpp:539-569 | around any row's own expansion the rows displayed stay the same rows as long as the labels there are the same, and the own expansion becomes the new one |
| ListTree.NearInsideEntries | nxrmcmui/src/classifylistctrl.cpp:539-569 | on a tree-shaped graph a label is displayed once, and its sub-labels only in its own expansion |
| ListSync.InsertMatchesIff | nxrmcmui/src/classifylistctrl.cpp:458-470 | on any acyclic graph the rows inserted are the row's own fresh expansion exactly if the blank entry is chosen or only the first sub-label id of the chosen value may resolve |
| ListSync.RunCovers | nxrmcmui/src/classifylistctrl.cpp:445-456 | the run deleted covers the row's own expansion, and is exactly that if and only if the first row after it stands no higher than the row |
| ListSync.ComboInSyncIff | nxrmcmui/src/classifylistctrl.cpp:424-478 | on any acyclic graph where the labels touched are displayed in the row's own expansion only, whatever the other selections: the new rows equal a fresh expansion exactly if the blank entry is chosen or only the first id may resolve, and the run deleted is the row's own expansion |
| ListSync.TreeComboInSyncIff | nxrmcmui/src/classifylistctrl.cpp:424-478 | on every tree-shaped graph and from any in-sync rows the same equivalence, with no condition on selections |
| ListSync.LoneFitsIff | nxrmcmui/src/classifylistctrl.cpp:424-478 | where at most one sub-label id of every selected value resolves, the run deleted is always the row's own expansion, so only the chosen value's ids decide |
| ListSync.CheckKeepsRows | nxrmcmui/src/classifylistctrl.cpp:480-506 | a check box never changes which rows a fresh expansion shows |
| ListSync.RunInSyncIff | nxrmcmui/src/classifylistctrl.cpp:424-506 | every state of a run of combo and check box events is in sync if and only if every combo event meets the condition in the state it happens in |
| ListSync.LoneRunInSyncIff | nxrmcmui/src/classifylistctrl.cpp:424-506 | where at most one id of every value resolves: if and only if every combo event chooses the blank entry or a value of which only the first id may resolve |
| ListWitness.SiblingLost | nxrmcmui/src/classifylistctrl.cpp:445-456 | a concrete tree and event for which the first condition holds, the second fails, and a mandatory row is lost so that the mandatory check passes |
| ListWitness.SubLabelMissed | nxrmcmui/src/classifylistctrl.cpp:461-468 | a concrete tree in which at most one id resolves, and a choice after which a fresh expansion shows a row the handler does not |
| ListEvents.RunSameGraph | nxrmcmui/src/classifylistctrl.cpp:424-506 | over any graph and any run, only selections change |
| ListEvents.RunValid | nxrmcmui/src/classifylistctrl.cpp:424-506 | over any graph and any run, selections name existing values only |
| ClassifyList.OneOwner | nxrmcmui/src/classifylistctrl.cpp:46-101 | an id belongs to at most one sub-control of one row, to no caption, and is below the next id |
| ClassifyList.ListCtrl.CreateRow | nxrmcmui/src/classifylistctrl.cpp:46-101 | a caption and one id per value, or one combo box id, consecutive from the next id |
| ClassifyList.ListCtrl.InsertItem | nxrmcmui/src/classifylistctrl.cpp:571-598 | splices one row at the index, keeps every other row with its ids, and keeps ids distinct and the list box in step |
| ClassifyList.ListCtrl.InsertClassifyItem | nxrmcmui/src/classifylistctrl.cpp:552-569 | for any acyclic graph: terminates, splices in exactly the pre-order expansion at the index, returns the index after it, keeps everything before and after |
| ClassifyList.ListCtrl.InsertSubItems | nxrmcmui/src/classifylistctrl.cpp:557-565 | the sibling loop splices in exactly the expansions of the resolvable ids, the k-th one k levels up |
| ClassifyList.ListCtrl.Init | nxrmcmui/src/classifylistctrl.cpp:528-550 | displays the concatenation of the entries' expansions before whatever is displayed |
| ClassifyList.ListCtrl.FindItemBySubControlId | nxrmcmui/src/classifylistctrl.cpp:508-526 | finds the only owner of an id, and fails only if nothing owns it |
| ClassifyList.ListCtrl.DeleteBelow | nxrmcmui/src/classifylistctrl.cpp:445-456 | erases exactly the maximal run above the row's level, in the rows and in the list box |
| ClassifyList.ListCtrl.InsertChildren | nxrmcmui/src/classifylistctrl.cpp:461-470 | splices in the rows and clears the labels the insertion loop is specified to |
| ClassifyList.ListCtrl.OnComboBoxSelectChange | nxrmcmui/src/classifylistctrl.cpp:424-478 | rows and selections become what the handler's specification says for the owner's row; an id nobody owns changes nothing; ids stay distinct and the list box in step |
| ClassifyList.ListCtrl.OnCheckBoxStateChange | nxrmcmui/src/classifylistctrl.cpp:480-506 | the value whose check box has the id joins the selection of its label if ticked and leaves it if not; every other part of every label, and the rows, stay |
| ClassifyList.ListCtrl.MandatoryCheck | nxrmcmui/src/classifylistctrl.cpp:256-277 | succeeds exactly if every displayed mandatory label has a selection, else returns the first displayed one without |
| ClassifyList.ListCtrl.GetResult | nxrmcmui/src/classifylistctrl.cpp:279-289 | appends the tags of every displayed label, in row order as `ClassifyList.TagAt` says |
| ClassifyList.RowContributes | nxrmcmui/src/classifylistctrl.cpp:279-289 | every selected value of every displayed label is among the tags, under the label's name |
| ClassifyList.TagHasRow | nxrmcmui/src/classifylistctrl.cpp:279-289 | every tag among them is that of a selected value of a displayed label |
| ClassifyList.TagAt | nxrmcmui/src/classifylistctrl.cpp:279-289 | there are exactly as many tags as selected values of displayed rows; the k-th of a row stands k places after those of all rows before it, with the label's name and the value's text |
| ClassifyList.MandatoryContributes | nxrmcmui/src/classifylistctrl.cpp:256-289 | once the mandatory check passes, every displayed mandatory label contributes at least one of its own values |
| ClassifyDialog.MatchIsFirst | nxrmcmui/src/dlgclassify2.cpp:80-120 | a tag is left over exactly if it equals no value of any label of that name; otherwise the first label and its first such value win |
| ClassifyDialog.KeptMeaning | nxrmcmui/src/dlgclassify2.cpp:96-106 | narrowing keeps exactly the values of at least the matched priority, in order |
| ClassifyDialog.KeptSelected | nxrmcmui/src/dlgclassify2.cpp:95-108 | the value selected equals the tag's, and no later kept value does |
| ClassifyDialog.MatchedMeaning | nxrmcmui/src/dlgclassify2.cpp:88-114 | a match leaves a valid selection equal to the tag's value; a single selection becomes mandatory with a floor that never falls; a multiple one keeps its values |
| ClassifyDialog.TagApplied | nxrmcmui/src/dlgclassify2.cpp:80-120 | a tag that equals no value changes nothing; any other is taken by the first label and value: a multiple selection gains the value, a single one keeps exactly the values of at least its priority, selects the last equal one and becomes mandatory; all other labels stay |
| ClassifyDialog.TagsConserved | nxrmcmui/src/dlgclassify2.cpp:68-78 | every tag either matches when its turn comes or is in the unmatched list, which keeps their order |
| ClassifyDialog.ValuesOnlyShrink | nxrmcmui/src/dlgclassify2.cpp:68-120 | every label's values only shrink, to a subsequence, and selections stay valid |
| ClassifyDialog.FloorHolds | nxrmcmui/src/dlgclassify2.cpp:96-112 | once a tag has matched, the label keeps only values of at least that priority, whatever tags follow |
| ClassifyDialog.NoDowngrade | nxrmcmui/src/dlgclassify2.cpp:68-298 | end to end, over all other tags and any run of edits: when OK succeeds, a row displaying a label an initial tag matched contributes exactly one tag, at its place, of at least the matched priority |
| ClassifyDialog.Dialog.SetInitialData | nxrmcmui/src/dlgclassify2.cpp:68-78 | the labels and unmatched tags are those of the specification, and earlier final tags are gone |
| ClassifyDialog.Dialog.InitClassifyItem | nxrmcmui/src/dlgclassify2.cpp:80-120 | the nested search matches and narrows as specified |
| ClassifyDialog.Dialog.NarrowAt | nxrmcmui/src/dlgclassify2.cpp:92-114 | the filtering loop yields the specified values and selection |
| ClassifyDialog.Dialog.OnOk | nxrmcmui/src/dlgclassify2.cpp:281-298 | fails, changing nothing, exactly if a displayed mandatory label is empty; otherwise the final tags end with the displayed labels' tags and the unmatched initial tags, unchanged |
| ClassifySession.NarrowedRanked | nxrmcmui/src/dlgclassify2.cpp:92-114 | narrowing an acyclic label graph leaves it acyclic, by the same ranks |
| ClassifySession.NarrowedOneParent | nxrmcmui/src/dlgclassify2.cpp:92-114 | narrowing a tree-shaped label graph leaves it tree-shaped |
| ClassifySession.Fire | nxrmcmui/src/classifylistctrl.cpp:395-408 | an event happens exactly if a row displayed offers it: the blank entry or a value of a combo box, a check box it has; then the objects' selections and rows become the handler's, else nothing changes |
| ClassifySession.FireAll | nxrmcmui/src/classifylistctrl.cpp:395-408 | any sequence of events on the objects is a run from the state before to the state after |
| ClassifySession.SessionKeepsPriorities | nxrmcmui/src/dlgclassify2.cpp:68-298 | for every initial tag that matched and every row that still displays its label: at the row's place in the final tags stands one tag, of the one selected value, of at least the matched priority |
| ClassifySession.NameListedIff | nxrmcmui/src/classifylistctrl.cpp:279-289 | the displayed labels' tags name exactly the displayed labels that have a selection |
| ClassifySession.SessionLosesHidden | nxrmcmui/src/dlgclassify2.cpp:68-298 | after any run and a passed check, the displayed labels' tags hold one for a single-selection label an initial tag matched if and only if a row displays it, or displays another selected label of its name; the tag is not among the unmatched ones |
| ClassifySession.TagLost | nxrmcmui/src/dlgclassify2.cpp:68-298 | a tag on a tree of three labels that matches, is not displayed, and is in no final tag |
| ClassifySession.Session | nxrmcmui/src/dlgclassify2.cpp:68-298 | on the objects, from initial tags over display and any events to OK: a run from a fresh expansion of the narrowed labels; on a tree-shaped graph it stays in sync if and only if every combo event in it fits; OK succeeds exactly if every displayed mandatory label has a selection; then the final tags are the displayed labels' tags and the unmatched initial tags, nothing displayed is downgraded, and the matched tags lost are exactly those of labels not displayed |
| LabelXml.IntRoundTrip | nudf/v1/inc/nudf/string.hpp:318-328 | an int written in decimal reads back as itself |
| LabelXml.ToIntIff | nudf/v1/inc/nudf/string.hpp:318-328 | a text is read as an int exactly if it is an optional sign and at least one digit, and then as the int they write, leading zeros or not |
| LabelXml.AttributesMeaning | nxrmcmui/src/labelinfo.cpp:55-79 | mandatory unless told false, single unless told true, default 0 unless given a number |
| LabelXml.FindChildIsFirst | nxrmcmui/src/labelinfo.cpp:280-289 | the child element found is the first of the name, whatever nodes stand before it, and none is found only if there is none |
| LabelXml.ParsedValues | nxrmcmui/src/labelinfo.cpp:97-125 | the values loaded are those of the VALUE elements with a value attribute, in document order; any other child is passed over |
| LabelXml.LoadsIff | nxrmcmui/src/labelinfo.cpp:47-296 | a label loads exactly if it has both names and some value that loads; a value exactly if it has its attribute, whatever becomes of its first LABEL element, which gives its sub-label |
| LabelXml.LabelRoundTrip | nxrmcmui/src/labelinfo.cpp:211-250 | printing then loading a label tree gives back the same tree |
| LabelXml.ValueRoundTrip | nxrmcmui/src/labelinfo.cpp:268-333 | the same for a value and its sub-label |
| LabelXml.ParsedWellFormed | nxrmcmui/src/labelinfo.cpp:84-132 | every tree Load accepts has a value at every label |
| LabelXml.RoundTripIff | nxrmcmui/src/labelinfo.cpp:47-250 | printing then loading gives back the same tree exactly if every label has a value |
| LabelXml.LoadPrintLoad | nxrmcmui/src/labelinfo.cpp:47-250 | load, print, load equals load |
| Labels.Label.Load | nxrmcmui/src/labelinfo.cpp:47-132 | succeeds exactly if the element parses; the new objects form its tree, with parent links and default selections |
| Labels.Label.LoadValues | nxrmcmui/src/labelinfo.cpp:97-125 | the loop over child nodes pushes exactly the values that load |
| Labels.Label.LoadValue | nxrmcmui/src/labelinfo.cpp:268-296 | a value and, if it loads, its sub-label, which points back to the label |
| Labels.Label.ToXmlObject | nxrmcmui/src/labelinfo.cpp:211-250 | the element printed is that of the label's tree |
| Labels.Label.ValueToXmlObject | nxrmcmui/src/labelinfo.cpp:298-333 | the element printed is that of the value |
| Labels.Label.GetValue | nxrmcmui/src/labelinfo.cpp:134-140 | the value at an id that is not negative, none past the end |
| Labels.Label.SelectValue | nxrmcmui/src/labelinfo.cpp:157-170 | of a multiple selection with a mask that is not negative sets exactly the one bit, of a single one replaces the index, whatever it was; past the end nothing changes |
| Labels.Label.UnselectValue | nxrmcmui/src/labelinfo.cpp:172-181 | of a multiple selection with a mask that is not negative clears exactly the one bit; a single selection does not change, nor anything past the end |
| Labels.Label.MultiSelected | nxrmcmui/src/labelinfo.cpp:186-195 | appends one tag for each selected value of a multiple selection, in value order, of the label's name and the value's text |
| Labels.Label.GetClassificationTags | nxrmcmui/src/labelinfo.cpp:183-209 | the walk terminates and appends the tags of the path the selections lead along, label after label, which a single selection past its values ends |
| Labels.MultiTagsListed | nxrmcmui/src/labelinfo.cpp:188-195 | a multiple selection gives one tag for each selected value, in value order, of the label's name and the value's text |
| Labels.WalkListed | nxrmcmui/src/labelinfo.cpp:183-209 | the tags are those of the path the selections lead along: one for each label but the last, in path order, of its name and its selected value's text, then those of the last |
| Labels.Reload | nxrmcmui/src/labelinfo.cpp:47-250 | over objects: a printed and reloaded label is a separate tree with parent links rebuilt and selections reset to default, equal to the original exactly if every label has a value |
| Labels.DefaultsInRange | nxrmcmui/src/labelinfo.cpp:73-76 | labels at their defaults select existing values if the defaults name existing values |
| Wizard.Open | nxrmcmui/src/dlgclassify.cpp:45-77 | opens exactly if the root is a label that loads, whatever its defaults; the wizard then stands at the root of the tree loaded, on a path with selections in range if the defaults name existing values |
| Wizard.TagsCoverPath | nxrmcmui/src/labelinfo.cpp:183-209 | at the end of the selected path the tags of the whole tree are those of the path's labels and no others |
| Wizard.PathTagsListed | nxrmcmui/src/labelinfo.cpp:183-209 | at the end of the path its tags are, in path order, each label's name with its selected value's text, then those of the last label |
| Wizard.CoveredIffPasses | nxrmcmui/src/dlgclassify.cpp:213-227 | with every strict ancestor past the mandatory check, every mandatory label contributes exactly if the last label passes it too |
| Wizard.PassedContributes | nxrmcmui/src/dlgclassify.cpp:213-227 | a mandatory label that passes the check contributes one value that is not empty, or at least one value if multiple |
| Wizard.ParentOnPath | nxrmcmui/src/dlgclassify.cpp:240-247 | the parent of a label on the path is the label before it |
| Wizard.Dialog.SetPage | nxrmcmui/src/dlgclassify.cpp:263-318 | shows Next, hides OK, shows Back exactly below the root, and ticks the check boxes of a multiple selection as its bits say |
| Wizard.Dialog.ShowSummary | nxrmcmui/src/dlgclassify.cpp:320-354 | the rows shown cover exactly the path, and every mandatory label on it contributes |
| Wizard.Dialog.SummaryListed | nxrmcmui/src/dlgclassify.cpp:320-354 | whenever the summary is shown its rows are exactly those |
| Wizard.Dialog.CheckPage | nxrmcmui/src/dlgclassify.cpp:213-232 | the mandatory check and the sub-label the page leads to |
| Wizard.Dialog.OnBtnClickNext | nxrmcmui/src/dlgclassify.cpp:213-238 | stays if the check fails, extends the path by the selected sub-label, or shows the summary with exactly the path's tags |
| Wizard.Dialog.OnBtnClickBack | nxrmcmui/src/dlgclassify.cpp:240-247 | leaves the summary or goes to the parent, which is never null |
| Wizard.Dialog.OnComboBoxSelChanged | nxrmcmui/src/dlgclassify.cpp:249-256 | selects, and shows Next or OK by whether the value has a sub-label; the path stays |
| Wizard.Dialog.OnToggle | nxrmcmui/src/dlgclassify.cpp:156-186 | the box clicked is read as shown, and the value's bit flips and no other; the boxes then show the new selection |
| Wizard.Dialog.OnOk | nxrmcmui/src/dlgclassify.cpp:249-261 | the tags are, in path order, each label's name with its selected value's text, then those of the last label; on the summary every mandatory label contributes, otherwise exactly if the last label passes |
| Wizard.Dialog.NextThenBack | nxrmcmui/src/dlgclassify.cpp:213-247 | Back undoes Next |
| Wizard.Dialog.Run | nxrmcmui/src/dlgclassify.cpp:156-354 | over any run of clicks on visible controls the current label is on the selected path, every strict ancestor has passed the mandatory check, and a summary shown holds exactly the path's tags with every mandatory label covered |
| Wizard.EarlyOk | nxrmcmui/src/dlgclassify.cpp:249-256 | a document and one combo box choice after which OK is shown on a page that fails the mandatory check |
| Wizard.EarlyTags | nxrmcmui/src/dlgclassify.cpp:249-261 | OK then gives the path's tags with a mandatory label uncovered |
| TagBuffer.PairToBuffer | nxrmconv/src/nxrmconv.cpp:304-322 | the buffer is the kept pairs' items, each with its NUL, and one more NUL if there are any |
| TagBuffer.KeptExactly | nxrmconv/src/nxrmconv.cpp:306-309 | exactly the pairs with both parts filled are kept, in their order |
| TagBuffer.EncodedMeaning | nxrmconv/src/nxrmconv.cpp:304-322 | nothing is written if no pair has both parts; otherwise the items name=value of those that have, each with its NUL, and one more NUL |
| TagBuffer.CountWords | nxrmcmui/src/commonui.cpp:207-214 | the first pass computes exactly the length the second needs |
| TagBuffer.SizeThenFill | nxrmcmui/src/commonui.cpp:204-232 | every copy stays inside the buffer, which ends up as all items and one final zero |
| TagBuffer.EncodersAgreeIff | nxrmcmui/src/commonui.cpp:204-232 | on a list that is not empty the two encoders agree exactly if every pair has both parts |
| TagBuffer.StaysInsideIff | nxrmconv/src/nxrmconv.cpp:502-505 | the scan stays inside a buffer exactly if an empty item is in it |
| TagBuffer.SectionStaysInsideIff | nxrmconv/src/nxrmconv.cpp:492-505 | for a section of any content: always with an even number of bytes, else exactly if the last byte is 0 or an empty item comes first |
| TagBuffer.OddSectionLeaves | nxrmconv/src/nxrmconv.cpp:492-505 | a section of one byte, not 0, which is read as a little-endian word and whose scan leaves the buffer |
| TagBuffer.ReadTag | nxrmconv/src/nxrmconv.cpp:502-515 | the loop terminates inside the buffer and appends one pair for each item with an equals sign, in order, both parts trimmed |
| TagBuffer.DecodedMeaning | nxrmconv/src/nxrmconv.cpp:502-515 | whatever the buffer holds: it is cut into its items up to the first empty one; each item with an equals sign gives one pair, in order, split at its first one with both parts trimmed, and no other item gives any |
| TagBuffer.TrimMeaning | nxrmconv/src/nxrmconv.cpp:510-513 | trimming removes the spaces at both ends and nothing else |
| TagBuffer.TrimIff | nxrmconv/src/nxrmconv.cpp:510-513 | trimming changes nothing exactly if there is no space at either end |
| TagBuffer.DecodedNoZero | nxrmconv/src/nxrmconv.cpp:502-515 | nothing decoded holds a NUL |
| TagBuffer.RoundTripIff | nxrmconv/src/nxrmconv.cpp:304-515 | encode, store, read back, decode: exactly the pairs with both parts filled, in order, if and only if each is clean |
| ObligationCache.Cache.Insert | nxrmeng/inc/policyserv.hpp:85-93 | the cache is exactly the last 256 insertions since the last clear, or all of them, newest first |
| ObligationCache.Cache.Find | nxrmeng/inc/policyserv.hpp:95-108 | finds the most recent of those with the id, and fails only if none of them has it |
| ObligationCache.Cache.Clear | nxrmeng/inc/policyserv.hpp:110-115 | forgets every insertion |
| DialogUnits.ComesBackIff | nxrmcmui/src/dlgunit.cpp:19-33 | units whose pixels fit an int survive the way there and back exactly if the base is at least 4 horizontally, 8 vertically |
| DialogUnits.ThereAndBack | nxrmcmui/src/dlgunit.cpp:19-33 | rounding to pixels and back is the identity when the base is at least the scale |
| DialogUnits.MulDivIff | nxrmcmui/src/dlgunit.cpp:19-33 | MulDiv is the nearest integer, of two equally near ones the one further from 0, or -1 if it does not fit an int or the divisor is 0 |
| DialogUnits.DlgUnit.SetSamePixels | nxrmcmui/src/dlgunit.cpp:19-33 | setting the pixels that units gave restores the units |

## Left out

- TransportInvariant.HandlerInv: requires the engine's answer to fit a record; `TransportExact.SafeIffBoundsFit` shows the requirement is exact.
- TransportInvariant.StepInv: requires requests and answers to fit a record, for the same reason.
- TransportSafety.TransportSafe: requires requests and answers to fit a record; with longer ones it is false (`TransportBound.TakenTwice`, `TransportBound.PublishedCut`).
- TransportSafety.AbandonedForEver: requires requests and answers to fit a record; a longer answer frees an abandoned slot.
- TransportReturns.StepTraced: requires requests and answers to fit a record, because of those slots.
- TransportReturns.ReturnsTell: requires the same.
- TransportCalls.SilenceHasCause: requires requests and answers to fit a record, without which a record awaited may be freed.
- TransportLoss.DroppedIff: starts from a state that meets the invariant, which longer requests and answers break.
- TransportLoss.OnlyDisownedDropped: requires requests and answers to fit a record; a longer answer frees a slot in use, so a dropped request may be another client's.
- TransportLoss.DroppedForGood: requires requests and answers to fit a record, for the same reason.
- Transport.SlotNext: the engine's handler is given the record's length and may read past the data of an overlong request; the model's handler stops at the data's end.
- TransportLoss.RequestLost: is one run; which steps of a run lose a request is `TransportLoss.OnlyDisownedDropped`.
- The section's other header fields, the reserved and checksum bytes of a record, semaphores and sleeping: they decide no branch modelled here.
- Weak-memory effects, and the driver's cleanup of records of dead processes and of a closing server (nxrmdrv/src/nxrmdrv/nxrmdrv.c:587-640, 1335-1443).
- More than one engine worker, which the repository does not start.
- ClassifyData.Item.GetFirstSelectedValue: for a single selection without a selected value the source indexes out of range; its callers ask IsSelected first, and so does the contract.
- ListSync.ComboInSyncIff: says nothing where a label the event changes is also displayed outside the changed row's own expansion, which a tree-shaped graph excludes; the handler does not look at such rows.
- ClassifyList.ListCtrl.CreateRow: which text the combo box shows at first is not modelled, nor a failing control creation, after which the source adds no row.
- ClassifyList.ListCtrl.InsertItem: the path on which control creation fails after the list box string is inserted, which leaves the list box one string ahead of the rows, is not modelled.
- TagBuffer.ReadTag: requires a buffer its scan stays inside, because the source does not check; `TagBuffer.SectionStaysInsideIff` says for which sections it does.
- Labels.Label.GetValue: a negative id, which the source would use as an index, is not modelled; no caller passes one.
- Labels.Label.SelectValue: for a multiple selection a negative index (a negative shift), a negative mask and a 32nd value (the sign bit) are not modelled.
- Labels.Label.UnselectValue: the same for clearing a bit.
- Labels.Label.MultiSelected: a negative mask and more than 31 values are not modelled.
- Labels.Label.GetClassificationTags: negative selections are not modelled, nor multiple ones with more than 31 values.
- Wizard.Dialog.SetPage: multiple labels with more than 31 values, or with a mask that sets other bits, are not modelled; the source shows them.
- Wizard.Dialog.Placed: pages of labels whose selection names no value are not modelled; the source dereferences the missing value there.
- LabelXml.IntRoundTrip: texts of integers outside 32 bits are not modelled.
- Window creation, fonts, icons, positioning and message pumps; user events are calls guarded by what is visible.
- COM and file access: an element tree stands for the XML document, and the loading of the label list from XML or JSON is not modelled.
- The rights page, the engine's API guards, attribute expansion, logging and watermark settings, which would only add easy members.
- The path ReadTag takes to find its section in a file; the model starts from the section's bytes.
