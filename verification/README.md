# Verified models of the terminal application's core algorithms and protocols

The application is a terminal UI over a set of agents. Most of it draws or wires things together.
This project models the parts that decide something by themselves, and proves what they keep over
every input, every run and every interleaving. Inputs from outside (file contents, sizes, the clock,
the network, the recorder's answers, the scheduler's choices) are parameters or arbitrary steps.

Check it with `dafny verify dfyconfig.toml`.

| file | what it models |
|---|---|
| `Common.dfy` | shared definitions |
| `Lines.dfy`, `Positions.dfy` | byte strings, their lines, and line-and-column positions in them |
| `LspEdits.dfy` | splicing a language server's text edits into a file, on lines and on the flat text |
| `LspTies.dfy` | edits that meet at one place |
| `LspMeaning.dfy` | what the protocol means by a list of edits, and splicing it from the last to the first |
| `LspOutcomes.dfy`, `LspAgreement.dfy` | all edits of a file, for every outcome of the sort: what suffices for the protocol's text, and what it takes |
| `LspApply.dfy` | inputs on which the result differs, and the operation |
| `SymbolOutline.dfy` | flattening a document's symbol forest |
| `PaneTree.dfy`, `EditorPanes.dfy` | the split tree of panes, and the pane and tab operations on it |
| `Dialogs.dfy` | the approval, decision and plan dialogs and their queues |
| `Phase4Tasks.dfy`, `Phase4Invariant.dfy`, `Phase4Runs.dfy`, `Phase4Trace.dfy`, `Phase4Progress.dfy`, `Phase4Panics.dfy` | the concurrent background tasks of the last boot phase |
| `Quota.dfy` | the resource quota derived from the agents' specifications |
| `ScribeRegistry.dfy` | the index of live scribes across identity handoffs |
| `WarmPool.dfy`, `WarmPoolRuns.dfy` | the concurrent pool of providers, and what its calls return, seen from the steps alone |
| `EscFilter.dfy` | telling a lone Esc from an Alt chord |
| `TokenWrap.dfy`, `ApprovalLayout.dfy` | wrapping and laying out dialog options, and clicking on them |
| `TraceDepths.dfy` | nesting depths of traced tool calls |
| `LogSink.dfy` | the line sink behind the standard logger |
| `MemoryProjection.dfy` | projecting consultations into memory entries, and recording each once |

## Where the code and its promises differ

The models follow the code. In these places a promised property does not hold as stated. Each has a
concrete counterexample and the exact condition under which the property does hold.

- Text edits past the last line: an edit that ends there keeps its column, and one that starts there is
  dropped with its text (`LspEdits.EndPastLastLineDiverges`). `LspEdits.SpliceIsMeantExactlyWhen` says
  exactly when a single splice replaces the range it names, and `LspAgreement.EndPastLastLineExact`
  when a whole set with one such edit at its end comes out right.
- Text edits with one start: the sort is not stable, so inserts at one position may come out in either
  order, and a replacement may eat an insert with its own start
  (`LspApply.InsertBeforeReplacementDiverges`). Ties are harmless if inserts at one position commute
  and each replacement absorbs the inserts with its start; `LspTies.InsertThenReplaceExact` spells the
  second condition out for the plain case.
- Text edits that end past the end of a line: the protocol takes such a column for the end of the line,
  the code clamps it against the line as already edited, and so takes away text that a later edit has
  put there (`LspApply.OverlongEndDiverges`). Ends are harmless if, wherever one reaches past its line,
  the new text behind it is empty or begins with a line break; `LspAgreement.OverhangExact` says so for
  a replacement and an insert.
- All of a file's edits together: with harmless ends and ties every outcome of the sort is right; if
  every outcome is right, ends are harmless and inserts at one position commute; and unless an end
  reaches past its line into a tie of inserts and a replacement, harmless ends and ties are exactly
  what it takes (`LspAgreement.ReverseSplicingExact`). In that one case two harms can cancel
  (`LspApply.HarmsCancel`). Without ties, every outcome is right exactly if ends are harmless
  (`LspAgreement.DistinctStartsExact`).
- Text edits that start past the end of a line: these columns too are clamped against the line as already
  edited (`LspApply.OverlongStartsDiverge`). The results above allow one such start on a line;
  `LspTies.PastEndExact` and `LspTies.PastEndPairExact` say exactly when several inserts past the end
  of one line come out right. Of an insert at the end and one past it, the protocol puts first the one
  that is listed first, the code the one at the end (`LspTies.ListedFarFirstExact`).
- Closing panes: closing the last editor beside a preview leaves no editor focused
  (`EditorPanes.LastEditorLosesFocus`).
  `EditorPanes.Panes.ClosePaneForce` and `ClosePane` say exactly when.
- Plan approvals: a plan that queued behind a command approval or a layer decision stays queued when
  that is resolved, and a later plan is shown before it (`Dialogs.PlanOvertaken`).
  `Dialogs.PlansFifoExact` says exactly when plans are shown in order of arrival.
- Boot phase 4: both counters can return to zero while tasks are still being scheduled, and then a
  channel is closed twice, which is a run-time panic (`Phase4Panics.EarlyCancelClosesTwice`,
  `Phase4Panics.DoubleClose`). `Phase4Runs.CloseLawEveryRun` gives the exact number of closes.
- Quota: the comments assume that any number of agents may restart together, and, a few lines further
  on, that at most one does. The two context limits cover one
  (`Quota.TwoRestartsOutgrowTheWindow`); `Quota.CoversEveryWindowExactlyWhen` says exactly when they
  cover all.
- Trace depths: a cyclic parent relation makes the recursion run for ever
  (`TraceDepths.OwnParentNeverReturns`). `TraceDepths.ResolutionReturnsExactlyWhen` and
  `TraceDepths.AcyclicExactlyWhen` say exactly when it returns, by conditions that can be tried first.
- Scribe registry: ids are read outside the registry's lock, so a start that overlaps an id change of
  the same scribe leaves a stale key (`ScribeRegistry.OverlapLeavesStaleKey`).
  `ScribeRegistry.CommitExact` says exactly which critical sections keep the index right, and
  `ScribeRegistry.TurnsKeepKeys` that taking turns per scribe is enough.

## Model

| member | source | states |
|---|---|---|
| `Lines.SplitThenJoin` | ui/app_lsp.go:569-585 | Splitting a file at line breaks and joining it again gives the same bytes, and no line holds a line break. |
| `LspEdits.SpliceText` | ui/app_lsp.go:588-613 | On the flat text, one splice of the line array replaces exactly the byte range between the two clamped positions, whatever line breaks the new text holds. |
| `LspEdits.SpliceIsMeantExactlyWhen` | ui/app_lsp.go:588-624 | One splice does what its range means in the protocol if and only if it does not start past the last line with a text to lose, and does not end past the last line with a column short of that line's end. |
| `LspEdits.OffsetIsWalk` | ui/app_lsp.go:588-624 | The offset of a clamped position is a walk over the flat text: so many line breaks, then so many bytes, but not past the line. |
| `LspEdits.ApplyAllIsPutAll` | ui/app_lsp.go:574-613 | Splicing any edits whatever into the line array, one after another, does to the joined text what the same splices without lines do. |
| `LspEdits.EndPastLastLineDiverges` | ui/app_lsp.go:596-600 | An edit over a whole one-line text that ends at the start of the next line replaces nothing. |
| `LspTies.TieExact` | ui/app_lsp.go:588-613 | Inserts spliced before a replacement with the same start, whatever line breaks any of them hold: the result is that of the good order if and only if the replacement's text, followed by what its range leaves of the inserted and the replaced text, is the inserted text followed by the replacement's. |
| `LspTies.InsertThenReplaceExact` | ui/app_lsp.go:588-613 | The same for one insert without line break and a replacement within its line, where the range leaves as much as was inserted. |
| `LspTies.PastEndExact` | ui/app_lsp.go:596-624 | Any number of inserts at or past the end of one line give the protocol's text if and only if their texts, each set in where its column reaches, make up their concatenation. |
| `LspTies.PastEndPairExact` | ui/app_lsp.go:596-624 | For two of them: if and only if the farther text, cut where the nearer column reaches, does not notice the nearer text set into it. |
| `LspTies.ListedFarFirstExact` | ui/app_lsp.go:574-624 | Of an insert at the end of a line and one past it, listed the other way round, the result is the text in the listed order if and only if the two texts commute. |
| `LspMeaning.GoodOrder` | ui/app_lsp.go:574-613 | Splicing non-overlapping edits from the last to the first never leaves more bytes than the protocol's text, and as many exactly if no end that reaches past its line takes away new text; then it is that text. |
| `LspOutcomes.PermCat` | ui/app_lsp.go:574-582 | The same inserts in two orders give as many bytes, and the same bytes if their texts commute. |
| `LspOutcomes.HarmlessMeans` | ui/app_lsp.go:574-613 | With harmless ends and ties every outcome of the unstable sort gives the protocol's text. |
| `LspAgreement.Bites` | ui/app_lsp.go:588-624 | With any text behind them, edits leave their own protocol's text and all of that text, but for what ends that reach into it take away from its front. |
| `LspAgreement.InsertsForced` | ui/app_lsp.go:574-582 | If every outcome gives the protocol's text, the inserts of a tie make up one text in every order. |
| `LspAgreement.AgreementAbsorbs` | ui/app_lsp.go:574-613 | If every outcome gives the protocol's text, a replacement that no end reaches absorbs any inserts with its start. |
| `LspAgreement.AgreementHarmless` | ui/app_lsp.go:574-613 | If every outcome gives the protocol's text, ends are harmless and inserts at one position commute; and ties are harmless unless an end reaches past its line into one. |
| `LspAgreement.ReverseSplicingExact` | ui/app_lsp.go:563-586 | For every document and every set of edits without overlap on lines that exist, ties among inserts and a replacement and columns past the end of a line included: harmless ends and ties make every outcome of the sort right, and if every outcome is right, ends are harmless and inserts commute; unless an end reaches past its line into a tie, it is an if and only if. |
| `LspAgreement.Listing` | ui/app_lsp.go:563-586 | Every set of edits without overlap can be listed in document order. |
| `LspAgreement.DistinctStartsExact` | ui/app_lsp.go:563-586 | With distinct starts, every outcome of the sort gives the protocol's text if and only if ends are harmless. |
| `LspAgreement.OverhangExact` | ui/app_lsp.go:596-624 | A replacement that ends past its line and an insert at the end of that line come out right if and only if the inserted text is empty or begins with a line break. |
| `LspAgreement.EndPastLastLineExact` | ui/app_lsp.go:574-613 | A set with one edit that ends past the last line and starts after all others comes out right in every outcome if and only if the column of that end reaches the end of the last line. |
| `LspApply.OverlongEndDiverges` | ui/app_lsp.go:596-624 | A replacement that ends past its line takes away an insert at the end of the line, though starts differ and ranges do not overlap. |
| `LspApply.OverlongStartsDiverge` | ui/app_lsp.go:596-624 | Two inserts past the end of a line, at different columns, come out in the wrong order. |
| `LspApply.InsertBeforeReplacementDiverges` | ui/app_lsp.go:574-582 | An insert and a replacement with one start: one outcome of the sort loses inserted text. |
| `LspApply.HarmsCancel` | ui/app_lsp.go:574-613 | A set whose outcomes are all right although a tie in it is not harmless, because an end that reaches into the tie takes away what it leaves over. |
| `LspApply.SortEdits` | ui/app_lsp.go:574-581 | A permutation of the edits with descending starts. |
| `LspApply.ApplyEdits` | ui/app_lsp.go:563-586 | The bytes written are those of some outcome of the sort, and with harmless ends and ties they are the protocol's text, whatever order the edits were given in. |
| `SymbolOutline.FlattenSymbols` | ui/app_lsp.go:459-473 | The recursive append loop produces the preorder of the forest with depths. |
| `SymbolOutline.FlattenThenRebuild` | ui/app_lsp.go:459-473 | The forest can be rebuilt exactly from its rows, whatever shallower rows follow. |
| `SymbolOutline.FlattenIsGentle` | ui/app_lsp.go:459-473 | From one row to the next the depth rises by at most one, and no row lies above the starting depth. |
| `SymbolOutline.RebuildThenFlatten` | ui/app_lsp.go:459-473 | Every list whose depth rises gently is read back as a forest whose rows it is. |
| `SymbolOutline.OutlinesExactly` | ui/app_lsp.go:459-473 | The lists that flattening can produce are exactly the gentle ones that start at depth zero, each from one forest only. |
| `PaneTree.SplitLeaves` | ui/pane/tree.go:136-172 | A split succeeds exactly on a leaf, and puts the new leaf right behind the first such leaf in spatial order, moving no other. |
| `PaneTree.CloseLeaves` | ui/pane/tree.go:109-218 | Closing succeeds exactly on a leaf that is not the root, removes that one leaf, keeps the order of the others and focuses one that remains. |
| `PaneTree.SplitThenClose` | ui/pane/tree.go:136-218 | Closing the pane a split just made gives back the same tree and the focus to the pane that was split. |
| `PaneTree.InsertThenClose` | ui/pane/tree.go:177-218 | Dismissing the pane inserted at the left edge gives back the same tree. |
| `PaneTree.SplitWhere` | ui/pane/tree.go:155-172 | A split puts a fork of old and new leaf, in the given direction, exactly where the leaf was. |
| `PaneTree.CloseWhere` | ui/pane/tree.go:192-218 | Closing puts the leaf's sibling exactly where their parent was, and focuses the sibling's first leaf. |
| `PaneTree.InsertWhere` | ui/pane/tree.go:177-185 | The inserted leaf is the left half of the whole, in the given direction, beside the old tree unchanged. |
| `PaneTree.GraftOnly` | ui/pane/tree.go:136-218 | Such a change at one place alters no other subtree and no direction above it. |
| `EditorPanes.PreviewInserted` | ui/app_editor_mouse.go:39-84 | Opening a preview keeps the panes coherent: leaves are exactly editors and live previews, ids distinct and handed out by the counter, no pane lists a path twice. |
| `EditorPanes.PreviewClosed` | ui/app_editor_mouse.go:87-121 | The preview's leaf can always be closed while an editor exists, and the panes stay coherent. |
| `EditorPanes.MarkdownInserted` | ui/app_editor_mouse.go:124-162 | The same for opening the markdown preview beside an editor. |
| `EditorPanes.MarkdownClosed` | ui/app_editor_mouse.go:165-180 | The same for dismissing it. |
| `EditorPanes.EditorInserted` | ui/app_editor_mouse.go:223-250 | The same for splitting an editor pane. |
| `EditorPanes.EditorClosed` | ui/app_editor_mouse.go:305-333 | An editor pane can be closed exactly if it is not the whole tree, and the panes stay coherent. |
| `EditorPanes.MovedPaths` | ui/app_editor_mouse.go:447-499 | Moving a tab between panes loses and adds no path. |
| `EditorPanes.Panes.constructor` | ui/app_bootstrap.go:165-175 | The initial state is valid. |
| `EditorPanes.Panes.FilePreview` | ui/app_editor_mouse.go:39-84 | Opening a preview keeps validity, opens at most one preview leaf, with a fresh id. |
| `EditorPanes.Panes.DismissPreview` | ui/app_editor_mouse.go:87-121 | Afterwards there is no preview and its leaf is gone; the focus goes to the last active editor unless another editor already has it. |
| `EditorPanes.Panes.OpenMarkdown` | ui/app_editor_mouse.go:124-162 | Opens at most one markdown leaf beside the focused editor; if it does not fit, the id is taken back and nothing changes. |
| `EditorPanes.Panes.DismissMarkdown` | ui/app_editor_mouse.go:165-180 | Afterwards there is no markdown preview and its leaf is gone; the focus moves to the editor exactly if it was on the preview. |
| `EditorPanes.Panes.SplitPane` | ui/app_editor_mouse.go:223-250 | Adds one empty editor with a fresh id, or leaves tree, editors and counter as they were. |
| `EditorPanes.Panes.ClosePaneForce` | ui/app_editor_mouse.go:305-333 | The tree and the editors lose exactly the closed pane; an editor stays focused if and only if it was not the only one beside a preview. |
| `EditorPanes.Panes.ClosePane` | ui/app_editor_mouse.go:255-302 | Unsaved changes only raise the prompt, the last editor beside a markdown preview is emptied, any other is removed from tree and editors; and exactly when the focus is lost. |
| `EditorPanes.Panes.AnswerPrompt` | ui/app_editor_mouse.go:1122-1151 | The prompt is cleared; yes and no remove exactly the remembered pane, or, if none is remembered, exactly the tab of the shown file together with that file; Esc changes nothing; and exactly when the focus is lost. |
| `EditorPanes.Panes.AppendTabToPane` | ui/app_editor_mouse.go:447-460 | Adds a tab once, to an editor pane only. |
| `EditorPanes.Panes.MoveTab` | ui/app_editor_mouse.go:479-499 | No path is lost or gained, the target has the tab once, at its end if it is new, and the focus; the source pane loses exactly that tab, survives exactly if it had others, and if it showed that file goes over to the next tab or else the one before; no other pane changes. |
| `EditorPanes.Panes.ReconcileSource` | ui/app_editor_mouse.go:519-544 | An emptied source pane is closed, one that showed the moved file goes over to the neighbouring tab, with that file's unsaved changes if it was cached, every other pane is untouched, no open path changes. |
| `EditorPanes.Panes.MovePreviewToPane` | ui/app_editor_mouse.go:502-516 | The previewed file becomes a tab of the target exactly once, the preview is gone, the target is focused. |
| `EditorPanes.Panes.Reorder` | ui/app_editor_mouse.go:607-625 | Dragging swaps exactly the two tabs; the set of open paths and every other pane stay the same. |
| `EditorPanes.Panes.CloseCurrentTab` | ui/app_editor_mouse.go:1454-1496 | The focused pane loses exactly the tab of the file it shows, or only a prompt is raised; the file is cleared exactly if discarded or no tab is left; no other pane changes; closing the last tab beside a preview focuses the preview. |
| `EditorPanes.Panes.CloseTab` | ui/app_editor_mouse.go:1498-1526 | An index out of range does nothing, the active tab is closed as the current one, any other tab goes exactly if it has no unsaved changes, and then the shown file and its tab stay. |
| `EditorPanes.ActiveTabIndex` | ui/app_editor_mouse.go:570-578 | The tab of the shown file, or the first one if it has none. |
| `EditorPanes.RemoveTab` | ui/app_editor_mouse.go:436-444 | The search loop removes exactly the first occurrence of a path. |
| `EditorPanes.Panes.Run` | ui/app_editor_mouse.go:39-544 | Over every run of the operations on previews, panes and tabs above, with files, focus and modes changing freely, the panes stay coherent, no pane id is ever used again, and an editor stays focused unless no editor is left. |
| `EditorPanes.LastEditorLosesFocus` | ui/app_editor_mouse.go:305-333 | A preview and one close lead to a state in which no editor is focused. |
| `Dialogs.Dialogs.HandleCommandApprovalRequest` | ui/app_editor_mouse.go:1154-1173 | The two optional dialogs and two queues step as one shared slot does; never two dialogs at once, nobody waits for an idle slot. |
| `Dialogs.Dialogs.ResolveCommandApproval` | ui/app_editor_mouse.go:1175-1220 | The same for resolving a command approval. |
| `Dialogs.Dialogs.HandleLayerDecisionRequest` | ui/app_editor_mouse.go:1315-1333 | The same for a layer decision's arrival. |
| `Dialogs.Dialogs.ResolveLayerDecision` | ui/app_editor_mouse.go:1335-1380 | The same for its resolution. |
| `Dialogs.Dialogs.HandlePlanApprovalRequest` | ui/app_plan_approval.go:26-54 | A plan is shown if no dialog of any kind is, and queued otherwise. |
| `Dialogs.Dialogs.ResolvePlanApproval` | ui/app_plan_approval.go:56-79 | The next queued plan is shown with the same return focus, or the focus is restored. |
| `Dialogs.Dialogs.HandleSessionSwitched` | ui/app_runtime.go:460-465 | All dialogs and queues are dropped. |
| `Dialogs.SharedSlotIsFifo` | ui/app_editor_mouse.go:1154-1380 | Over every run and for both kinds, answered, active and queued requests in that order are the requests in order of arrival; an idle slot has empty queues. |
| `Dialogs.DrainExact` | ui/app_editor_mouse.go:1175-1380 | Without new requests the slot is idle after exactly as many answers as requests are outstanding, and not before. |
| `Dialogs.NextIsShown` | ui/app_editor_mouse.go:1175-1380 | Over every run, after an answer the oldest open request of the same kind is shown, of the other kind only if there is none, none only if there is neither; and what is shown has the focus on the input panel. |
| `Dialogs.ArrivalIsShown` | ui/app_editor_mouse.go:1154-1333 | A request that finds the slot idle is shown at once with the focus on the input panel; one that finds it busy changes neither dialog nor focus. |
| `Dialogs.PeriodKeepsFocus` | ui/app_editor_mouse.go:1162-1219 | Through a busy period of any length the saved focus stays the one from its beginning. |
| `Dialogs.PeriodEndRestoresFocus` | ui/app_editor_mouse.go:1322-1379 | The answer that ends a busy period restores that focus, unless it is the zero focus. |
| `Dialogs.ShownIsResolvedOrActive` | ui/app_plan_approval.go:26-79 | Over every run, the plans shown are those resolved followed by the one now active. |
| `Dialogs.PlanAnswerFocus` | ui/app_plan_approval.go:56-79 | A plan shown after another takes the focus to the input panel; the answer after which none is shown gives it back to where it was before the first. |
| `Dialogs.PlansConserved` | ui/app_plan_approval.go:26-79 | Over every run, each plan that arrived is exactly one of resolved, active and queued. |
| `Dialogs.PlansFifoExact` | ui/app_plan_approval.go:26-79 | Plans are shown in order of arrival if and only if no plan arrived at an idle moment with others waiting. |
| `Dialogs.PlanOvertaken` | ui/app_plan_approval.go:36-54 | A run in which a later plan overtakes an earlier one. |
| `Phase4Invariant.StepInv` | cmd/tui.go:1953-2110 | Every atomic step of scheduler, tasks and environment, a decrement and the close it leads to being two, keeps the invariant that ties counters, channels and task states together. |
| `Phase4Runs.RunInv` | cmd/tui.go:1953-2110 | So does every interleaving. |
| `Phase4Runs.ActivationsDoneClosesOnce` | cmd/tui.go:2060-2110 | For any number of activations, any interleaving and any refusals, unless an activation is cancelled while activations are still being scheduled, `activationsDone` is closed at most once, and has been closed exactly if every activation has left. |
| `Phase4Runs.WaitingOrder` | cmd/tui.go:2081-2087 | Handoff before activations before model swap, and the gate before the knowledge boot, for every task that was not cancelled. |
| `Phase4Runs.LeavesExactlyWhen` | cmd/tui.go:2536-2624 | A running task may leave if and only if it is cancelled or what it waits for has come: the handoff supervisor's end, every activation's end, the gate, or nothing. |
| `Phase4Runs.Phase4DoneCloses` | cmd/tui.go:2493-2500 | Once all tasks have finished, `phase4Done` has been closed, and knowledge sync called for, exactly as often as the counter was raised from zero, and its once guard has started it once. |
| `Phase4Runs.SyncStartsLast` | cmd/tui.go:2493-2624 | If the counter was raised from zero once, knowledge sync starts only after every task has finished. |
| `Phase4Runs.CloseLawEveryRun` | cmd/tui.go:2487-2624 | On every run whatever, cancelled and refused tasks included, each channel's closes, and those a task is about to make, are the counter's raises from zero, less one while the counter is positive; each close of `phase4Done` leads to one call for knowledge sync, of which the first starts it and no other does. |
| `Phase4Trace.EveryRunRead` | cmd/tui.go:2487-2624 | On every run, counters, closes, raises from zero and early cancellations are those that can be counted in its steps. |
| `Phase4Trace.ClosesFromSteps` | cmd/tui.go:2493-2500 | From the steps alone: without an early cancellation `activationsDone` is closed at most once, and when all tasks have finished `phase4Done` has been closed once for each raise from zero. |
| `Phase4Panics.EarlyCancelClosesTwice` | cmd/tui.go:2073-2087 | An early cancellation can close `activationsDone` twice. |
| `Phase4Panics.DoubleClose` | cmd/tui.go:1953-1966 | Without any cancellation or refusal, `phase4Done` can be closed twice. |
| `Phase4Progress.NoDeadlock` | cmd/tui.go:542-556 | With the knowledge gate open and nothing refused, an unfinished task always leaves some task or scheduler step enabled. |
| `Phase4Progress.StepDecreases` | cmd/tui.go:2536-2624 | Every step decreases a measure. |
| `Phase4Progress.EveryRunCompletes` | cmd/tui.go:2487-2624 | Runs are bounded, and one that cannot go on, with the gate open and nothing refused, has finished every task and started knowledge sync. |
| `Quota.QuotaFromSpecs` | cmd/tui.go:3678-3740 | The loop computes totals, peaks and the number of restartable agents; agents without a specification count as containers only. |
| `Quota.OneAgentQuota` | cmd/tui.go:3666-3740 | A single agent's quota in numbers: two probes and a hook on top of its goroutines, contexts twice, and goroutines and container twice exactly under the two restarting policies. |
| `Quota.AgentAdds` | cmd/tui.go:3690-3740 | Every further agent adds what it uses to the totals, and one container, or two if it may restart. |
| `Quota.CoversEveryRestart` | cmd/tui.go:3722-3740 | Any agents running at once, with any restartable ones doubled, stay within the goroutine limit, probes and hooks included. |
| `Quota.CoversEveryContainer` | cmd/tui.go:3735-3740 | The same for the number of containers. |
| `Quota.CoversOneOverlap` | cmd/tui.go:3728-3740 | Any agents running at once, with any one doubled, stay within both context-window limits. |
| `Quota.CoversEveryWindowExactlyWhen` | cmd/tui.go:3722-3740 | Any restartable agents may be doubled within the context-request or the context-window limit if and only if their requests or windows together do not exceed the largest single one. |
| `Quota.TwoRestartsOutgrowTheWindow` | cmd/tui.go:3728-3740 | Two agents restarting together exceed the limit derived for them. |
| `ScribeRegistry.EveryRunKeepsKeys` | cmd/tui.go:5326-5370 | Over every run of starts, stops, retirements and id changes, every key leads to a scribe whose current trimmed id it is. |
| `ScribeRegistry.CommitExact` | cmd/tui.go:5326-5370 | With ids read outside the lock: a critical section keeps every key its scribe's own, or about to be taken away, if and only if that holds of the key it writes. |
| `ScribeRegistry.TurnsKeepKeys` | cmd/tui.go:5169-5246 | However calls on different scribes interleave, if no scribe has two under way at once, then whenever none is under way every key is its scribe's current one. |
| `ScribeRegistry.OverlapLeavesStaleKey` | cmd/tui.go:5169-5246 | A start that overlaps an id change of the same scribe leaves a key that is nobody's. |
| `ScribeRegistry.OneKeyEach` | cmd/tui.go:5354-5370 | A scribe is never indexed under two keys. |
| `ScribeRegistry.LookupAfterStep` | cmd/tui.go:5169-5246 | What each operation does to every lookup: the claimant answers, a leaving owner no longer does, nobody else's answer changes. |
| `ScribeRegistry.OwnerStays` | cmd/tui.go:5326-5383 | An owner that does not leave, and whose id nobody else claims, is found for the whole run. |
| `ScribeRegistry.HandoffSurvives` | cmd/tui.go:4883-4900 | After a replacement has taken an id, any stops and retirements of the old scribe or of others leave lookup of that id at the replacement. |
| `ScribeRegistry.TrimSpaceMeans` | cmd/tui.go:5330-5333 | A trimmed id is its own key, and exactly blank ids have none. |
| `ScribeRegistry.TrimSpaceCuts` | cmd/tui.go:5330-5333 | Trimming takes away exactly the spaces at both ends. |
| `ScribeRegistry.IdsAfterStep` | cmd/tui.go:5240-5246 | Only an id change alters an id, and it takes any id that is not blank as it stands. |
| `ScribeRegistry.Registry.Track` | cmd/tui.go:5326-5337 | Puts a scribe under its trimmed id; a blank id is ignored. |
| `ScribeRegistry.Registry.DeleteIf` | cmd/tui.go:5339-5352 | Removes the key only if it leads to the given scribe. |
| `ScribeRegistry.Registry.Rename` | cmd/tui.go:5354-5370 | Gives up the old key if owned and takes the new one. |
| `ScribeRegistry.Registry.Get` | cmd/tui.go:5372-5383 | Finds the indexed scribe, whose trimmed id is the one asked for, or nothing. |
| `ScribeRegistry.Registry.Start` | cmd/tui.go:5169-5178 | A scribe that started is indexed, one that failed is not. |
| `ScribeRegistry.Registry.Stop` | cmd/tui.go:5180-5204 | Takes the scribe out of the index if it still owns its id. |
| `ScribeRegistry.Registry.RetireForHandoff` | cmd/tui.go:5206-5217 | The same on retirement. |
| `ScribeRegistry.Registry.SetCanonicalID` | cmd/tui.go:5240-5246 | Changes id and index together; a blank id is refused but indexes the scribe under its own. |
| `ScribeRegistry.ReplaceAgent` | cmd/tui.go:4883-4900 | After the swap the id leads to the replacement, the pod names it, and its predecessor is under no key. |
| `WarmPool.StepInv` | cmd/provider_warm_pool.go:60-101 | Every critical section, entry to and exit from once, and return keeps the invariant. |
| `WarmPool.ConstructedOnce` | cmd/provider_warm_pool.go:60-91 | In every interleaving each entry is constructed at most once, and all calls that return from it return the same provider or error. |
| `WarmPool.NeverStale` | cmd/provider_warm_pool.go:60-101 | A call that began after an invalidation of its key never uses an entry created before it. |
| `WarmPool.OneEntryPerInvalidation` | cmd/provider_warm_pool.go:60-101 | Two entries of one key are separated by an invalidation of it. |
| `WarmPoolRuns.GetReturnsWhatWasBuilt` | cmd/provider_warm_pool.go:60-101 | Read off the steps of any interleaving: a call that has returned gives back the provider or error with which exactly one construction ended, that of a call for the same key with as many invalidations of it before its lookup. |
| `WarmPoolRuns.SharingIsOneEntry` | cmd/provider_warm_pool.go:70-77 | Two calls use one entry if and only if they ask for one key and as many invalidations of it precede their lookups. |
| `WarmPoolRuns.BuiltAfterInvalidation` | cmd/provider_warm_pool.go:60-101 | That construction belongs to a call that looked up after every invalidation before one's own lookup. |
| `WarmPoolRuns.EveryRunTraced` | cmd/provider_warm_pool.go:60-101 | On every run the pool's state is what its steps say: who asked for which key and when, how many invalidations each entry has seen, and what ended which construction. |
| `WarmPool.OutcomeSticks` | cmd/provider_warm_pool.go:77-91 | Once an entry is done, nothing changes what it holds, an error included. |
| `WarmPool.NoDeadlock` | cmd/provider_warm_pool.go:60-91 | While some call has not returned, some call can step. |
| `EscFilter.KeyConserves` | ui/app.go:2441-2488 | One key, in time or not, neither loses nor invents anything on the wire. |
| `EscFilter.EveryRunConserves` | ui/app.go:2189-2488 | Over every sequence of keys and timers, dispatched keys and the held Esc spell exactly the received keys; the current generation has exactly one timer under way while an Esc is held, and none otherwise. |
| `EscFilter.OnlyOwnTimerFlushes` | ui/app.go:2189-2196 | A delivered timer flushes exactly if it carries the current generation, and no stale one flushes a later Esc. |
| `EscFilter.QuietMeansComplete` | ui/app.go:2189-2488 | When no timer of the current generation is under way, nothing is held back and everything has arrived. |
| `EscFilter.KeyDispatch` | ui/app.go:2441-2488 | Over every run, from the events: a single unmodified rune less than 50 ms after the press of an Esc that is still held adds exactly Alt+rune; any later or other key adds exactly the Esc and that key; with no Esc held, Alt+Esc adds two Escs, Esc nothing and any other key itself. |
| `EscFilter.TimerDispatch` | ui/app.go:2189-2196 | Over every run, a timer adds an Esc if and only if it is that of the Esc still held, and nothing otherwise. |
| `EscFilter.HeldIsPending` | ui/app.go:2441-2488 | An Esc is pending exactly from its press, when none was held, to the next key or its own timer, and the time and generation kept are its own. |
| `EscFilter.Filter.HandleKey` | ui/app.go:2441-2488 | The field updates step as the machine does, and the keys dispatched are Alt+rune within 50 ms of the held Esc, and otherwise the Esc followed by the key. |
| `EscFilter.Filter.HandleTick` | ui/app.go:2189-2196 | The same for a timer message. |
| `TokenWrap.WrapTokens` | ui/app_layout_render.go:379-420 | The words in order, every line within the width or a single word, and no other such wrapping has fewer lines. |
| `TokenWrap.GreedyIsOptimal` | ui/app_layout_render.go:397-415 | The greedy rule never needs more lines than any wrapping of the same words, even one that lags behind. |
| `TokenWrap.RestWraps` | ui/app_layout_render.go:397-415 | The greedy rule's lines are a wrapping of the words. |
| `ApprovalLayout.OptionAt` | ui/app_layout_render.go:244-255 | The first hitbox covering the cell; in the layouts below that is option i exactly on the cells of a shown line of option i. |
| `ApprovalLayout.RenderOption` | ui/app_layout_render.go:317-334 | One hitbox per line of an option, as wide as the line. |
| `ApprovalLayout.PlanLayout` | ui/app_plan_approval_render.go:62-103 | The dialog shows prompt, status and options cut off at the budget wherever the cut falls, never more, and rows and hitboxes agree. |
| `ApprovalLayout.PlanRows` | ui/app_plan_approval_render.go:78-103 | What is shown, line by line: prompt, status, and each option line whose place is within the budget. |
| `ApprovalLayout.InnerLineBudget` | ui/app_plan_approval_render.go:51-57 | The budget is the height less eight, but at least one and at most five lines. |
| `ApprovalLayout.CommandLayout` | ui/app_layout_render.go:172-230 | All option lines are shown and clickable, the code gets a window of at most eight lines, and the dialog fits the body whenever prompt and options alone do. |
| `ApprovalLayout.LayoutHead` | ui/app_layout_render.go:203-220 | The recorded code range holds exactly the visible window of the code. |
| `ApprovalLayout.CodeFillsRoom` | ui/app_layout_render.go:202-209 | The code gets all the room that prompt and options leave, but for a blank line if there is more than one, up to eight lines. |
| `ApprovalLayout.OptionRowAt` | ui/app_layout_render.go:221-228 | Every line of every option is shown, after all lines of the options before it. |
| `ApprovalLayout.VisibleWindow` | ui/app_layout_render.go:232-242 | A contiguous window of the code, of the budget's size if there is that much, at a valid scroll position. |
| `TraceDepths.BuildParents` | cmd/trace.go:461-475 | The loop's map has exactly the keys of tool starts, each with the parent that its last start with a parent names. |
| `TraceDepths.DepthStep` | cmd/trace.go:476-489 | A child is one deeper than its parent, and a key without parent has depth zero. |
| `TraceDepths.ResolutionReturnsExactlyWhen` | cmd/trace.go:476-489 | The recursion returns for a key if and only if no key occurs twice on the way up from it, and if and only if it returns within as many levels as there are records. |
| `TraceDepths.AcyclicExactlyWhen` | cmd/trace.go:476-489 | The relation is acyclic, so that every key is resolved, if and only if no key is its own ancestor. |
| `TraceDepths.OwnParentNeverReturns` | cmd/trace.go:461-489 | The log in which a call is its own parent is never resolved. |
| `TraceDepths.Resolve` | cmd/trace.go:476-489 | Memoised resolution gives the length of the parent chain and keeps the memo right. |
| `TraceDepths.ComputeDepths` | cmd/trace.go:461-493 | For every acyclic log, whatever order the map is iterated in, exactly the logged keys and the parents they name get a depth, and it is their number of ancestors. |
| `LogSink.PiecesDoNotMatter` | cmd/tui_stdlog.go:55-86 | After any pieces, exactly the complete lines of their concatenation have been routed and its unfinished line is kept. |
| `LogSink.ChunkingIrrelevant` | cmd/tui_stdlog.go:55-86 | Every way of cutting a stream into writes, followed by a close, routes the lines of the batch split. |
| `LogSink.EveryLineRoutedOnce` | cmd/tui_stdlog.go:55-92 | Every way of cutting a stream into writes, followed by a close: exactly the lines that are not blank are routed, each once and in order, complete ones without the carriage returns at their end, the unfinished one trimmed. |
| `LogSink.RoutedExactly` | cmd/tui_stdlog.go:70-92 | The same for one text, before and after the close, by an increasing map from the routed lines to the lines they come from. |
| `LogSink.TrimIsStripped` | cmd/tui_stdlog.go:77 | A line without the carriage returns at its end, and the only one. |
| `LogSink.Sink.FlushLines` | cmd/tui_stdlog.go:70-86 | The loop routes all complete lines and, at the end, the trimmed rest. |
| `LogSink.Sink.Write` | cmd/tui_stdlog.go:55-61 | Reports the whole length and adds exactly the non-blank complete lines of what was kept and what came, in order; the unfinished line is kept. |
| `LogSink.Sink.Close` | cmd/tui_stdlog.go:63-68 | Adds exactly the non-blank lines that were still kept, the last one trimmed, and leaves the buffer empty. |
| `LogSink.Sink.RouteLine` | cmd/tui_stdlog.go:88-92 | A line whose trim is empty is not routed, any other is added at the end. |
| `MemoryProjection.DecimalRoundTrip` | ui/app_memory.go:673-682 | A component of a path can be read back from its decimal form, which holds digits only. |
| `MemoryProjection.PathReadsBack` | ui/app_memory.go:673-682 | A dotted name, read from left to right, gives back the path. |
| `MemoryProjection.JoinedInjective` | ui/app_memory.go:673-682 | Different paths have different dotted names. |
| `MemoryProjection.FormatMemoryPath` | ui/app_memory.go:673-682 | The loop and join produce the dotted name. |
| `MemoryProjection.ProjectCall` | ui/app_memory.go:528-551 | The nested loops produce the recursive projection of a call and advance the turn counter as it says. |
| `MemoryProjection.ProjectEntry` | ui/app_memory.go:517-526 | The same for a whole chat entry. |
| `MemoryProjection.CallsTurns` | ui/app_memory.go:528-551 | Turn numbers strictly increase through the whole projection and stay within the counter's range. |
| `MemoryProjection.CallsPlaced` | ui/app_memory.go:528-551 | All projections have different paths, each below the path of its call. |
| `MemoryProjection.EntryExact` | ui/app_memory.go:517-551 | The projections of a chat entry are exactly those of the projectable agents that descending its tree of calls and children reaches, each at its path, with its correlation id and the turn that its rank in the tree gives; the counter rises by the number of agents. |
| `MemoryProjection.EntryIdsDistinct` | ui/app_memory.go:553-582 | Within one chat entry, consultations without correlation id get pairwise different ids, in strictly increasing turns. |
| `MemoryProjection.IdDeterminesPlace` | ui/app_memory.go:568-582 | The id of a consultation without correlation id determines its chat entry and its path. |
| `MemoryProjection.OneIdExactlyWhen` | ui/app_memory.go:568-582 | Two consultations have one id if and only if they have the same correlation id, or have none and are the same, or one's correlation id spells the other's place. |
| `MemoryProjection.EntriesDoNotClash` | ui/app_memory.go:553-582 | Consultations without correlation id in different chat entries never share an id. |
| `MemoryProjection.Recorder.RecordEntry` | ui/app_memory.go:235-259 | The index is exactly the set of ids recorded, each once; a failed write leaves its id eligible. |
| `MemoryProjection.Recorder.Sync` | ui/app_memory.go:198-233 | A refresh writes the ids of the history that are new and not blank, each once, in their order, up to the first error; without an error, all of them. |
| `MemoryProjection.Recorder.Refresh` | ui/app_memory.go:198-259 | Over any number of refreshes and any pattern of failures no id is recorded twice, and a refresh without failures leaves nothing of its history missing. |

## Left out

- `EditorPanes.Panes.MoveTab`: assumes a target that is another editor pane, because the drop handler (ui/app_editor_mouse.go:3405-3423) offers no other.
- `EscFilter.Filter.HandleTick`: is only called with the generation of a timer that was started; the generation is unbounded, so the wrap-around of its 64 bits is not modelled.
- `TraceDepths.ComputeDepths`: states nothing about cyclic logs, for which the source does not return.
- `LspAgreement.ReverseSplicingExact`: is not exact where an end reaches past its line into a tie of inserts and a replacement, because harms can cancel there (`LspApply.HarmsCancel`); and does not cover several starts past the end of one line, for which `LspTies.PastEndExact` gives the exact condition on inserts.
- `LspAgreement.EndPastLastLineExact`: asks for harmless ends and ties and that no other end reaches the last edit.
- `Quota.QuotaFromSpecs`: computes with unbounded integers, so overflow of 64 bits is not modelled.
- `ScribeRegistry.Registry.SetCanonicalID`: is one call here; its two halves are steps of their own in `ScribeRegistry.TurnsKeepKeys`, where reading and writing the id is one step.
- Columns of text edits are byte offsets, as the splicing code takes them; that the protocol counts UTF-16 units, which differ outside ASCII, is not modelled.
- Positions with a negative line, which the source does not guard against; file reading and writing, permissions and the language-server transport around the edits.
- The pane tree is a value, not linked nodes updated in place, so aliasing of nodes is not captured; split ratios and sizes are not modelled, and whether a split fits is an input.
- The two kinds of diff view are one flag; editor buffers and the editor cache are reduced to a file name and whether it is modified.
- Hit-testing of tab bars while dragging: the tab under the pointer is an input.
- Timers' real delays, context deadlines and the container runtime in boot phase 4: cancellation may come at any time; the work inside a task always ends.
- Panics inside provider construction, and a pool that is nil.
- Registration of scribes with the supervisor and its bridge, and scribes without a registry.
- Display width of styled text is an input of wrapping and layout; the layouts without an active proposal, which are one empty line; the layer-decision layout, which would only add an easy member.
- What happens to a routed log line (prefix stripping, suppression, level) and which bytes `strings.TrimSpace` removes from it.
- Parent links between memory branches, the retry loop around the recorder, timestamps, confidence and salience, and the content of an entry.
- Plan hydration, publishing of verdicts, and the key and mouse handling that leads to a resolution.
- Rendering, themes, spring scrolling, cost calculation, OAuth, credential stores, the trace subcommands, the MCP command line and the skills loader.
