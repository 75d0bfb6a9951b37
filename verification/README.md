# Verified models of PresenceKit

PresenceKit connects a language-model character to phones, devices and chat channels. Around the
model calls it has ten pieces of state that must not lose, repeat or corrupt anything. This project
models each of them in Dafny, in the form its source has (functions for what computes, classes with
state-changing methods and loops for what updates), and proves what it keeps over every input, every
interleaving and every run.

| files | what is modelled | main results |
|---|---|---|
| `ControlMarkers`, `ControlMarkerStream`, `ControlMarkerGrammar` | the filter that hides a trailing `{false}` or `{true: intent}` marker while text streams in | agrees with the batch parser for every chunking; shows exactly the longest prefix all continuations share; a marker is hidden exactly where a grammar of markers says, and stays in the middle of a text |
| `ConfigTree`, `ConfigMerge`, `ConfigControl` | diff, patch and three-way merge of the nested configuration | diff and patch are inverse; no concurrent edit is lost; the path patch refines a path-free merge |
| `MobileQueue`, `MobileQueueRuns`, `MobileQueueReuse`, `MobileQueueContents` | the durable queue over two files with failing writes | no number names two items, under an exact condition; a client misses nothing silently from its first poll on |
| `SelfSpace`, `SelfSpaceStore`, `SelfSpaceRuns`, `SelfSpaceInvariants`, `SelfSpaceRecovery`, `SelfSpaceOutcomes` | the versioned file space with compare-and-set revisions, history, trash and quotas | exactly when each operation succeeds; exactly when a revision names one content; delete and restore are inverse while the item lasts; all bounds hold over every run |
| `DeviceQueue`, `DeviceQueueRuns`, `DeviceOutboxes` | the outbound queue with merging producers and one writer | every interleaving conserves what was accepted, in order |
| `WhereCompiler`, `ColumnValues`, `WhereAcceptance`, `SqlMeaning`, `SqlStatements` | the compiler from nested filters to SQL with positional parameters | the compiled filter, update and query mean what the filter says under three-valued logic, by what its values denote |
| `ReadingRanges` | covered ranges of a document and reading on | unique normal form, least uncovered offset, completion bound |
| `DocumentOverview`, `OverviewRuns`, `OverviewTexts` | checkpointed two-phase summaries | parts tile the text over every run; nothing saved is read again; the text is the last saved merge; work decreases |
| `Cleanup`, `CleanupRecovery` | the removal transaction with rollback and restore | every target is always in exactly one place; remove then restore is the identity |
| `Affect`, `AffectLaws`, `AffectTables` | the noisy-or projection of appraised events | closed form, bounds, order independence, fading; what one event and one axis come to |
| `Ingress` | bounded suppression of redelivered messages | admitted exactly when every earlier claim expired or was displaced |

`Text` and `Wrappers` hold the character classes and option types the models share.

Every source operation that changes state step by step is a method whose `ensures` gives its whole
new state as a specification function; the properties are proved about those functions. Whole runs
are recursive functions over lists of events that carry the outcome of every write, move, model call
and clock reading, so a theorem about every list of events covers every failure and interleaving.

## Where the code does less than is written about it

These are proved with a concrete input, and the exact condition is proved beside it.

- `channels/device_ws.py` (lines 37 and 100) says a merged frame never exceeds 512 bytes. The code
  bounds the frame before it absorbs the next delta, not after. `MergedFrameMayExceedLimit` gives
  1022 bytes, `MergedFrameFitsIff` says exactly when the limit is met.
- `core/character_self.py` (line 1064) accepts a move of a file onto itself with `overwrite`, and
  removes the file. `SelfMoveLosesTheFile` gives the input; `MoveKeepsBytesIff` says the bytes arrive
  exactly when the paths differ.
- `core/character_self.py` changes the file first and records the revision after (line 546), and
  ignores a failing undo of a half-done move (line 1119). Either can leave one revision with two
  contents (`FailedRecordSplitsRevision`, `FailedUndoSplitsRevision`); `RevisionNamesContentIff` says
  on which checks and writes of each operation it happens, and the run theorems ask just that.
- `channels/mobile.py` (line 276) ignores whether the repair of the sequence file was written. A lost
  repair can lead to a reused number (`FailedRepairReusesANumber`). `StepIsSafeIff` says which events
  are safe all the same, and `UnkeptCounterReusesANumber` that after any other some continuation
  gives one number to two items; the run theorems ask exactly that condition.
- `core/character_cleanup.py` (line 277) refuses to restore an archived card while any card file is
  in place, so a half rolled-back removal of two card files cannot be restored
  (`HalfRolledBackCardsBlockRestore`, `RestoreSucceedsIff`). And a failed restore whose undo fails
  blocks every later one (`HalfUndoneRestoreBlocksRestore`, `FailedRestoreCanBeRetriedIff`).
- `core/control_markers.py`: a stream that ends in a dangling `{`, `{tru` or `{fal` drops it, the
  batch stripper keeps it (`LoneBraceDiffers`); `StreamMeetsBatch` says they agree exactly in all
  other cases.

## Model

| member | source | states |
|---|---|---|
| `ControlMarkerStream.ChunkingIsInvisible` | core/control_markers.py:106-137 | For every text and every way of cutting it into pieces, all `feed` results followed by `finish` are one and the same string: the text up to its tail marker, else up to a dangling marker beginning, right-stripped, else the text itself |
| `ControlMarkerStream.StreamMeetsBatch` | core/control_markers.py:66-69 | The stream shows what the batch stripper returns if and only if the text has a tail marker or no marker beginning dangles at its end |
| `ControlMarkerStream.LoneBraceDiffers` | core/control_markers.py:66-69 | A concrete text, a lone opening brace, that the stream drops and the batch stripper keeps |
| `ControlMarkerStream.NeverRetracts` | core/control_markers.py:85-126 | What has been shown after any pieces is a prefix of the final output of every continuation |
| `ControlMarkerStream.NeverOverHolds` | core/control_markers.py:85-126 | After any pieces there is a continuation whose final output is exactly what has been shown, so nothing is held back needlessly |
| `ControlMarkerStream.ShownIsLongestSharedPrefix` | core/control_markers.py:106-126 | What has been shown is the longest prefix shared by the final outputs of all continuations |
| `ControlMarkerStream.RunSplitsAtHold` | core/control_markers.py:113-126 | After any pieces the shown text and the buffer are the two sides of one split of the whole text, at a point that depends on the text alone |
| `ControlMarkerStream.HoldMonotone` | core/control_markers.py:85-103 | The hold point of a text is never before the hold point of one of its beginnings |
| `ControlMarkerStream.HoldDrop` | core/control_markers.py:85-103 | Dropping released text moves the hold point, the tail match and the dangling brace by exactly the dropped length |
| `ControlMarkerStream.MatchTruncated` | core/control_markers.py:72-82 | A match that a truncation cuts off is, in the truncation, an open marker prefix at its last brace |
| `ControlMarkerStream.TailTruncated` | core/control_markers.py:22-32 | Cutting a text inside or after its tail match leaves that match a tail match |
| `ControlMarkerStream.FinishCompletes` | core/control_markers.py:128-137 | `finish` on the buffer adds exactly what the whole text still owes |
| `ControlMarkerStream.TrueMarkerRoundTrip` | core/control_markers.py:44-63 | Writing a `true` marker after a display text, with any spelling, spacing and trailing spaces, and parsing it gives back the text and the stripped intent |
| `ControlMarkerGrammar.ParseKeepsIff` | core/control_markers.py:8-11 | The batch parser touches a text if and only if an ending of it is a marker, by a grammar of markers written out in characters, without the matcher |
| `ControlMarkerGrammar.MarkerIsHidden` | core/control_markers.py:66-69 | A text in front of a marker is what is shown, without the spaces between them, by the batch parser and by the stream for every cutting |
| `ControlMarkerGrammar.UnspeltIsDropped` | core/control_markers.py:128-137 | Where no ending is a marker, a stream drops a marker still being spelt at the end, and the batch parser keeps it |
| `ControlMarkerGrammar.OrdinaryTextIsShown` | core/control_markers.py:8-11 | Every other text is shown unchanged, by the batch parser and by the stream for every cutting |
| `ControlMarkerGrammar.MiddleMarkerStays` | core/control_markers.py:8-11 | A closed marker of either word with other text behind it is left intact, by the batch parser and by the stream for every cutting |
| `ControlMarkerGrammar.OpenFalseStays` | core/control_markers.py:22-29 | A brace and `false` followed by anything but a colon and a closing brace are left intact in the same two ways |
| `ControlMarkerGrammar.LastOpeningDecides` | core/control_markers.py:35-41 | A text whose last brace opens a marker is left as it is if and only if the marker does not close |
| `ControlMarkerGrammar.MarkerIff` | core/control_markers.py:22-41 | A text has a tail match at a place if and only if its ending from there is a marker: an opening, behind which at most a colon and one closing brace among spaces for `false`, and only spaces behind the first closing brace for `true` |
| `ControlMarkerGrammar.DanglingIff` | core/control_markers.py:72-82 | A marker beginning dangles at a place if and only if the ending from there is a brace, spaces and a beginning of a word |
| `ControlMarkerGrammar.TrueMarkerParses` | core/control_markers.py:44-63 | A `true` marker in any layout, with or without a colon and a closing brace, parses to the text before it and its intent, each without the spaces around it |
| `ControlMarkerGrammar.FalseMarkerParses` | core/control_markers.py:44-63 | A `false` marker in any layout parses to the text before it and to no intent |
| `ControlMarkers.OneBracePerMatch` | core/control_markers.py:17 | A match holds one opening brace, its first character, so no other match begins inside it |
| `ControlMarkers.LastTailMatch` | core/control_markers.py:35-41 | The scan over non-overlapping matches finds the match with the greatest start in the text, if it is a tail; which texts have one is `ControlMarkerGrammar.MarkerIff` |
| `ControlMarkers.ParseTailBrace` | core/control_markers.py:44-63 | The parser returns the display text and intent of the tail marker, or the text unchanged; which texts it changes is `ControlMarkerGrammar.ParseKeepsIff` |
| `ControlMarkers.SuffixIsOpenMarkerPrefix` | core/control_markers.py:72-82 | The index loop decides whether a suffix is a brace, spaces and a word still being spelt |
| `ControlMarkers.HoldIndex` | core/control_markers.py:85-103 | The hold index is the hold point of the buffer, and absent when all of it may be shown |
| `ControlMarkers.ControlMarkerStreamFilter.Feed` | core/control_markers.py:117-126 | `feed` returns the text before the hold point and keeps the rest |
| `ControlMarkers.ControlMarkerStreamFilter.Finish` | core/control_markers.py:128-137 | `finish` returns the parsed rest without a dangling marker beginning, and empties the buffer |
| `ConfigControl.ChangedPaths` | admin/config_control.py:43-55 | The recursive walk lists exactly the paths at which the two values differ, each behind the prefix |
| `ConfigControl.LookUp` | admin/config_control.py:58-64 | The walk finds the value at a path, or nothing when a parent is missing or not a mapping |
| `ConfigControl.ConfigFile.Read` | admin/config_control.py:27-40 | Reading succeeds exactly for an absent, empty or mapping file and gives a fresh snapshot of it; written back without an edit, the snapshot leaves any later content of the file as it is |
| `ConfigControl.ConfigFile.MergeAndStore` | admin/config_control.py:96-111 | Patching the current file along the changed paths stores the structural three-way merge; a refused write leaves the file, and the outcome is `Written` if and only if the file then reads back as that merge |
| `ConfigControl.ConfigFile.WriteDocument` | admin/config_control.py:86-115 | Writing a snapshot stores the three-way merge of baseline, edit and current file; the snapshot becomes the merged baseline on success and is untouched otherwise |
| `ConfigControl.ConfigFile.WritePlain` | admin/config_control.py:86-111 | Writing a plain mapping is `Written` if and only if the file then reads back as that mapping; a load error leaves it as it was |
| `ConfigMerge.DiffPatchRoundTrip` | admin/config_control.py:43-83 | Patching a tree along its changed paths, in any order, gives the edited tree |
| `ConfigMerge.ChangedPathsPrefixFree` | admin/config_control.py:43-55 | No changed path is a proper prefix of another, and every proper prefix of one is a mapping in both trees |
| `ConfigMerge.SetAtShape` | admin/config_control.py:67-83 | One path write shows below its path, makes its parents mappings and changes nothing else |
| `ConfigMerge.ApplyPathShape` | admin/config_control.py:67-83 | Applying any one path, the empty one included, copies what the source tree holds at it and below, makes parents mappings, and leaves the rest |
| `ConfigMerge.PatchIsMerge` | admin/config_control.py:96-100 | Patching any current tree along the changed paths, in any order, is the merge defined key by key without paths |
| `ConfigMerge.MergeKeepsEdits` | admin/config_control.py:86-115 | Every edit arrives: at each changed path the merged tree holds the edited value |
| `ConfigMerge.MergeFrame` | admin/config_control.py:86-115 | A path incomparable with every changed path keeps the value on disk |
| `ConfigMerge.ConcurrentEditsCommute` | admin/config_control.py:86-115 | Two documents read from one baseline with incomparable edits give the same file in either write order, with both sets of edits in it |
| `ConfigMerge.UneditedWriteChangesNothing` | admin/config_control.py:86-115 | Writing an unedited snapshot back changes nothing, whatever the file has become |
| `ConfigMerge.MergeOntoBaseline` | admin/config_control.py:96-100 | Merging an edit onto its own baseline gives the edited tree |
| `ConfigMerge.NoChangeMeansEqual` | admin/config_control.py:43-55 | Values without a changed path are equal |
| `MobileQueueRuns.NoNumberNamesTwoItems` | channels/mobile.py:168-293 | Over any run of enqueues, acks and polls in which every event keeps the counter past every number, and with any other write failing, no sequence number is ever given to two items |
| `MobileQueueRuns.ClientMissesNothingSilently` | channels/mobile.py:128-166 | Over any run in which every event keeps the counter, a client that first polls without a cursor and then after its last number sees strictly increasing numbers, and every item queued at or below its cursor was delivered, or removed by ack, age or count |
| `MobileQueueRuns.StepIsSafeIff` | channels/mobile.py:128-316 | From a safe state one event leads to a safe state if and only if it keeps the counter: its load needs no repair of the sequence file, or the repair is written, or it is an enqueue whose own counter write succeeds with a number above all others |
| `MobileQueueReuse.UnkeptCounterReusesANumber` | channels/mobile.py:272-293 | The condition is exact: after any event that does not keep the counter, some continuation gives one number to two items |
| `MobileQueueReuse.BehindReusesANumber` | channels/mobile.py:282-293 | Once the stored counter is not past some number given out, an ack of everything and enqueues up to that number give it to a second item |
| `MobileQueueRuns.LoadKeepsCounterAheadIff` | channels/mobile.py:272-279 | A load by itself keeps the stored counter past every number given out if and only if its repair is written or was not needed |
| `MobileQueueRuns.FailedRepairReusesANumber` | channels/mobile.py:272-279 | A concrete run in which an ignored failed repair write leads to one number for two items |
| `MobileQueueRuns.StepIsSafe` | channels/mobile.py:128-316 | Every enqueue, ack and poll that keeps the counter keeps names unique, queued items tracked and the client's view complete |
| `MobileQueueRuns.RunIsSafe` | channels/mobile.py:128-316 | These hold after any run, from any two files, whose events all keep the counter |
| `MobileQueueRuns.CounterNeverDecreases` | channels/mobile.py:282-306 | No event lowers the stored counter, whichever writes fail |
| `MobileQueueRuns.LoadedQueueIncreases` | channels/mobile.py:238-280 | Every loaded queue is strictly increasing in its numbers, whatever the files held |
| `MobileQueueRuns.NumberedFacts` | channels/mobile.py:259-280 | Numbering keeps the item of every settled number and gives all others numbers the counter has not passed |
| `MobileQueueRuns.LoadFacts` | channels/mobile.py:238-257 | After a load every name on disk comes from the numbered list, and a name that left the disk was dropped by the prune |
| `MobileQueueRuns.PageFacts` | channels/mobile.py:232-236 | With a cursor or without, a page holds the items right above it in order, leaving none out below a returned one, and as many as there are up to the limit, which is held between 1 and 50 |
| `MobileQueueRuns.PruneKeepsExactly` | channels/mobile.py:308-316 | A prune drops exactly the items past the age limit and those with 500 young items of higher number |
| `MobileQueueRuns.NewItemSurvivesItsPrune` | channels/mobile.py:217-218 | A new item survives the prune of its own enqueue, in last place |
| `MobileQueueContents.NextSeqIsLeast` | channels/mobile.py:282-293 | The number of a new item is the least one past the stored counter and past every usable number in the file |
| `MobileQueueContents.AssignKeepsItems` | channels/mobile.py:259-271 | Numbering changes numbers alone: the first holder of a usable number keeps it, every other item gets a new one past all of them |
| `MobileQueueContents.SortIsPermutation` | channels/mobile.py:270-271 | Sorting keeps the items and only rearranges them |
| `MobileQueueContents.EnqueueStoresItem` | channels/mobile.py:168-224 | A successful enqueue leaves its item, with its number and timestamp, at the end of the file, and the counter right behind it |
| `MobileQueueContents.AckRemovesExactly` | channels/mobile.py:155-166 | A successful ack reports the number of loaded items above it and leaves exactly those, in order; it fails if and only if it would remove some and cannot write |
| `MobileQueueContents.LoadIsIdempotent` | channels/mobile.py:238-280 | After a load whose writes succeed, a second load at the same time returns the same queue and writes nothing |
| `MobileQueue.MobileQueueFiles.EnsureSequences` | channels/mobile.py:259-280 | The numbering loop, the sort and the repair of the sequence file leave exactly the numbered, sorted queue and repaired counter |
| `MobileQueue.MobileQueueFiles.LoadQueue` | channels/mobile.py:238-257 | A load's result and both files afterwards, with either write failing |
| `MobileQueue.MobileQueueFiles.WriteToQueue` | channels/mobile.py:168-224 | An enqueue stores the next counter before the queue; both files and the result for every failure |
| `MobileQueue.MobileQueueFiles.Acknowledge` | channels/mobile.py:155-166 | An ack keeps exactly the items above the acknowledged number, or fails without shortening the queue |
| `MobileQueue.MobileQueueFiles.ReadFromQueue` | channels/mobile.py:232-236 | A read returns that page: from the start of the loaded queue without a cursor, from above it with one |
| `SelfSpaceRuns.RevisionNamesContent` | core/character_self.py:546-586 | Along any run in which no operation splits a path, its revision only grows, and while it stands still the content stays the same |
| `SelfSpaceRuns.RevisionNamesContentIff` | core/character_self.py:969-1283 | An operation keeps one content per revision of a path if and only if it does not split it: pass its checks and change the file, and then fail to write the record or to undo a half-done move that changed the bytes |
| `SelfSpaceRuns.StepRaisesRevision` | core/character_self.py:546-569 | Whatever fails, no operation lowers a revision or rewrites a snapshot, and a success raises the revision of every path it wrote and returns it |
| `SelfSpaceRuns.RunRaisesRevision` | core/character_self.py:546-569 | The same along any run, with any failures: deleting, pruning and restoring never lower a revision |
| `SelfSpaceRuns.SoundNeverSplits` | core/character_self.py:546-569 | An operation that succeeds splits no path, nor does one whose metadata writes and undo succeed |
| `SelfSpaceRuns.UpdateReplacesWhatWasRead` | core/character_self.py:1034-1059 | An update that expects the revision a reader saw, any run without a split later, replaces exactly the content the reader saw and no other file |
| `SelfSpaceRuns.DeleteRemovesWhatWasRead` | core/character_self.py:1160-1205 | A delete that expects the revision a reader saw, any run without a split later, removes exactly the content the reader saw and no other file |
| `SelfSpaceRuns.SecondWriterIsRefused` | core/character_self.py:577-586 | Of two updates, moves or deletes expecting the same revision of a path, the first of which succeeds, the later is refused, whatever runs and fails in between |
| `SelfSpaceRuns.DeniedChangesNoFile` | core/character_self.py:969-1283 | With its metadata writes and its undo succeeding, a refused operation changes no file |
| `SelfSpaceRuns.FailedRecordSplitsRevision` | core/character_self.py:546-569 | A concrete create whose failed revision record leaves one revision with two contents |
| `SelfSpaceRuns.FailedUndoSplitsRevision` | core/character_self.py:1111-1121 | A concrete move that can neither remove its source nor undo its copy, and leaves one revision of the destination with two contents |
| `SelfSpaceInvariants.StepKeepsHistory` | core/character_self.py:513-569 | With its metadata writes saved, every operation keeps each history ordered, with exactly its snapshots and at most one version over the limit, and any success but a restore leaves every path it wrote within the limit |
| `SelfSpaceInvariants.RunBoundsHistory` | core/character_self.py:513-569 | Over any run with metadata writes saved, a history exceeds the limit, by one, only while the last success on its path is a restore |
| `SelfSpaceInvariants.NewVersionSurvivesItsPrune` | core/character_self.py:513-569 | The version just recorded survives the prune after it, and its snapshot holds the replaced bytes |
| `SelfSpaceInvariants.StepKeepsTrash` | core/character_self.py:589-618 | Every operation keeps the trash within its limit, its items and blobs in one-to-one correspondence; a delete needs its trash writes saved and an unused identifier, the others nothing |
| `SelfSpaceInvariants.TrashItemStays` | core/character_self.py:589-618 | A prune drops a trash item only when it expired or `max_trash` newer items displace it |
| `SelfSpaceOutcomes.PruneKeepsVersionsExactly` | core/character_self.py:513-543 | A prune keeps a version if and only if it is not past its age and fewer than `max_revisions` such versions are behind it |
| `SelfSpaceOutcomes.PruneKeepsItemsExactly` | core/character_self.py:589-618 | A prune keeps a trash item if and only if it is not past its age and fewer than `max_trash` such items are behind it |
| `SelfSpaceOutcomes.QuotaMeans` | core/character_self.py:495-510 | The check made before a write allows it if and only if the bucket with the bytes in place is within file size, file count and total bytes |
| `SelfSpaceOutcomes.UpdateSucceedsIff` | core/character_self.py:1034-1059 | An update succeeds if and only if the file exists, the expected revision is the current one, the bytes fit the three quotas, its writes succeed, and not both the limit is at least 100 and that many versions are not past their age |
| `SelfSpaceOutcomes.ShortHistoryNeverRefuses` | core/character_self.py:1049-1050 | Below a limit of 100 a full history never refuses an update |
| `SelfSpaceOutcomes.AppendSucceedsIff` | core/character_self.py:1465-1537 | An append onto a file succeeds under the same conditions on valid text and the joined text, without asking for a revision; elsewhere it is a create |
| `SelfSpaceOutcomes.CreateSucceedsIff` | core/character_self.py:985-1007 | A create succeeds if and only if the path is free, the bytes fit the three quotas and its writes succeed |
| `SelfSpaceOutcomes.MoveSucceedsIff` | core/character_self.py:1064-1140 | A move succeeds if and only if the source exists at the expected revision, the destination is free or may be overwritten at its expected revision, the copy fits and all its writes succeed |
| `SelfSpaceOutcomes.DeleteSucceedsIff` | core/character_self.py:1143-1207 | A delete succeeds if and only if the file exists at the expected revision, its writes succeed, and not both the trash limit is at least 200 and that many items are not past their age |
| `SelfSpaceOutcomes.RestoreTakesTheItem` | core/character_self.py:1253-1283 | After a successful restore the trash no longer has the item, and asking for it again finds nothing |
| `SelfSpaceInvariants.StepKeepsQuota` | core/character_self.py:495-510 | Every operation, whatever fails, keeps total bytes, file count and file sizes within the quotas |
| `SelfSpaceInvariants.RunKeepsQuota` | core/character_self.py:495-510 | So does every run, whatever fails |
| `SelfSpaceInvariants.AllowedWriteFits` | core/character_self.py:495-510 | A write the quota check allows stays within all three quotas |
| `SelfSpaceRecovery.RunKeepsSpaceOk` | core/character_self.py:969-1283 | Over any sequence of operations with metadata writes saved, histories, trash and quotas stay bounded and consistent |
| `SelfSpaceRecovery.UpdateKeepsOldBytes` | core/character_self.py:1043-1054 | A successful update changes that file alone, raises its revision by one and keeps the replaced bytes in that revision's snapshot |
| `SelfSpaceRecovery.CreateAddsOneFile` | core/character_self.py:985-1007 | A successful create adds exactly that file, and continues the revisions of an earlier file of that name |
| `SelfSpaceRecovery.AppendKeepsBothTexts` | core/character_self.py:1492-1519 | An append keeps the old bytes in front and the addition behind, with a line break between two non-empty texts and at most one byte more |
| `SelfSpaceRecovery.MoveKeepsBytes` | core/character_self.py:1100-1128 | A successful move between two paths leaves the source bytes at the destination, nothing at the source, and the destination's old bytes in its new snapshot |
| `SelfSpaceRecovery.MoveRetiresSource` | core/character_self.py:1111-1128 | The moved path gets a new revision too, whose snapshot holds the moved bytes |
| `SelfSpaceRecovery.MoveKeepsBytesIff` | core/character_self.py:1064-1140 | A successful move keeps the source bytes at the destination if and only if the two paths differ |
| `SelfSpaceRecovery.SelfMoveLosesTheFile` | core/character_self.py:1064-1140 | A concrete overwriting move of a file onto itself that succeeds and removes it |
| `SelfSpaceRecovery.DeleteRestoreRoundTrip` | core/character_self.py:1143-1283 | After a delete and any run, a successful restore of the returned revision gives back the identical bytes and changes no other file; and while the item is unexpired, fewer than `max_trash` deletes came after it and no restore took it, the trash holds those bytes and the restore succeeds if and only if the path is free, the quotas allow it and its writes succeed |
| `SelfSpaceRecovery.RunKeepsItem` | core/character_self.py:589-618 | Over any run that finds it unexpired and does not restore it, a trash item moves at most one place per delete away from the end, so it leaves the trash only when `max_trash` later deletes displace it |
| `SelfSpaceRecovery.ImmediateRestoreSucceeds` | core/character_self.py:1143-1283 | Restoring right after a delete succeeds whenever the storage writes do |
| `SelfSpaceRecovery.RestoreSucceedsIff` | core/character_self.py:1210-1283 | A restore succeeds if and only if the trash holds the item with its blob, the path is free, the quotas allow it and the writes succeed; it then changes the files by exactly those bytes |
| `SelfSpaceRecovery.RunKeepsTrashBytes` | core/character_self.py:589-618 | Over any run whose deletes get their trash writes saved, the trash may drop the bytes of a revision but never changes them |
| `SelfSpaceRecovery.DeleteFillsTrash` | core/character_self.py:1160-1205 | A successful delete removes that file alone and leaves its bytes in the trash under the revision it returns |
| `SelfSpaceStore.SelfBucket.Usage` | core/character_self.py:470-478 | The loop over the files adds up the sizes of all of them |
| `SelfSpaceStore.SelfBucket.CheckWriteQuota` | core/character_self.py:495-510 | The check allows a write exactly within file size, file count and total bytes |
| `SelfSpaceStore.SelfBucket.PruneVersions` | core/character_self.py:513-543 | The loop drops expired versions and those beyond the newest `max_revisions`, with their snapshots; when the state cannot be written only the snapshots go, and no revision moves either way |
| `SelfSpaceStore.SelfBucket.RecordRevision` | core/character_self.py:546-569 | Exactly when both writes succeed, a revision above the current one with the replaced bytes in its snapshot; whatever fails, no snapshot up to the current revision, no other path, file or trash item is touched |
| `SelfSpaceStore.SelfBucket.PruneTrashItems` | core/character_self.py:589-618 | The loop drops expired items and those beyond the newest `max_trash`, with their blobs; when the index cannot be written only the blobs go |
| `SelfSpaceStore.SelfBucket.CreateFile` | core/character_self.py:969-1013 | The whole bucket and the outcome after a create for every combination of failing file and metadata writes |
| `SelfSpaceStore.SelfBucket.UpdateFile` | core/character_self.py:1016-1061 | The whole bucket and the outcome after an update for every combination of failing file and metadata writes; when it succeeds is `SelfSpaceOutcomes.UpdateSucceedsIff` |
| `SelfSpaceStore.SelfBucket.MoveFile` | core/character_self.py:1064-1140 | The whole bucket and the outcome after a move, with each of its two records and prunes and the undo of its copy failing on their own, for every combination of failing file and metadata writes |
| `SelfSpaceStore.SelfBucket.DeleteFile` | core/character_self.py:1143-1207 | The whole bucket and the outcome after a delete for every combination of failing file and metadata writes |
| `SelfSpaceStore.SelfBucket.RestoreFile` | core/character_self.py:1210-1283 | The whole bucket and the outcome after a restore for every combination of failing file and metadata writes |
| `SelfSpaceStore.SelfBucket.AppendText` | core/character_self.py:1465-1537 | The whole bucket and the outcome after an append, a create or a replacement by the joined text, for every combination of failing writes; when it succeeds is `SelfSpaceOutcomes.AppendSucceedsIff` |
| `DeviceQueueRuns.RunIsSafe` | channels/device_ws.py:68-127 | For every interleaving of producers, writer steps, send failures and disconnects, sent frames, frames in hand or lost, and the queue show exactly the accepted frames in order, and the queue never exceeds 64 |
| `DeviceQueueRuns.SentIsPrefixOfAccepted` | channels/device_ws.py:96-127 | What the device was shown is always a beginning of what was accepted, and all of it once the writer is idle on an empty queue |
| `DeviceQueueRuns.AbsorbConserves` | channels/device_ws.py:109-120 | Merging shows the same characters and frames in the same order |
| `DeviceQueueRuns.PushIsSafe` | channels/device_ws.py:68-93 | Appending, merging into the tail of a full queue, and refusing all keep conservation and the bound |
| `DeviceQueueRuns.DisconnectIsSafe` | channels/device_ws.py:314-323 | A disconnect loses exactly the frame in hand and the queue, and changes nothing already sent |
| `DeviceQueueRuns.MergedFrameFitsIff` | channels/device_ws.py:96-121 | The documented limit on a merged frame is met if and only if the whole run of deltas behind the frame stays below 512 bytes or some beginning of it has exactly 512 |
| `DeviceQueueRuns.MergedFrameBound` | channels/device_ws.py:111-120 | A frame that absorbs another is under 512 bytes just before, so a merged frame exceeds the limit by less than the last delta it took in |
| `DeviceQueueRuns.MergedFrameMayExceedLimit` | channels/device_ws.py:96-121 | Two concrete deltas under 512 bytes that merge to a frame over it |
| `DeviceQueueRuns.MergedFrameTime` | channels/device_ws.py:109-120 | A merged frame carries the last timestamp present among the frames in it |
| `DeviceQueueRuns.FullPushMerges` | channels/device_ws.py:77-93 | A delta pushed onto a full queue whose last frame is of its message adds its text to that frame and replaces its timestamp if it has one |
| `DeviceQueueRuns.DrainShowsEverything` | channels/device_ws.py:96-121 | The frames a writer left alone sends show the whole queue |
| `DeviceQueueRuns.WriterCycleDrains` | channels/device_ws.py:96-127 | One pop, wake and successful send shortens the queue and does one step of draining it |
| `DeviceOutboxes.DeviceOutbox.EnqueueJson` | channels/device_ws.py:68-93 | Keeps conservation and the bound of 64; an accepted frame is pending behind everything else and a refused one changes nothing, refused being exactly what meets no connection or a full queue without a tail delta of its message |
| `DeviceOutboxes.DeviceOutbox.WriterPop` | channels/device_ws.py:102-108 | The first queued frame goes into the writer's hand; nothing pending is lost, repeated or reordered |
| `DeviceOutboxes.DeviceOutbox.WriterWake` | channels/device_ws.py:109-120 | Merging after the pause keeps what is pending, and absorbs deltas of the same message while the frame in hand is under the limit |
| `DeviceOutboxes.DeviceOutbox.WriterSend` | channels/device_ws.py:121-127 | A successful send shows exactly what was in hand, next in order; a failed one shows nothing and ends the writer |
| `DeviceOutboxes.DeviceOutbox.HandleConnection` | channels/device_ws.py:267-298 | A new connection starts with nothing shown or pending, an empty queue and a waiting writer |
| `DeviceOutboxes.DeviceOutbox.HandleDisconnect` | channels/device_ws.py:314-325 | A disconnect loses exactly what was pending, and changes nothing shown |
| `SqlMeaning.CompiledFilterMeansSource` | core/character_self_db.py:157-192 | A compiled filter is true of a row under three-valued logic with positional binding if and only if the row meets every condition of the source filter, literals being compared by what they denote |
| `SqlMeaning.ConditionMeaning` | core/character_self_db.py:157-192 | Each compiled condition is true of a row if and only if the source condition holds of its column, NULLs included |
| `ColumnValues.CoerceDenotes` | core/character_self_db.py:118-148 | The conversion of an argument succeeds with a stored value if and only if the argument denotes that value in the column type, by a relation that reads stored values back |
| `ColumnValues.BooleansDenote` | core/character_self_db.py:134-141 | A boolean column takes exactly booleans, 0, 1 and the words `true` and `false` in any case; the spellings of one truth value agree and the two stay apart |
| `ColumnValues.DenotesOne` | core/character_self_db.py:118-148 | No argument denotes two stored values |
| `ColumnValues.OwnValuesComeBack` | core/character_self_db.py:219-226 | A boolean, number or text stored in a column of its own kind is returned as it went in, a whole float as an integer |
| `SqlMeaning.ContainsPattern` | core/character_self_db.py:182-184 | LIKE on the escaped pattern between wildcards holds exactly when the operand occurs as a substring, ignoring ASCII case |
| `SqlMeaning.LikeLiteralPrefix` | core/character_self_db.py:182-184 | LIKE on an escaped text followed by a wildcard holds exactly of the texts that begin with it |
| `SqlMeaning.EscapedIsPerCharacter` | core/character_self_db.py:182 | The three replacements in their order escape every character exactly once |
| `SqlMeaning.EvalAppend` | core/character_self_db.py:157-192 | Appended clauses read exactly the parameters appended for them |
| `SqlStatements.TextMatchesParameters` | core/character_self_db.py:157-192 | The WHERE text holds exactly as many placeholders as there are parameters |
| `SqlStatements.ComparisonReads` | core/character_self_db.py:186-191 | Each comparison reads as the quoted column, its operator and one placeholder |
| `SqlStatements.TestReads` | core/character_self_db.py:171-184 | The tests for NULL and for a substring read as their SQL over the quoted column |
| `SqlStatements.ClausesJoin` | core/character_self_db.py:192 | Clauses are joined by AND in their order |
| `SqlStatements.UpdateMeansSource` | core/character_self_db.py:427-438 | An update changes exactly the rows the filter describes; there each listed column gets what its own argument denotes and every other keeps its value |
| `SqlStatements.QueryMeansSource` | core/character_self_db.py:400-413 | With or without a filter, the page of a query is the requested slice of exactly the rows the filter describes, in the order ORDER BY gives them, the last two parameters being limit and offset, and the reported total is their number |
| `SqlStatements.BuildUpdate` | core/character_self_db.py:427-438 | The loop collects assignments and values in order, and binds the filter's parameters after them; the first error wins |
| `WhereCompiler.BuildWhere` | core/character_self_db.py:157-192 | The loops over columns and conditions give the compiled filter or the first error |
| `WhereAcceptance.CompilesIff` | core/character_self_db.py:157-192 | A filter compiles if and only if it is a non-empty dictionary of known columns, each with at least one condition, whose operators and operands fit and whose values can be converted |
| `WhereAcceptance.UpdatePlansIff` | core/character_self_db.py:427-438 | An update is planned if and only if every assignment names a column other than the row id with an argument that denotes a value of its type, and the filter compiles |
| `WhereAcceptance.NamesArePlain` | core/character_self_db.py:34 | An ASCII column name is accepted if and only if it is 1 to 32 letters, digits and underscores, not beginning with a digit |
| `WhereAcceptance.PageMeans` | core/character_self_db.py:409-410 | A page holds, in order, the rows from the offset on, as many as there are up to the limit |
| `WhereCompiler.FirstErrorStays` | core/character_self_db.py:157-192 | The error reported is that of the first column that has one |
| `WhereCompiler.Coerce` | core/character_self_db.py:118-148 | Null becomes NULL, any other converted value is one its column type holds (a text within the length limit, a number, 0 or 1, a parsed date), and the error says whether a text was too long; which value it is says `ColumnValues.CoerceDenotes` |
| `ReadingRanges.MergedRanges` | core/document_reading.py:34-44 | The loop over the sorted pairs gives the merged list |
| `ReadingRanges.MergedCovers` | core/document_reading.py:34-44 | Merging gives a sorted list of non-empty, non-touching ranges that covers exactly the old offsets and the new range |
| `ReadingRanges.NormalIsUnique` | core/document_reading.py:34-44 | Only one such list covers a given set of offsets |
| `ReadingRanges.RecordingOrderIsIrrelevant` | core/character_document_library.py:229-237 | The stored ranges depend only on which offsets were read, not on the order or cut of the reads |
| `ReadingRanges.ProvidedCharsCountsOffsets` | core/document_reading.py:51 | The provided character count is the number of distinct offsets covered |
| `ReadingRanges.NextUnreadIsLeastUncovered` | core/document_reading.py:47-53 | The next unread offset is the least offset not covered, and the document is complete if and only if all of a non-empty text is covered |
| `ReadingRanges.ContinueAdvances` | core/character_document_library.py:258-281 | A recorded continue read starts at the next unread offset and moves it on by a page or to the end |
| `ReadingRanges.ContinueReadsComplete` | core/character_document_library.py:258-281 | Recorded continue reads complete any document within as many reads as pages of the limit fit into it |
| `ReadingRanges.PagesJoinToText` | core/character_document_library.py:258-281 | From a fresh document the pages shown join to the text up to the next unread offset, without gap or overlap |
| `DocumentOverview.DocumentRow.Run` | core/document_reading.py:56-104 | One run's effect on the stored overview for every failure, exception and refused checkpoint; what its parts and text say is `OverviewTexts.SavedPartsAreAnswers` and `OverviewTexts.RunStoresItsMerge` |
| `OverviewRuns.RunsKeepOverview` | core/document_reading.py:56-104 | After any number of runs cut short anywhere, parts tile the text read, covered is zero or a part end, at most `max_chunks` parts await merging, and ready means all is covered |
| `OverviewRuns.RunKeepsOverview` | core/document_reading.py:56-104 | One run keeps this, only appends parts and never shrinks the covered text |
| `OverviewRuns.SavedPartsAreNotReread` | core/document_reading.py:56-104 | A run asks for at most `max_chunks` consecutive ranges, none overlapping a saved part |
| `OverviewRuns.RunNeverAddsWork` | core/document_reading.py:56-104 | No run adds work, and one that saves a part or a merge strictly removes some |
| `OverviewRuns.SuccessfulRunAdvances` | core/document_reading.py:76-101 | A run without failures covers `max_chunks` more chunks, or finishes a pending merge |
| `OverviewRuns.SuccessfulRunsFinish` | core/document_reading.py:56-104 | From a fresh document, enough runs without failures make the overview ready with all text covered |
| `OverviewTexts.SavedPartsAreAnswers` | core/document_reading.py:77-90 | A run adds at most `max_chunks` parts, the n-th of which holds the first 600 characters of the answer to the n-th request, made for exactly its range of 10000 characters or up to the end |
| `OverviewTexts.RunStoresItsMerge` | core/document_reading.py:91-101 | Whenever a run raises the covered length, the text is the first 1200 characters of that run's answer to the request to merge the earlier text with the new summaries; otherwise it is the earlier text |
| `OverviewTexts.RunMergesIff` | core/document_reading.py:76-101 | A run that starts work raises the covered length if and only if parts were left over or its loop saved some and ended at the bound, the end of the text or an empty answer, the merge answers with a text, and the last checkpoint is accepted |
| `OverviewTexts.MergeGetsNewParts` | core/document_reading.py:91-95 | The merge is asked for exactly the summaries of the parts beyond the covered length, in order |
| `OverviewTexts.TextIsLastMerge` | core/document_reading.py:56-104 | Over any runs from a fresh overview the text is the last saved merge, and the covered length what that merge covers |
| `OverviewTexts.ReadyMeansText` | core/document_reading.py:56-104 | After any runs, a ready overview of a document that is not empty has a text |
| `CleanupRecovery.RemoveConserves` | core/character_cleanup.py:207-244 | Wherever a removal fails, every target is in exactly one of its place and its archive slot with its data, and nothing else is touched |
| `CleanupRecovery.FailedRemoveChangesNothingIff` | core/character_cleanup.py:231-243 | An unsuccessful removal leaves the files unchanged if and only if it undid every move it had made |
| `CleanupRecovery.RemoveIsRecoverable` | core/character_cleanup.py:207-244 | Whatever fails after the first manifest write, files and manifest are in a state a restore can start from |
| `CleanupRecovery.RemoveReports` | core/character_cleanup.py:207-244 | The manifest of a removal says deleted exactly on success, and after a failure whether every move was undone |
| `CleanupRecovery.RestoreConserves` | core/character_cleanup.py:260-298 | Wherever a restore fails, every target is in exactly one place and nothing else is touched |
| `CleanupRecovery.RemoveRestoreRoundTrip` | core/character_cleanup.py:207-298 | A removal, with any failures, and then a successful restore is the identity on the files |
| `CleanupRecovery.RestoreNeverOverwrites` | core/character_cleanup.py:279-283 | Whatever was at a path before a restore is there afterwards, whatever fails |
| `CleanupRecovery.RestoreReports` | core/character_cleanup.py:260-298 | A successful restore records itself in the manifest and is refused from then on |
| `CleanupRecovery.RestoreSucceedsIff` | core/character_cleanup.py:266-283 | With no other change and no failing move, a restore succeeds if and only if the record is restorable, the character idle, and not one card file archived while another is in place |
| `CleanupRecovery.HalfRolledBackCardsBlockRestore` | core/character_cleanup.py:277-278 | A concrete half rolled-back removal of two card files that every later restore refuses |
| `CleanupRecovery.UndoneRestoreChangesNothing` | core/character_cleanup.py:292-295 | A failed restore that undid its moves changes nothing, so it can be tried again |
| `CleanupRecovery.FailedRestoreCanBeRetriedIff` | core/character_cleanup.py:260-298 | After a failed restore of a finished removal, a restore without failures succeeds if and only if the failed one undid every move it had made |
| `CleanupRecovery.HalfUndoneRestoreBlocksRestore` | core/character_cleanup.py:284-295 | A concrete failed restore whose undo fails, after which every restore is refused |
| `CleanupRecovery.ToRestoreIsArchived` | core/character_cleanup.py:273-276 | The targets a restore moves back are exactly those in the archive |
| `Cleanup.CleanupStore.MoveOut` | core/character_cleanup.py:223-226 | Moves go into the archive in order until the first that fails |
| `Cleanup.CleanupStore.RollBack` | core/character_cleanup.py:232-238 | The rollback tries every move in reverse and notes whether one failed |
| `Cleanup.CleanupStore.RemoveTargets` | core/character_cleanup.py:207-244 | Files, manifest and result of a removal, for every failure |
| `Cleanup.CleanupStore.RestoreTargets` | core/character_cleanup.py:260-298 | Files, manifest and result of a restore, for every failure |
| `AffectLaws.AccumulateIsNoisyOr` | core/affect.py:72-77 | Every projected emotion and mood is one minus the product of what its events leave over |
| `AffectLaws.EmotionsAreShares` | core/affect.py:72-77 | Every projected emotion and mood lies between 0 and 1 |
| `AffectLaws.EmotionsIgnoreOrder` | core/affect.py:55-77 | The order of the events in the window does not matter |
| `AffectLaws.EmotionsFade` | core/affect.py:62-77 | Once every event has been appraised, no emotion or mood rises with time alone |
| `AffectLaws.MoodAxesBounded` | core/affect.py:82-84 | Each of the three mood axes stays within 0.8 of neutral |
| `Affect.Project` | core/affect.py:50-84 | Before rounding, the loops compute the accumulated vector, mood and axes of the newest 48 events, or fail if and only if one of them is malformed |
| `Affect.AddEvent` | core/affect.py:70-77 | The inner loop adds one event to every emotion and mood exactly once |
| `AffectTables.NewestEventsAreRead` | core/affect.py:55 | Only the newest 48 events are read: whatever is older has no influence, and none of the newest is left out |
| `AffectTables.AcceptableMeans` | core/affect.py:56-70 | An event is malformed if and only if it is not invalidated and its times or source turn are wrong, or its appraisal is read and has an unknown strategy or a share missing or out of bounds |
| `AffectTables.OneEventProjects` | core/affect.py:62-77 | One event projects to its share times confidence and relevance, decayed by the half-life of the emotion; to three tenths of it with a half-life of six hours for the mood |
| `AffectTables.AxisMeans` | core/affect.py:82-84 | Each axis is the sum of the eight moods in the weights of the table, divided by their amount where that is more than one |
| `Ingress.AdmittedExactlyWhenReleased` | core/im_ingress.py:57-83 | With a clock that does not go back, a deliverable message is admitted if and only if every earlier admission of its key is at least `ttl` old or was followed by at least `capacity` others |
| `Ingress.RunIsSafe` | core/im_ingress.py:57-83 | After any run the remembered claims are the newest admissions in time order and within capacity, and all others are released |
| `Ingress.LiveIffNotReleased` | core/im_ingress.py:63-65 | An admission survives the expiry loop if and only if it is not released |
| `Ingress.DeliverableMeans` | core/im_ingress.py:57-61 | A message is deliverable if and only if it has an owner, an identifier, a reply address and a text that is not blank, and its channel and reply address are those of its context |
| `Ingress.UndeliverableIsRefused` | core/im_ingress.py:57-61 | Any other message is refused and leaves the claims as they were |
| `Ingress.ExpiredClaimsAreGone` | core/im_ingress.py:63-69 | After a deliverable message, admitted or not, no earlier claim at least `ttl` old is left |
| `Ingress.IMIngress.AcceptMessage` | core/im_ingress.py:57-83 | Remembered claims and answer of one message |

## Left out

- NoNumberNamesTwoItems: over runs whose events all keep the counter; without that the code does reuse numbers, as `UnkeptCounterReusesANumber` shows. A sequence file that is lost or damaged between two events is not modelled.
- ClientMissesNothingSilently: under the same condition, for one client whose first poll has no cursor and whose later polls give the last number it received; other clients' polls are interleaved without tracking what they saw.
- ReadFromQueue: one read of a poll; the waiting between reads and the payload fields of an item are not modelled, an item is its number, an identity and a timestamp.
- RevisionNamesContent: over runs in which no operation splits the path; where one does, the code gives one revision two contents, as `RevisionNamesContentIff` shows.
- UpdateReplacesWhatWasRead: over the same runs, for the same reason; so is `DeleteRemovesWhatWasRead`.
- SecondWriterIsRefused: for the operations with an expected revision; create, append and restore take none.
- StepKeepsHistory: for operations whose metadata writes are saved; a failed record can leave a snapshot file, and a failed prune a version without one. Snapshot and blob files whose removal fails, which the code ignores, are not modelled.
- StepKeepsTrash: the identifier of a new trash item (a random UUID) is assumed unused, and a delete to get its trash writes saved; where one fails the code can leave a blob without an item.
- DeleteRestoreRoundTrip: operations of one bucket run one after another, as its lock makes them; one clock reading serves one operation.
- RunIsSafe: in the device queue, acknowledgements, pings and other frames sent past the queue, and the heartbeat, are not modelled; a delta frame is its message id, text and time.
- MoveOut: each move of a target is atomic; a directory moved halfway between two file systems is not modelled. The preview, fingerprint and activity checks of a removal are one input, archive slots are not touched from outside, and symbolic-link checks are left out.
- CompiledFilterMeansSource: values are NULL, numbers and texts; not-a-number, infinities and column affinity are not modelled, and the host's number parsing, date parsing, number rendering and Unicode word characters are parameters.
- QueryMeansSource: ORDER BY is a parameter, any rearrangement of the selected rows; its text is not compiled.
- ContainsPattern: letters are compared ignoring ASCII case, as LIKE does, with no other collation.
- Project: rounding to four digits is left out, arithmetic is over reals, and exponential decay is a parameter of which positivity, the bound 1 and monotonicity in age are used; dominant emotion, intensity, strategy, source ids, and the `candidate` and `apply` operations are not modelled.
- AcceptMessage: the handler and its conversation lock are not modelled; the claim precedes the handler and stays whatever it does.
- OwnValuesComeBack: the redaction of returned texts is not part of this model.
- Run: in the overview of a document, the wording of the two model requests, the text revision check, deletion and ownership of the record are one input, a refused checkpoint; the attempt timestamp, the per-document lock and the scheduler are left out.
- ParseTailBrace: letters of `true` and `false` ignore ASCII case only; Unicode characters that fold to ASCII letters, such as the long s, are not modelled.
- ChangedPaths: keys are strings and come in any order, not sorted; the result is the same tree for every order.
- MergeAndStore: nested mappings are values, so the in-place descent of `_apply_path` and the deep copies that guard against sharing are not captured; YAML text and comments are left out, the parsed value is what is stored and read back.
- Reading modes other than continue, sections, search, uploads and notes of the document library: simple views of the stored rows.
- Directories, path normalisation, link checks, redaction, grants and audit records of the self space: not needed for its revision, trash and quota laws.
- Table creation, inserts, deletes and trash tables of the self database: plain statements around the same filter compiler.
- HTTP and WebSocket transport, language-model calls, speech, vision, backups and the remaining modules: input and output with little state of their own.
