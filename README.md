# darte tag editor — a verified model of its editing engine

darte is a terminal editor for the metadata tags of audio files. Given one file it opens a
single-file menu. Given a directory, or several files, it loads every file whose tag decodes and
opens a batch menu. The batch menu shows a *group view* of the shared fields (artist, album
artist, album, year, total tracks). Each field holds either the value every record agrees on or a
sentinel (`<differs>` for text, `0` for numbers). Both menus keep a dirty flag, which arms an
"unsaved changes" question on Exit, and a one-shot status line that is shown on the next redraw
and then cleared.

This project models that engine, with the terminal, the tag codec and the filesystem taken out:

- `tags.dfy` (`Tags`) holds the record: a path and a tag of nine optional fields, with `u16`
  track numbers and an `i32` year. It also holds the field setters and the batch writes.
- `prompts.dfy` (`Prompts`) covers how a line typed at a menu or a y/N question is read, and the
  exact status texts.
- `loading.dfy` (`Loading`) is the load-and-skip filter of the directory and argument loops.
- `reconcile.dfy` (`Reconciliation`) holds the group-view reconciliation loop (`Reconcile`, over
  the record array). It also holds its specification `GroupOf` and the laws the group view obeys.
- `single_edit.dfy` (`SingleEdit`) is the single-file menu.
  - A pure step function `Step`/`RunScript` defines what each arm does.
  - The class `SingleSession` carries the mutable state (record, dirty flag, status, exit) and is
    proved against `Step`.
  - A ghost copy of what the file holds on disk states that the unsaved-changes guard is sound.
- `batch_edit.dfy` (`BatchEdit`) is the batch menu.
  - The class `BatchSession` holds the record array, the group view, the flag, the status and a
    ghost copy of the files' contents.
  - It has one method per arm: shared-field edits written into every record in place, calculate
    total tracks, the bulk save, exit, and the two drill-downs into the single-file editor
    (edit all sequentially, view one file).

User input arrives as parameters. A text answer is a `string`. A numeric answer is already parsed
into `Option<i32>`/`Option<u16>`/`Option<nat>`, where `None` means the text was not a number. A
write attempt is a `bool` outcome, and a decoded file is a `ReadResult`. A single-file session is
driven by a script of `Command`s. Each command is one menu pass: the selection and the answers to
its prompts.

## Model

| member | source | states |
|---|---|---|
| `Tags.SetText` | src/main.rs:156-191 | a text setter makes exactly that field `Some(v)` and leaves the other five text fields and the three numeric fields as they were |
| `Prompts.ConfirmedExactly` | src/main.rs:286-294 | a `y/N` question is answered yes exactly by the lines `y` and `Y`; empty, multi-character and every other line read as no |
| `Prompts.DeclinedExactly` | src/main.rs:504-512 | the `Continue editing? Y/n` question stops exactly on the lines `n` and `N`; every other line continues |
| `Loading.LoadMusicFiles` | src/main.rs:25-44 | the loading loop returns exactly the records of the entries that are files and decode, in order, skipping listing errors, sub-directories and undecodable files |
| `Loading.KeptAppend` | src/main.rs:65-81 | loading is compositional: the records of two entry lists run one after the other are the records of each, concatenated |
| `Loading.KeptSize` | src/main.rs:65-81 | the working set has one record per decodable entry, never more records than entries |
| `Loading.KeptSound` | src/main.rs:34-43 | every loaded record comes from a decodable entry with that same path and tag |
| `Loading.KeptComplete` | src/main.rs:34-43 | every decodable entry is loaded |
| `Reconciliation.Reconcile` | src/main.rs:304-336 | the reconciliation loop over a non-empty record array ends with the group view `GroupOf` of the records |
| `Reconciliation.AgreedSpec` | src/main.rs:318-336 | a reconciled field equals record 0's value when every record has the same value, and the sentinel otherwise |
| `Reconciliation.GroupOfSpec` | src/main.rs:304-336 | field by field: artist, album artist and album are record 0's shown value (absent shown as `<none>`) when all records show the same, else `<differs>`; year and total tracks are the common value (absent as 0) when all agree, else 0 |
| `Reconciliation.SentinelAbsorbs` | src/main.rs:319-334 | collapse-once: a field that is the sentinel after some prefix of the records stays the sentinel to the end of the pass, so a seed of 0 stays 0 |
| `Reconciliation.AgreedSameKeys` | src/main.rs:318-336 | records that show the same values of a field, position by position, reconcile to the same value |
| `Reconciliation.AgreedConstant` | src/main.rs:318-336 | records that all carry one value reconcile to that value |
| `Reconciliation.AllAgreeTransfer` | src/main.rs:318-336 | agreement of all records on a field survives any rearrangement of the records, with the same common value |
| `Reconciliation.AgreedOrderFree` | src/main.rs:318-336 | a reconciled field does not depend on the order of the records |
| `Reconciliation.GroupOfOrderFree` | src/main.rs:304-336 | the whole group view does not depend on the order in which the records were loaded |
| `Reconciliation.GroupAfterUpdate` | src/main.rs:370-440 | writing one value into every record moves the recomputed group view exactly by that field, so the stored view after a shared edit is the view the records reconcile to |
| `Reconciliation.ThreeArtistsScenario` | src/main.rs:319-321 | three records with artists A, A, B show `<differs>`; after setting C on all of them every record carries C and the view shows C |
| `SingleEdit.UnparsedSelectionIsInvalid` | src/main.rs:140-146 | a selection line that is not exactly one character selects only the invalid-option arm |
| `SingleEdit.ReenteredTextIsNoOp` | src/main.rs:148-154 | re-entering the value offered for title, artist, album artist or album (absent offered as empty) changes nothing, the dirty flag included |
| `SingleEdit.TextEditWritesOneField` | src/main.rs:147-193 | a new value for a compared field, and any value for genre or comment, writes exactly that field, marks the session modified, and leaves every other field, the on-disk copy, the status and the path as they were |
| `SingleEdit.YearEdit` | src/main.rs:195-211 | a year that is not a number sets `Error: Not a number` and changes nothing else; the displayed year (absent as 0) is a no-op; any other year is written and marks the session modified |
| `SingleEdit.TrackNumberUnparsed` | src/main.rs:218-223 | a track number that is not a number only sets the error status |
| `SingleEdit.TrackEditApplied` | src/main.rs:213-244 | in the compound track edit each of number and total is written exactly when its answer differs from the displayed value, and the session turns modified exactly when one of them was written |
| `SingleEdit.TrackTotalUnparsed` | src/main.rs:224-238 | a total that is not a number keeps a track number already written and sets the error status; as written and corrected agree here |
| `SingleEdit.TrackEditAsWrittenBehaviour` | src/main.rs:224-243 | as written: a changed track number is applied and the total answer discarded; an unchanged number writes the total and marks the session modified even when the total is unchanged too |
| `SingleEdit.TrackEditAsWrittenLosesTotal` | src/main.rs:239-241 | track 1 of 10 answered 2 then 12 keeps total 10 as written but gets 12 corrected; answered 1 then 10 it is marked modified with nothing changed as written, and is a no-op corrected |
| `SingleEdit.SaveOutcome` | src/main.rs:264-278 | save clears the flag and records the file's contents only when the write succeeded; a failed write keeps the flag and sets the file warning; the loop continues either way |
| `SingleEdit.ExitOutcome` | src/main.rs:280-295 | exit ends the loop at once when not modified, otherwise exactly on a lone `y`/`Y`; any other answer returns to the menu with the state untouched |
| `SingleEdit.InvalidIsNoOp` | src/main.rs:296 | an unrecognised selection changes no state |
| `SingleEdit.OnlySaveWrites` | src/main.rs:264-269 | the file's contents change only on a successful save |
| `SingleEdit.StepKeepsClean` | src/main.rs:147-295 | every arm keeps the guard sound (a session not marked modified holds what its file holds) and keeps the record's path |
| `SingleEdit.RunKeepsClean` | src/main.rs:112-298 | over any run of the loop the guard stays sound and the path is kept |
| `SingleEdit.StepAsWrittenDiffersOnlyInTrack` | src/main.rs:146-297 | with the arms as the source writes them, every command except the track edit does exactly what the corrected step does |
| `SingleEdit.StepAsWrittenKeepsClean` | src/main.rs:213-244 | with the track edit as written too, every arm keeps the guard sound and keeps the record's path: the repeated test loses a total but never loses an edit unnoticed |
| `SingleEdit.RunAsWrittenKeepsClean` | src/main.rs:112-298 | over any run of the loop as the source writes it, the guard stays sound and the path is kept |
| `SingleEdit.UnconfirmedExitLosesNothing` | src/main.rs:280-283 | an exit taken without a confirming answer leaves no unsaved edits behind |
| `SingleEdit.RunStopsAtExit` | src/main.rs:280-295 | once the loop has ended, further input has no effect |
| `SingleEdit.SingleSession.constructor` | src/main.rs:96-111 | a session starts unmodified, with an empty status, on the given record |
| `SingleEdit.SingleSession.Render` | src/main.rs:135-138 | the pending status is shown exactly once and then cleared |
| `SingleEdit.SingleSession.Apply` | src/main.rs:146-297 | one pass of the menu updates the session's fields exactly as `Step` says |
| `SingleEdit.SingleSession.Run` | src/main.rs:112-298 | the menu loop over a script leaves the session exactly as `RunScript` says |
| `BatchEdit.UnhandledSelections` | src/main.rs:356 | a line that is not one character, the advertised `S`, and the unlisted digits 6 to 8 reach only the invalid-option arm |
| `BatchEdit.PickAsWrittenDefects` | src/main.rs:528-540 | as written the guard admits the record count as an index, one past the last record, and the first file, listed as 0, cannot be chosen |
| `BatchEdit.Pick` | src/main.rs:533-544 | corrected selection: any file it chooses is in range |
| `BatchEdit.PickByLabel` | src/main.rs:528-540 | corrected selection: each listed file is chosen by its own label and by no other number |
| `BatchEdit.FlagAfterSaveAsWrittenSpec` | src/main.rs:443-458 | as written, after a bulk save the flag is still set exactly when it was set and not one write succeeded |
| `BatchEdit.SaveKeepsCleanUnlessMixed` | src/main.rs:442-459 | as written, a save in which every write succeeds leaves the guard sound, and one in which every write fails keeps it as sound as it was |
| `BatchEdit.PartialSaveClearsFlag` | src/main.rs:449-455 | as written, a save whose first write fails and whose last succeeds clears the flag and reports success though the first file lacks its edits, so the guard is no longer sound |
| `BatchEdit.SaveKeepsClean` | src/main.rs:442-459 | corrected: whatever the write outcomes, the guard stays sound after a bulk save; a pass with a failed write keeps the flag and reports the warning |
| `BatchEdit.Visited` | src/main.rs:502-513 | the sequential edit never visits more records than there are |
| `BatchEdit.VisitedSpec` | src/main.rs:502-513 | the sequential edit visits records up to and including the first one whose continuation is declined, or all of them |
| `BatchEdit.DrillDownLeavesGroupStale` | src/main.rs:501-514 | two records with artist A reconcile to A; after a single-file sub-session re-tags the second as B they reconcile to `<differs>` |
| `BatchEdit.UnsavedSubSessionScenario` | src/main.rs:501-514 | on a clean session over one record, a sub-session that edits the artist and is left with a confirmed Exit leaves the record changed while the batch flag stays clear, so the batch guard no longer holds |
| `BatchEdit.StaleViewScenario` | src/main.rs:370-380 | on a session over two records with artist A, a sub-session re-tagging the second as B followed by the shared artist edit answered A: the stored view still shows A, so the edit is a no-op, the second record keeps B, the flag is untouched and the view no longer matches the records |
| `BatchEdit.BatchSession.constructor` | src/main.rs:301-316 | a batch session starts unmodified with an empty status, its group view reconciled from the records, and its guard sound |
| `BatchEdit.BatchSession.Render` | src/main.rs:359-362 | the pending status is shown exactly once and then cleared |
| `BatchEdit.BatchSession.WriteAll` | src/main.rs:376-378 | the in-place loop leaves every record with the write applied to its tag |
| `BatchEdit.BatchSession.SetSharedText` | src/main.rs:370-404 | a value equal to the shown group value (the literal `<none>` or `<differs>` included) is a no-op; any other value is written into every record, becomes the group value and marks the session modified; the group view stays the one the records reconcile to and the guard stays sound |
| `BatchEdit.BatchSession.SetYear` | src/main.rs:406-422 | as for text, for the year, with a year that is not a number setting the error status and changing nothing else |
| `BatchEdit.BatchSession.SetTotalTracks` | src/main.rs:424-440 | as for the year, for total tracks |
| `BatchEdit.BatchSession.SaveAll` | src/main.rs:442-459 | corrected: one write is attempted per record, in order, even after a failure; the flag is cleared and success reported only when every write succeeded, otherwise the flag is kept and the warning shown; each file holds its record's tag when its write succeeded and its old contents otherwise; the group view stays in sync and the guard stays sound |
| `BatchEdit.BatchSession.Exit` | src/main.rs:461-476 | exit ends the session at once when not modified, otherwise exactly on a lone `y`/`Y`, changing nothing else |
| `BatchEdit.BatchSession.CalculateTotalTracks` | src/main.rs:477-500 | a record count past the `u16` range sets `Error: Too many files???` and changes nothing; otherwise a confirming answer writes the count as every record's total and the group total and marks the session modified, and any other answer changes nothing |
| `BatchEdit.BatchSession.RejectOption` | src/main.rs:546 | any other selection sets `Error: Invalid option` and changes nothing else |
| `BatchEdit.BatchSession.EditOne` | src/main.rs:503 | one single-file sub-session runs on one record in place, leaving the other records, the group view, the batch flag and the status as they were |
| `BatchEdit.BatchSession.EditAllSequentially` | src/main.rs:501-514 | sub-sessions run on records in list order up to the first declined continuation, and the rest are untouched; the batch flag, the status and the group view are never updated |
| `BatchEdit.BatchSession.ViewFile` | src/main.rs:533-544 | with corrected labels: 0 or an unparsed answer goes back, a listed label runs a sub-session on that record only, and any other number sets `Error: Invalid selection` |

## Left out

- Terminal I/O is not modelled: the rustyline prompts and their pre-filled line editing, screen
  clearing and every `println!`. User input is a parameter and rendering is not modelled. The
  single-file `Error: Invalid option`, which goes straight to the terminal rather than into the
  status line, is printed output and so is not modelled either.
- The tag codec is not modelled. Reading a file becomes a `ReadResult`; writing one becomes a
  `bool` write outcome.
- The filesystem work and argument dispatch in `main` are not modelled: directory listing,
  `is_dir`/`is_file`, the one-argument versus many-argument split, the opening of the single-file
  editor for a lone file, and the "no files" messages. Only the keep-what-decodes filter is modelled.
- File-name and UTF-8 extraction are OS path handling and are not modelled. This covers the
  single-file editor's early return, and the two file-name statuses the file list can set.
  It also covers the `to_str().expect("")` before every write (src/main.rs:266, 446), which
  panics on a path that is not UTF-8. In the bulk save that panic ends the program mid-pass,
  after the earlier writes have landed.
- Decimal parsing by `str::parse` is not modelled. The parsed `Option` is an input, and a
  `usize` answer that does not parse is `None`, read as 0.
- An input stream that ends (EOF) is not modelled: rustyline's error defaults and the `expect`
  panics on a failed prompt.
- The `Send + Sync` bound on the tag box is not modelled, because no concurrency is involved.
- Sub-sessions are not modelled by reference. The single-file editor works through a `&mut` on the
  record; here it works on a copy that is stored back into its slot afterwards.
- SingleEdit.SingleSession.Apply and SingleEdit.SingleSession.Run, and through them the
  drill-downs EditOne, EditAllSequentially and ViewFile, run the corrected track edit. ViewFile
  also uses the corrected file choice, and SaveAll the corrected flag and status. The as-written track edit
  appears only in `StepAsWritten`/`RunScriptAsWritten` and the lemmas about them. The as-written
  file choice appears only in `PickAsWritten`. The as-written save flag appears only in
  `FlagAfterSaveAsWritten`, and the as-written save status (the last write's outcome) only in
  `StatusAfterSaveAsWritten`.
- A session runs on a finite script. When the script runs out, the sub-session ends.
- For "Edit All Sequentially", the script for each record and its "Continue editing?" answer are
  supplied for every record in advance. Only those of the visited records are used.

## Findings

| source | as written | input that shows it | evidently intended | confidence | as-written member | corrected member |
|---|---|---|---|---|---|---|
| src/main.rs:528-540 | files are listed as `{i}` from 0, the guard is `selection <= music_files.len()`, and `music_files[selection]` is indexed | with 3 files, typing 3 passes the guard and indexes past the end (a panic); the file listed as 0 can never be chosen, because 0 means back | labels from 1 and the index `selection - 1`, so that every listed file is reachable and nothing else is | not executed | `BatchEdit.PickAsWrittenDefects` | `BatchEdit.PickByLabel` |
| src/main.rs:239 | after the total-tracks answer, the guard repeats `old_number != new_number` | track 1 of 10 answered `2` then `12` keeps total 10; answered `1` then `10` marks the file modified with nothing changed | `if old_total == new_total { continue; }`, the form of lines 152 and 206, so that the total is written exactly when it changed, as the track number is | not executed | `SingleEdit.TrackEditAsWrittenLosesTotal` | `SingleEdit.TrackEditApplied` |
| src/main.rs:443-458 | every successful write sets `modified = false` and the status, and a failed write only sets the status | with two records where the first write fails and the second succeeds, the flag is cleared and "Save Successful!" shown, though the first file lacks its edits; Exit then leaves without asking | the flag is cleared, and success reported, only when every write of the pass succeeded, so a session not marked modified always holds what its files hold | not executed | `BatchEdit.PartialSaveClearsFlag` | `BatchEdit.SaveKeepsClean` |

The model uses the corrected forms: `Pick` in `ViewFile`, `TrackEdit` in `Step`, and
`FlagAfterSave`/`StatusAfterSave` in `SaveAll`.

One more behaviour is kept as written. The two drill-downs never refresh the group view or the
batch flag (`EditOne`, `EditAllSequentially`). Two scenarios show the consequences:
- `StaleViewScenario`: a later shared edit back to the stale value is taken as a no-op.
- `UnsavedSubSessionScenario`: a sub-session left by a confirmed Exit with an edit unsaved
  leaves the batch flag clear, so the unsaved-changes guard no longer holds. A batch Exit then
  leaves without asking, and a later bulk save writes the edit that the user chose to leave
  unsaved.

The compound track edit is not all-or-nothing: a parse failure on the second prompt does not
undo the first. The source writes a changed track number (line 225) before it parses the total
(line 233). The model follows the source: a total that is not a number keeps the new number
(`TrackTotalUnparsed`).
