/** The batch editor: a group view over every loaded record, shared-field edits written
    into every record, total-track calculation, bulk save, the unsaved-changes guard and
    the two drill-downs into the single-file editor. */
module BatchEdit {
  import opened Tags
  import opened Prompts
  import opened Reconciliation
  import SingleEdit

  /** The text fields the batch menu edits. */
  type SharedText = f: TextField | f == Artist || f == AlbumArtist || f == Album witness Artist

  function SharedValue(g: GroupView, f: SharedText): string {
    if f == Artist then g.artist else if f == AlbumArtist then g.albumArtist else g.album
  }

  /** The arms of the batch menu. */
  datatype MenuArm =
    | ArtistArm | AlbumArtistArm | AlbumArm | YearArm | TotalTracksArm
    | SaveArm | ExitArm | CalculateArm | SequentialArm | ViewArm | InvalidArm

  function ArmOf(c: char): MenuArm {
    match c
    case '1' => ArtistArm
    case '2' => AlbumArtistArm
    case '3' => AlbumArm
    case '4' => YearArm
    case '5' => TotalTracksArm
    case '9' => SaveArm
    case '0' => ExitArm
    case 'c' => CalculateArm
    case 'C' => CalculateArm
    case 'e' => SequentialArm
    case 'E' => SequentialArm
    case 'v' => ViewArm
    case 'V' => ViewArm
    case _ => InvalidArm
  }

  /** A line that is not one character, the advertised "S) Set Track Numbers", and the digits
      the batch menu does not list, reach only the invalid-option arm. */
  lemma UnhandledSelections(line: string)
    ensures |line| != 1 ==> ArmOf(Selection(line)) == InvalidArm
    ensures ArmOf('S') == InvalidArm && ArmOf('s') == InvalidArm
    ensures ArmOf('6') == InvalidArm && ArmOf('7') == InvalidArm && ArmOf('8') == InvalidArm
  {
  }

  // ---- choosing one file from the list ----

  /** What a number typed at "Choose a file to edit" does. */
  datatype Choice = Back | EditFile(index: nat) | Rejected

  /** The label printed in front of file `i` of the list, as written (`{i}`). */
  function LabelAsWritten(i: nat): nat { i }

  /** The selection guard and index as written: 0 goes back, anything up to the count is used
      directly as the index. */
  function PickAsWritten(sel: nat, count: nat): Choice {
    if sel == 0 then Back else if sel <= count then EditFile(sel) else Rejected
  }

  /** As written, the count itself passes the guard and indexes one past the last record, and
      the first file, listed under label 0, cannot be chosen because 0 means going back. */
  lemma PickAsWrittenDefects(count: nat)
    ensures PickAsWritten(count + 1, count + 1) == EditFile(count + 1)
    ensures forall sel :: PickAsWritten(sel, count) != EditFile(0)
    ensures PickAsWritten(LabelAsWritten(0), count) == Back
  {
  }

  /** The list labelled from 1. */
  function Label(i: nat): nat { i + 1 }

  /** Corrected selection: 0 goes back, 1 to the count choose that file, anything else is rejected. */
  function Pick(sel: nat, count: nat): (p: Choice)
    ensures p.EditFile? ==> p.index < count
  {
    if sel == 0 then Back else if sel <= count then EditFile(sel - 1) else Rejected
  }

  /** Every listed file is chosen by its own label and by no other number. */
  lemma PickByLabel(count: nat, i: nat, sel: nat)
    requires i < count
    ensures Pick(Label(i), count) == EditFile(i)
    ensures Pick(sel, count) == EditFile(i) <==> sel == Label(i)
  {
  }

  // ---- the bulk save ----

  /** Every write of a save pass succeeded. */
  predicate AllWritten(oks: seq<bool>) {
    forall i :: 0 <= i < |oks| ==> oks[i]
  }

  /** The dirty flag after a save pass as written, with these write outcomes in record order:
      every successful write clears it and a failed one leaves it as it was. */
  function FlagAfterSaveAsWritten(modified: bool, oks: seq<bool>): bool
    decreases |oks|
  {
    if oks == [] then modified
    else if oks[|oks| - 1] then false
    else FlagAfterSaveAsWritten(modified, oks[..|oks| - 1])
  }

  /** As written, the flag stays set only when it was set and not a single write succeeded. */
  lemma {:induction false} FlagAfterSaveAsWrittenSpec(modified: bool, oks: seq<bool>)
    ensures FlagAfterSaveAsWritten(modified, oks) <==> modified && forall i :: 0 <= i < |oks| ==> !oks[i]
    decreases |oks|
  {
    if oks != [] {
      var init := oks[..|oks| - 1];
      FlagAfterSaveAsWrittenSpec(modified, init);
      if !oks[|oks| - 1] {
        forall i | 0 <= i < |init| ensures init[i] == oks[i] { }
      }
    }
  }

  /** The status after a save pass as written: the outcome of the last record's write. */
  function StatusAfterSaveAsWritten(oks: seq<bool>): Status
    requires |oks| > 0
  {
    if oks[|oks| - 1] then SaveSuccessful else DirectoryWriteWarning
  }

  /** The corrected flag: a save pass clears it only when every write succeeded. */
  function FlagAfterSave(modified: bool, oks: seq<bool>): bool {
    modified && !AllWritten(oks)
  }

  /** The corrected status: success only when every write succeeded, the warning otherwise. */
  function StatusAfterSave(oks: seq<bool>): Status {
    if AllWritten(oks) then SaveSuccessful else DirectoryWriteWarning
  }

  /** What each file holds after a save pass: a successful write stores the record's tag. */
  function SavedDisk(tags: seq<Tag>, disk: seq<Tag>, oks: seq<bool>): (r: seq<Tag>)
    requires |tags| == |disk| == |oks|
    ensures |r| == |disk|
    ensures forall i :: 0 <= i < |disk| ==> r[i] == if oks[i] then tags[i] else disk[i]
  {
    seq(|disk|, i requires 0 <= i < |disk| => if oks[i] then tags[i] else disk[i])
  }

  /** The unsaved-changes guard is sound when a session not marked modified holds exactly what
      its files hold. */
  predicate BatchClean(modified: bool, tags: seq<Tag>, disk: seq<Tag>) {
    !modified ==> tags == disk
  }

  /** As written, a pass in which every write succeeds leaves the guard sound, and one in which
      every write fails keeps it as sound as it was. */
  lemma SaveKeepsCleanUnlessMixed(modified: bool, tags: seq<Tag>, disk: seq<Tag>, oks: seq<bool>)
    requires |tags| == |disk| == |oks|
    requires AllWritten(oks) || (BatchClean(modified, tags, disk) && forall i :: 0 <= i < |oks| ==> !oks[i])
    ensures BatchClean(FlagAfterSaveAsWritten(modified, oks), tags, SavedDisk(tags, disk, oks))
  {
    FlagAfterSaveAsWrittenSpec(modified, oks);
    if AllWritten(oks) {
      assert SavedDisk(tags, disk, oks) == tags;
    } else {
      assert SavedDisk(tags, disk, oks) == disk;
    }
  }

  /** As written, a pass whose first write fails and whose last succeeds clears the flag and
      reports success, though the first file still lacks its edits: Exit then leaves without the
      unsaved-changes question. */
  lemma PartialSaveClearsFlag(t0: Tag, t1: Tag, d0: Tag, d1: Tag)
    requires t0 != d0
    ensures !FlagAfterSaveAsWritten(true, [false, true])
    ensures StatusAfterSaveAsWritten([false, true]) == SaveSuccessful
    ensures SavedDisk([t0, t1], [d0, d1], [false, true])[0] != t0
    ensures !BatchClean(FlagAfterSaveAsWritten(true, [false, true]), [t0, t1], SavedDisk([t0, t1], [d0, d1], [false, true]))
  {
    assert [false, true][..1] == [false];
  }

  /** Corrected, the guard stays sound whatever the outcomes of the writes: a pass that leaves a
      file behind keeps the session marked modified and reports the failure. */
  lemma SaveKeepsClean(modified: bool, tags: seq<Tag>, disk: seq<Tag>, oks: seq<bool>)
    requires |tags| == |disk| == |oks|
    requires BatchClean(modified, tags, disk)
    ensures BatchClean(FlagAfterSave(modified, oks), tags, SavedDisk(tags, disk, oks))
    ensures !AllWritten(oks) ==> FlagAfterSave(modified, oks) == modified && StatusAfterSave(oks) == DirectoryWriteWarning
  {
    if AllWritten(oks) {
      assert SavedDisk(tags, disk, oks) == tags;
    } else if !modified {
      assert SavedDisk(tags, disk, oks) == disk;
    }
  }

  // ---- the sequential edit ----

  /** How many records "Edit All Sequentially" visits: it stops after the first record whose
      "Continue editing? Y/n" is answered with a lone n or N. */
  function Visited(answers: seq<string>): (k: nat)
    ensures k <= |answers|
    decreases |answers|
  {
    if answers == [] then 0
    else if Declined(answers[0]) then 1
    else 1 + Visited(answers[1..])
  }

  /** The sequence is visited up to and including the first declining answer, or to the end. */
  lemma {:induction false} VisitedSpec(answers: seq<string>)
    ensures forall i :: 0 <= i < Visited(answers) - 1 ==> !Declined(answers[i])
    ensures Visited(answers) < |answers| ==> Visited(answers) > 0 && Declined(answers[Visited(answers) - 1])
    ensures |answers| > 0 ==> Visited(answers) > 0
    decreases |answers|
  {
    if answers != [] && !Declined(answers[0]) {
      VisitedSpec(answers[1..]);
      forall i | 0 <= i < Visited(answers) - 1 ensures !Declined(answers[i]) {
        if i > 0 {
          assert answers[i] == answers[1..][i - 1];
        }
      }
    }
  }

  /** One single-file sub-session over a record, starting clean of any flag or status. */
  function Visit(file: MusicFile, disk: Tag, script: seq<SingleEdit.Command>): SingleEdit.Single {
    SingleEdit.RunScript(SingleEdit.Start(file, disk), script)
  }

  /** Two records with artist A reconcile to A; after a sub-session re-tags the second as B they
      reconcile to `<differs>`. `StaleViewScenario` runs this on a session, whose stored view the
      sub-session does not touch. */
  lemma DrillDownLeavesGroupStale(files: seq<MusicFile>)
    requires |files| == 2 && files[0].tag.artist == Some("A") && files[1].tag.artist == Some("A")
    ensures GroupOf(files).artist == "A"
    ensures var edited := files[1 := Visit(files[1], files[1].tag, [SingleEdit.EditText(Artist, "B")]).file];
      edited[1].tag.artist == Some("B") && GroupOf(edited).artist == Differs
  {
    AgreedSpec(Differs, ArtistKey, files);
    var s := Visit(files[1], files[1].tag, [SingleEdit.EditText(Artist, "B")]);
    assert s == SingleEdit.Step(SingleEdit.Start(files[1], files[1].tag), SingleEdit.EditText(Artist, "B"));
    var edited := files[1 := s.file];
    AgreedSpec(Differs, ArtistKey, edited);
    assert ArtistKey(edited[1]) != ArtistKey(edited[0]);
  }

  /** The batch session. The records are the caller's list, edited in place. */
  class BatchSession {
    var records: array<MusicFile>
    ghost var disk: seq<Tag>
    var group: GroupView
    var modified: bool
    var status: Status
    var exited: bool

    ghost predicate Valid()
      reads this
    {
      records.Length > 0 && |disk| == records.Length
    }

    /** The stored group view is the one the records reconcile to. */
    ghost predicate Synced()
      reads this, records
      requires Valid()
    {
      group == GroupOf(records[..])
    }

    ghost predicate Clean()
      reads this, records
    {
      BatchClean(modified, TagsOf(records[..]), disk)
    }

    /** Session start: reconcile the group view over the freshly loaded records. */
    constructor (records: array<MusicFile>)
      requires records.Length > 0
      ensures Valid() && this.records == records
      ensures disk == TagsOf(records[..]) && group == GroupOf(records[..])
      ensures !modified && status == Clear && !exited
      ensures Synced() && Clean()
    {
      var g := Reconcile(records);
      this.records := records;
      disk := TagsOf(records[..]);
      group := g;
      modified := false;
      status := Clear;
      exited := false;
    }

    /** The top of each pass: the pending status is shown once, then cleared. */
    method Render() returns (shown: string)
      modifies this
      ensures shown == old(status).Text() && status == Clear
      ensures records == old(records) && disk == old(disk) && group == old(group)
      ensures modified == old(modified) && exited == old(exited)
    {
      shown := status.Text();
      status := Clear;
    }

    /** Writes `u` into every record, in place. */
    method WriteAll(u: TagUpdate)
      requires Valid()
      modifies records
      ensures records[..] == UpdateAll(old(records[..]), u)
    {
      for i := 0 to records.Length
        invariant forall j :: 0 <= j < i ==> records[j] == old(records[j]).(tag := Update(old(records[j]).tag, u))
        invariant forall j :: i <= j < records.Length ==> records[j] == old(records[j])
      {
        records[i] := records[i].(tag := Update(records[i].tag, u));
      }
      assert forall j :: 0 <= j < records.Length ==> records[..][j] == UpdateAll(old(records[..]), u)[j];
    }

    /** Arms 1 to 3: a value equal to the shown group value (the sentinels included) is a no-op;
        any other value is written into every record and becomes the group value. */
    method SetSharedText(f: SharedText, input: string)
      requires Valid() && !exited
      modifies this, records
      ensures Valid() && records == old(records) && disk == old(disk) && status == old(status) && exited == old(exited)
      ensures input == SharedValue(old(group), f) ==>
        records[..] == old(records[..]) && group == old(group) && modified == old(modified)
      ensures input != SharedValue(old(group), f) ==>
        && records[..] == UpdateAll(old(records[..]), SetTextTo(f, input))
        && group == Regroup(old(group), SetTextTo(f, input)) && SharedValue(group, f) == input
        && modified
      ensures old(Synced()) ==> Synced()
      ensures old(Clean()) ==> Clean()
    {
      if SharedValue(group, f) == input {
        return;
      }
      ghost var before := records[..];
      if f == Artist {
        group := group.(artist := input);
      } else if f == AlbumArtist {
        group := group.(albumArtist := input);
      } else {
        group := group.(album := input);
      }
      WriteAll(SetTextTo(f, input));
      modified := true;
      GroupAfterUpdate(before, SetTextTo(f, input));
    }

    /** Arm 4: a year that is not a number reports it and changes nothing else. */
    method SetYear(year: Option<i32>)
      requires Valid() && !exited
      modifies this, records
      ensures Valid() && records == old(records) && disk == old(disk) && exited == old(exited)
      ensures year.None? ==>
        status == NotANumber && records[..] == old(records[..]) && group == old(group) && modified == old(modified)
      ensures year == Some(old(group).year) ==>
        status == old(status) && records[..] == old(records[..]) && group == old(group) && modified == old(modified)
      ensures year.Some? && year.value != old(group).year ==>
        && status == old(status)
        && records[..] == UpdateAll(old(records[..]), SetYearTo(year.value))
        && group == old(group).(year := year.value) && modified
      ensures old(Synced()) ==> Synced()
      ensures old(Clean()) ==> Clean()
    {
      if year.None? {
        status := NotANumber;
        return;
      }
      if group.year == year.value {
        return;
      }
      ghost var before := records[..];
      group := group.(year := year.value);
      WriteAll(SetYearTo(year.value));
      modified := true;
      GroupAfterUpdate(before, SetYearTo(year.value));
    }

    /** Arm 5: as arm 4, for total tracks. */
    method SetTotalTracks(total: Option<u16>)
      requires Valid() && !exited
      modifies this, records
      ensures Valid() && records == old(records) && disk == old(disk) && exited == old(exited)
      ensures total.None? ==>
        status == NotANumber && records[..] == old(records[..]) && group == old(group) && modified == old(modified)
      ensures total == Some(old(group).totalTracks) ==>
        status == old(status) && records[..] == old(records[..]) && group == old(group) && modified == old(modified)
      ensures total.Some? && total.value != old(group).totalTracks ==>
        && status == old(status)
        && records[..] == UpdateAll(old(records[..]), SetTotalTracksTo(total.value))
        && group == old(group).(totalTracks := total.value) && modified
      ensures old(Synced()) ==> Synced()
      ensures old(Clean()) ==> Clean()
    {
      if total.None? {
        status := NotANumber;
        return;
      }
      if group.totalTracks == total.value {
        return;
      }
      ghost var before := records[..];
      group := group.(totalTracks := total.value);
      WriteAll(SetTotalTracksTo(total.value));
      modified := true;
      GroupAfterUpdate(before, SetTotalTracksTo(total.value));
    }

    /** Arm 9: one write attempt per record, in order, whatever the earlier outcomes; the flag
        is cleared, and success reported, only when every write succeeded. */
    method SaveAll(oks: seq<bool>) returns (attempts: seq<MusicFile>)
      requires Valid() && !exited
      requires |oks| == records.Length
      modifies this
      ensures Valid() && records == old(records) && group == old(group) && exited == old(exited)
      ensures attempts == records[..]
      ensures modified == FlagAfterSave(old(modified), oks)
      ensures status == StatusAfterSave(oks)
      ensures disk == SavedDisk(TagsOf(records[..]), old(disk), oks)
      ensures old(Synced()) ==> Synced()
      ensures old(Clean()) ==> Clean()
    {
      ghost var files := records[..];
      ghost var before := disk;
      var allWritten := true;
      attempts := [];
      for i := 0 to records.Length
        invariant records == old(records) && group == old(group) && exited == old(exited)
        invariant modified == old(modified) && status == old(status)
        invariant |disk| == |before|
        invariant attempts == files[..i]
        invariant allWritten <==> AllWritten(oks[..i])
        invariant forall j :: 0 <= j < i ==> disk[j] == if oks[j] then files[j].tag else before[j]
        invariant forall j :: i <= j < |disk| ==> disk[j] == before[j]
      {
        assert oks[..i + 1][..i] == oks[..i];
        assert oks[..i + 1][i] == oks[i];
        var file := records[i];
        attempts := attempts + [file];
        if oks[i] {
          disk := disk[i := file.tag];
        } else {
          allWritten := false;
        }
      }
      assert oks[..records.Length] == oks;
      if allWritten {
        modified := false;
        status := SaveSuccessful;
      } else {
        status := DirectoryWriteWarning;
      }
      ghost var saved := SavedDisk(TagsOf(files), before, oks);
      assert forall j :: 0 <= j < |disk| ==> disk[j] == saved[j];
      if old(Clean()) {
        SaveKeepsClean(old(modified), TagsOf(files), before, oks);
      }
    }

    /** Arm 0: leaves at once when nothing is modified, otherwise only on a lone y or Y. */
    method Exit(answer: string)
      requires Valid() && !exited
      modifies this
      ensures Valid() && records == old(records) && disk == old(disk) && group == old(group)
      ensures modified == old(modified) && status == old(status)
      ensures exited <==> !modified || answer == "y" || answer == "Y"
    {
      ConfirmedExactly(answer);
      if !modified || Confirmed(answer) {
        exited := true;
      }
    }

    /** Arm C: a record count beyond the u16 range is reported and nothing changes; otherwise a
        confirmed count is written into every record's total tracks and the group view. */
    method CalculateTotalTracks(answer: string)
      requires Valid() && !exited
      modifies this, records
      ensures Valid() && records == old(records) && disk == old(disk) && exited == old(exited)
      ensures records.Length > MaxU16 ==>
        status == TooManyFiles && records[..] == old(records[..]) && group == old(group) && modified == old(modified)
      ensures records.Length <= MaxU16 && Confirmed(answer) ==>
        && status == old(status)
        && records[..] == UpdateAll(old(records[..]), SetTotalTracksTo(records.Length))
        && group == old(group).(totalTracks := records.Length) && modified
      ensures records.Length <= MaxU16 && !Confirmed(answer) ==>
        status == old(status) && records[..] == old(records[..]) && group == old(group) && modified == old(modified)
      ensures old(Synced()) ==> Synced()
      ensures old(Clean()) ==> Clean()
    {
      if records.Length > MaxU16 {
        status := TooManyFiles;
        return;
      }
      var count: u16 := records.Length;
      if Confirmed(answer) {
        ghost var before := records[..];
        group := group.(totalTracks := count);
        WriteAll(SetTotalTracksTo(count));
        modified := true;
        GroupAfterUpdate(before, SetTotalTracksTo(count));
      }
    }

    /** Any other selection: reported, nothing else changes. */
    method RejectOption()
      requires Valid() && !exited
      modifies this
      ensures Valid() && records == old(records) && disk == old(disk) && group == old(group)
      ensures modified == old(modified) && exited == old(exited)
      ensures status == InvalidOption
    {
      status := InvalidOption;
    }

    /** Runs one single-file sub-session on record `i` and stores the result back into its slot. */
    method EditOne(i: nat, script: seq<SingleEdit.Command>)
      requires Valid() && i < records.Length
      modifies this, records
      ensures Valid() && records == old(records)
      ensures records[i] == Visit(old(records[i]), old(disk)[i], script).file
      ensures disk == old(disk)[i := Visit(old(records[i]), old(disk)[i], script).disk]
      ensures forall j :: 0 <= j < records.Length && j != i ==> records[j] == old(records[j])
      ensures group == old(group) && modified == old(modified) && status == old(status) && exited == old(exited)
    {
      var session := new SingleEdit.SingleSession(records[i], disk[i]);
      session.Run(script);
      records[i] := session.file;
      disk := disk[i := session.disk];
    }

    /** Arm E: a sub-session per record in list order, stopping after a record whose
        continuation is declined. The batch flag, status and group view are left as they were. */
    method EditAllSequentially(scripts: seq<seq<SingleEdit.Command>>, answers: seq<string>)
      requires Valid() && !exited
      requires |scripts| == records.Length && |answers| == records.Length
      modifies this, records
      ensures Valid() && records == old(records)
      ensures forall j :: 0 <= j < Visited(answers) ==>
        records[j] == Visit(old(records[j]), old(disk)[j], scripts[j]).file
        && disk[j] == Visit(old(records[j]), old(disk)[j], scripts[j]).disk
      ensures forall j :: Visited(answers) <= j < records.Length ==> records[j] == old(records[j]) && disk[j] == old(disk)[j]
      ensures group == old(group) && modified == old(modified) && status == old(status) && exited == old(exited)
    {
      var i := 0;
      var stop := false;
      while i < records.Length && !stop
        invariant 0 <= i <= records.Length
        invariant Valid() && records == old(records)
        invariant stop ==> Visited(answers) == i
        invariant !stop ==> Visited(answers) == i + Visited(answers[i..])
        invariant forall j :: 0 <= j < i ==>
          records[j] == Visit(old(records[j]), old(disk)[j], scripts[j]).file
          && disk[j] == Visit(old(records[j]), old(disk)[j], scripts[j]).disk
        invariant forall j :: i <= j < records.Length ==> records[j] == old(records[j]) && disk[j] == old(disk)[j]
        invariant group == old(group) && modified == old(modified) && status == old(status) && exited == old(exited)
      {
        assert answers[i..][0] == answers[i] && answers[i..][1..] == answers[i + 1..];
        EditOne(i, scripts[i]);
        if Declined(answers[i]) {
          stop := true;
        }
        i := i + 1;
      }
    }

    /** Arm V: the number chosen from the file list (an unparsed answer reads as 0). */
    method ViewFile(selection: Option<nat>, script: seq<SingleEdit.Command>)
      requires Valid() && !exited
      modifies this, records
      ensures Valid() && records == old(records)
      ensures group == old(group) && modified == old(modified) && exited == old(exited)
      ensures var p := Pick(selection.GetOr(0), records.Length);
        && (p.Back? ==> records[..] == old(records[..]) && disk == old(disk) && status == old(status))
        && (p.Rejected? ==> records[..] == old(records[..]) && disk == old(disk) && status == InvalidSelection)
        && (p.EditFile? ==>
              && records[..] == old(records[..])[p.index := Visit(old(records[p.index]), old(disk)[p.index], script).file]
              && disk == old(disk)[p.index := Visit(old(records[p.index]), old(disk)[p.index], script).disk]
              && status == old(status))
    {
      var sel := selection.GetOr(0);
      match Pick(sel, records.Length)
      case Back =>
      case Rejected =>
        status := InvalidSelection;
      case EditFile(i) =>
        EditOne(i, script);
        assert records[..] == old(records[..])[i := records[i]];
    }
  }

  /** A drill-down leaves the stored group view stale. Two records with artist A; a sub-session
      on the second re-tags it B; then the shared artist edit is answered A. The view still shows
      A, so the edit is taken as a no-op: the second record keeps B, the flag is not touched, and
      the view no longer is the one the records reconcile to. */
  method StaleViewScenario(s: BatchSession)
    requires s.Valid() && !s.exited && s.Synced() && s.records.Length == 2
    requires s.records[0].tag.artist == Some("A") && s.records[1].tag.artist == Some("A")
    modifies s, s.records
    ensures s.Valid() && s.records == old(s.records)
    ensures s.records[0] == old(s.records[0])
    ensures s.records[1].tag.artist == Some("B")
    ensures s.group == old(s.group) && s.group.artist == "A" && s.modified == old(s.modified)
    ensures !s.Synced()
  {
    DrillDownLeavesGroupStale(s.records[..]);
    s.EditOne(1, [SingleEdit.EditText(Artist, "B")]);
    assert s.records[..] == old(s.records[..])[1 := s.records[1]];
    s.SetSharedText(Artist, "A");
  }

  /** A drill-down leaves the batch flag stale too. On a clean session over one record, a
      sub-session edits the artist and is left with a confirmed Exit, keeping the edit unsaved.
      The batch flag still says unmodified, so a batch Exit leaves without asking although the
      record differs from its file. */
  method UnsavedSubSessionScenario(s: BatchSession)
    requires s.Valid() && !s.exited && s.Clean() && !s.modified && s.records.Length == 1
    requires s.records[0].tag.artist == Some("A")
    modifies s, s.records
    ensures s.Valid() && s.records == old(s.records)
    ensures s.records[0].tag.artist == Some("B")
    ensures !s.modified && !s.Clean()
  {
    var script := [SingleEdit.EditText(Artist, "B"), SingleEdit.Exit("y")];
    ghost var start := SingleEdit.Start(s.records[0], s.disk[0]);
    ghost var edited := SingleEdit.Step(start, script[0]);
    assert TagsOf(s.records[..])[0] == s.disk[0];
    assert edited.file.tag.artist == Some("B") && edited.disk == s.disk[0] && !edited.exited;
    assert Confirmed("y");
    assert SingleEdit.RunScript(start, script) == SingleEdit.RunScript(SingleEdit.Step(edited.(status := Clear), script[1]), []);
    s.EditOne(0, script);
    assert TagsOf(s.records[..])[0] != s.disk[0];
  }
}
