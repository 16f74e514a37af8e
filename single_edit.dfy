/** The single-file editor: a menu loop over one record with a dirty flag, a one-shot
    status line, Save and an unsaved-changes guard on Exit. */
module SingleEdit {
  import opened Tags
  import opened Prompts

  /** One pass of the menu: the selection made and the answers to the prompts it asks.
      Numbers arrive already parsed, `None` standing for text that is not a number. */
  datatype Command =
    | EditText(field: TextField, input: string)           // 1 title, 2 artist, 3 album artist, 4 album, 7 genre, 8 comment
    | EditYear(year: Option<i32>)                         // 5
    | EditTrack(number: Option<u16>, total: Option<u16>)  // 6: the total is asked only once the number parsed
    | Save(written: bool)                                 // 9: whether the tag store wrote the file
    | Exit(answer: string)                                // 0: the answer to "Are you sure? y/N", asked only when modified
    | Invalid                                             // anything else

  function TextKey(f: TextField): char {
    match f
    case Title => '1'
    case Artist => '2'
    case AlbumArtist => '3'
    case Album => '4'
    case Genre => '7'
    case Comment => '8'
  }

  /** The menu character that chooses each command. */
  predicate Selects(c: char, cmd: Command) {
    match cmd
    case EditText(f, _) => c == TextKey(f)
    case EditYear(_) => c == '5'
    case EditTrack(_, _) => c == '6'
    case Save(_) => c == '9'
    case Exit(_) => c == '0'
    case Invalid => c !in "0123456789"
  }

  /** A selection line that is not exactly one character chooses no command but Invalid. */
  lemma UnparsedSelectionIsInvalid(line: string, cmd: Command)
    requires |line| != 1
    ensures Selects(Selection(line), cmd) <==> cmd.Invalid?
  {
  }

  /** The session state: the record being edited, the tag its file holds (as last read or
      written), the dirty flag, the pending status line, and whether the loop has ended. */
  datatype Single = Single(file: MusicFile, disk: Tag, modified: bool, status: Status, exited: bool)

  function Start(file: MusicFile, disk: Tag): Single {
    Single(file, disk, false, Clear, false)
  }

  function WithTag(s: Single, t: Tag): Single {
    s.(file := s.file.(tag := t))
  }

  /** Genre and comment are written without comparing against the current value. */
  predicate Compared(f: TextField) {
    f != Genre && f != Comment
  }

  /** The compound track edit with each sub-field applied exactly when it changed. */
  function TrackEdit(s: Single, number: Option<u16>, total: Option<u16>): Single {
    match number
    case None => s.(status := NotANumber)
    case Some(n) =>
      var t := s.file.tag;
      var s1 := if t.trackNumber.GetOr(0) != n then WithTag(s, t.(trackNumber := Some(n))).(modified := true) else s;
      match total
      case None => s1.(status := NotANumber)
      case Some(m) =>
        if t.totalTracks.GetOr(0) != m then WithTag(s1, s1.file.tag.(totalTracks := Some(m))).(modified := true) else s1
  }

  /** The compound track edit as the source writes it: the second test repeats the track
      number comparison, so the total is written only when the number did NOT change. */
  function TrackEditAsWritten(s: Single, number: Option<u16>, total: Option<u16>): Single {
    match number
    case None => s.(status := NotANumber)
    case Some(n) =>
      var t := s.file.tag;
      var s1 := if t.trackNumber.GetOr(0) != n then WithTag(s, t.(trackNumber := Some(n))).(modified := true) else s;
      match total
      case None => s1.(status := NotANumber)
      case Some(m) =>
        if t.trackNumber.GetOr(0) != n then s1 else WithTag(s1, s1.file.tag.(totalTracks := Some(m))).(modified := true)
  }

  /** One menu command applied to a state whose status was just shown and cleared. */
  function Step(s: Single, cmd: Command): Single {
    match cmd
    case EditText(f, input) =>
      if Compared(f) && Current(GetText(s.file.tag, f)) == input then s
      else WithTag(s, SetText(s.file.tag, f, input)).(modified := true)
    case EditYear(y) =>
      (match y
       case None => s.(status := NotANumber)
       case Some(v) =>
         if s.file.tag.year.GetOr(0) == v then s
         else WithTag(s, s.file.tag.(year := Some(v))).(modified := true))
    case EditTrack(n, t) => TrackEdit(s, n, t)
    case Save(ok) =>
      if ok then s.(disk := s.file.tag, modified := false, status := SaveSuccessful)
      else s.(status := FileWriteWarning)
    case Exit(answer) =>
      if !s.modified || Confirmed(answer) then s.(exited := true) else s
    case Invalid => s
  }

  /** The menu loop over a script of commands: each pass shows and clears the status, then
      applies one command; the loop ends at an Exit that is allowed to leave, or when the
      script runs out. */
  function RunScript(s: Single, script: seq<Command>): Single
    decreases |script|
  {
    if script == [] || s.exited then s
    else RunScript(Step(s.(status := Clear), script[0]), script[1..])
  }

  /** The unsaved-changes guard is sound: a session that is not marked modified holds exactly
      what its file holds. */
  predicate Clean(s: Single) {
    !s.modified ==> s.file.tag == s.disk
  }

  // ---- the edit arms ----

  /** Re-entering the value offered for editing changes nothing: no field write, no dirty mark. */
  lemma ReenteredTextIsNoOp(s: Single, f: TextField)
    requires Compared(f)
    ensures Step(s, EditText(f, Current(GetText(s.file.tag, f)))) == s
  {
  }

  /** A compared text edit with a new value (and every genre or comment edit) writes exactly that
      field and marks the session modified. An absent field offered as "" stays absent when "" is
      submitted. */
  lemma TextEditWritesOneField(s: Single, f: TextField, input: string)
    requires !Compared(f) || Current(GetText(s.file.tag, f)) != input
    ensures var r := Step(s, EditText(f, input));
      && r.file.tag == SetText(s.file.tag, f, input)
      && GetText(r.file.tag, f) == Some(input)
      && (forall g: TextField :: g != f ==> GetText(r.file.tag, g) == GetText(s.file.tag, g))
      && r.modified
      && r.disk == s.disk && r.status == s.status && r.file.path == s.file.path
  {
  }

  /** A year that is not a number reports it and changes nothing else; the displayed year
      (absent reads as 0) is a no-op; any other year is written and marks the session modified. */
  lemma YearEdit(s: Single, y: Option<i32>)
    ensures y.None? ==> Step(s, EditYear(y)) == s.(status := NotANumber)
    ensures y == Some(s.file.tag.year.GetOr(0)) ==> Step(s, EditYear(y)) == s
    ensures y.Some? && y.value != s.file.tag.year.GetOr(0) ==>
      Step(s, EditYear(y)) == WithTag(s, s.file.tag.(year := y)).(modified := true)
  {
  }

  /** A track number that is not a number changes nothing but the status. */
  lemma TrackNumberUnparsed(s: Single, total: Option<u16>)
    ensures TrackEdit(s, None, total) == s.(status := NotANumber)
    ensures TrackEditAsWritten(s, None, total) == s.(status := NotANumber)
  {
  }

  /** Each sub-field of the track edit is written exactly when its answer differs from the
      displayed value, and the session becomes modified exactly when one of them was written. */
  lemma TrackEditApplied(s: Single, n: u16, m: u16)
    ensures var r := TrackEdit(s, Some(n), Some(m));
      var t := s.file.tag;
      && r.file.tag == t.(trackNumber := if t.trackNumber.GetOr(0) != n then Some(n) else t.trackNumber,
                          totalTracks := if t.totalTracks.GetOr(0) != m then Some(m) else t.totalTracks)
      && r.modified == (s.modified || t.trackNumber.GetOr(0) != n || t.totalTracks.GetOr(0) != m)
      && r.status == s.status && r.disk == s.disk && r.exited == s.exited
  {
  }

  /** A total that is not a number keeps a track number already written and reports the error. */
  lemma TrackTotalUnparsed(s: Single, n: u16)
    ensures var t := s.file.tag;
      var r := TrackEdit(s, Some(n), None);
      && r.status == NotANumber
      && (t.trackNumber.GetOr(0) != n ==> r.file.tag == t.(trackNumber := Some(n)) && r.modified)
      && (t.trackNumber.GetOr(0) == n ==> r == s.(status := NotANumber))
    ensures TrackEditAsWritten(s, Some(n), None) == TrackEdit(s, Some(n), None)
  {
  }

  /** As written: once the track number changes, the total answer is discarded; when the number
      is re-entered unchanged, the total is written and the session marked modified even when the
      total is re-entered unchanged too. */
  lemma TrackEditAsWrittenBehaviour(s: Single, n: u16, m: u16)
    ensures var t := s.file.tag;
      var r := TrackEditAsWritten(s, Some(n), Some(m));
      && (t.trackNumber.GetOr(0) != n ==> r.file.tag == t.(trackNumber := Some(n)) && r.modified && r.status == s.status)
      && (t.trackNumber.GetOr(0) == n ==> r.file.tag == t.(totalTracks := Some(m)) && r.modified && r.status == s.status)
  {
  }

  function TrackFile(number: u16, total: u16): MusicFile {
    MusicFile("track.mp3", Tag(None, None, None, None, None, Some(number), Some(total), None, None))
  }

  /** Track 1 of 10, answered "2" then "12": as written the total stays 10; corrected it is 12.
      Answered "1" then "10": as written the session is marked modified with nothing changed. */
  lemma TrackEditAsWrittenLosesTotal()
    ensures var s := Start(TrackFile(1, 10), TrackFile(1, 10).tag);
      && TrackEditAsWritten(s, Some(2), Some(12)).file.tag.totalTracks == Some(10)
      && TrackEdit(s, Some(2), Some(12)).file.tag.totalTracks == Some(12)
      && TrackEditAsWritten(s, Some(1), Some(10)).modified
      && TrackEditAsWritten(s, Some(1), Some(10)).file == s.file
      && TrackEdit(s, Some(1), Some(10)) == s
  {
  }

  // ---- save and exit ----

  /** Save clears the flag only when the write succeeded; a failed write keeps it and warns.
      The session stays in its loop either way. */
  lemma SaveOutcome(s: Single, ok: bool)
    ensures var r := Step(s, Save(ok));
      && !r.exited == !s.exited && r.file == s.file
      && (ok ==> !r.modified && r.disk == s.file.tag && r.status == SaveSuccessful)
      && (!ok ==> r.modified == s.modified && r.disk == s.disk && r.status == FileWriteWarning)
  {
  }

  /** Exit leaves at once when nothing is modified; otherwise only on a lone y or Y; any other
      answer returns to the menu with the state untouched. */
  lemma ExitOutcome(s: Single, answer: string)
    ensures Step(s, Exit(answer)).exited <==> s.exited || !s.modified || answer == "y" || answer == "Y"
    ensures !Step(s, Exit(answer)).exited ==> Step(s, Exit(answer)) == s
    ensures Step(s, Exit(answer)).exited ==> Step(s, Exit(answer)) == s.(exited := true)
  {
    ConfirmedExactly(answer);
  }

  /** An unrecognised selection changes no state. */
  lemma InvalidIsNoOp(s: Single)
    ensures Step(s, Invalid) == s
  {
  }

  /** The file is written only by a successful Save. */
  lemma OnlySaveWrites(s: Single, cmd: Command)
    requires Step(s, cmd).disk != s.disk
    ensures cmd == Save(true)
  {
  }

  // ---- invariants of the loop ----

  lemma StepKeepsClean(s: Single, cmd: Command)
    requires Clean(s)
    ensures Clean(Step(s, cmd))
    ensures Step(s, cmd).file.path == s.file.path
  {
  }

  /** Across any run the guard stays sound and the record keeps its path, so an Exit taken
      without confirmation never leaves unsaved edits behind. */
  lemma {:induction false} RunKeepsClean(s: Single, script: seq<Command>)
    requires Clean(s)
    ensures Clean(RunScript(s, script))
    ensures RunScript(s, script).file.path == s.file.path
    decreases |script|
  {
    if script != [] && !s.exited {
      StepKeepsClean(s.(status := Clear), script[0]);
      RunKeepsClean(Step(s.(status := Clear), script[0]), script[1..]);
    }
  }

  /** One menu command as the source runs it: arm 6 repeats the track number test (see
      `TrackEditAsWritten`); every other arm is the same as in `Step`. */
  function StepAsWritten(s: Single, cmd: Command): Single {
    match cmd
    case EditTrack(n, t) => TrackEditAsWritten(s, n, t)
    case _ => Step(s, cmd)
  }

  /** The menu loop over a script with the arms as the source runs them. */
  function RunScriptAsWritten(s: Single, script: seq<Command>): Single
    decreases |script|
  {
    if script == [] || s.exited then s
    else RunScriptAsWritten(StepAsWritten(s.(status := Clear), script[0]), script[1..])
  }

  /** The two forms differ only in the track edit. */
  lemma StepAsWrittenDiffersOnlyInTrack(s: Single, cmd: Command)
    requires !cmd.EditTrack?
    ensures StepAsWritten(s, cmd) == Step(s, cmd)
  {
  }

  /** The guard is sound under the arms as written too: the repeated test loses a total, but
      never marks a session clean that holds unsaved edits. */
  lemma StepAsWrittenKeepsClean(s: Single, cmd: Command)
    requires Clean(s)
    ensures Clean(StepAsWritten(s, cmd))
    ensures StepAsWritten(s, cmd).file.path == s.file.path
  {
    if !cmd.EditTrack? {
      StepKeepsClean(s, cmd);
    }
  }

  lemma {:induction false} RunAsWrittenKeepsClean(s: Single, script: seq<Command>)
    requires Clean(s)
    ensures Clean(RunScriptAsWritten(s, script))
    ensures RunScriptAsWritten(s, script).file.path == s.file.path
    decreases |script|
  {
    if script != [] && !s.exited {
      StepAsWrittenKeepsClean(s.(status := Clear), script[0]);
      RunAsWrittenKeepsClean(StepAsWritten(s.(status := Clear), script[0]), script[1..]);
    }
  }

  /** A run that ended at an Exit taken without a confirming answer left nothing unsaved. */
  lemma UnconfirmedExitLosesNothing(s: Single, answer: string)
    requires Clean(s) && !s.exited
    requires Step(s, Exit(answer)).exited && !Confirmed(answer)
    ensures s.file.tag == s.disk
  {
  }

  /** Once the loop has ended no further command has any effect. */
  lemma {:induction false} RunStopsAtExit(s: Single, a: seq<Command>, b: seq<Command>)
    requires RunScript(s, a).exited
    ensures RunScript(s, a + b) == RunScript(s, a)
    decreases |a|
  {
    if a == [] {
      assert a + b == b;
    } else if !s.exited {
      assert (a + b)[0] == a[0] && (a + b)[1..] == a[1..] + b;
      RunStopsAtExit(Step(s.(status := Clear), a[0]), a[1..], b);
    }
  }

  /** The editing loop of one file. The record is held by value; a caller that owns the
      record list stores `file` back into its slot afterwards. */
  class SingleSession {
    var file: MusicFile
    ghost var disk: Tag
    var modified: bool
    var status: Status
    var exited: bool

    ghost function State(): Single
      reads this
    {
      Single(file, disk, modified, status, exited)
    }

    constructor (file: MusicFile, ghost disk: Tag)
      ensures State() == Start(file, disk)
    {
      this.file := file;
      this.disk := disk;
      modified := false;
      status := Clear;
      exited := false;
    }

    /** The top of each pass: the pending status is shown once, then cleared. */
    method Render() returns (shown: string)
      modifies this
      ensures shown == old(status).Text()
      ensures State() == old(State()).(status := Clear)
    {
      shown := status.Text();
      status := Clear;
    }

    /** One arm of the menu. */
    method Apply(cmd: Command)
      requires !exited
      modifies this
      ensures State() == Step(old(State()), cmd)
    {
      match cmd
      case EditText(f, input) =>
        if Compared(f) && Current(GetText(file.tag, f)) == input {
          return;
        }
        file := file.(tag := SetText(file.tag, f, input));
        modified := true;
      case EditYear(y) =>
        if y.None? {
          status := NotANumber;
          return;
        }
        if file.tag.year.GetOr(0) == y.value {
          return;
        }
        file := file.(tag := file.tag.(year := y));
        modified := true;
      case EditTrack(number, total) =>
        if number.None? {
          status := NotANumber;
          return;
        }
        var oldNumber := file.tag.trackNumber.GetOr(0);
        if oldNumber != number.value {
          file := file.(tag := file.tag.(trackNumber := number));
          modified := true;
        }
        var oldTotal := file.tag.totalTracks.GetOr(0);
        if total.None? {
          status := NotANumber;
          return;
        }
        if oldTotal == total.value {
          return;
        }
        file := file.(tag := file.tag.(totalTracks := total));
        modified := true;
      case Save(written) =>
        if written {
          disk := file.tag;
          modified := false;
          status := SaveSuccessful;
        } else {
          status := FileWriteWarning;
        }
      case Exit(answer) =>
        if !modified || Confirmed(answer) {
          exited := true;
        }
      case Invalid =>
    }

    /** The menu loop, driven by a script of commands. */
    method Run(script: seq<Command>)
      modifies this
      ensures State() == RunScript(old(State()), script)
    {
      var i := 0;
      while i < |script| && !exited
        invariant 0 <= i <= |script|
        invariant RunScript(old(State()), script) == RunScript(State(), script[i..])
      {
        assert script[i..][0] == script[i] && script[i..][1..] == script[i + 1..];
        var shown := Render();
        Apply(script[i]);
        i := i + 1;
      }
    }
  }
}
