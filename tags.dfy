/** The in-memory data model: a music file is a path bound to a decoded tag
    of nine optional fields. */
module Tags {

  datatype Option<+T> = None | Some(value: T) {
    /** The wrapped value, or `default` when absent (Rust's `unwrap_or`). */
    function GetOr(default: T): T {
      match this
      case Some(v) => v
      case None => default
    }
  }

  /** Rust's `u16` (track number and total tracks). */
  type u16 = x: int | 0 <= x < 0x1_0000
  /** Rust's `i32` (year). */
  type i32 = x: int | -0x8000_0000 <= x < 0x8000_0000

  const MaxU16: int := 0xFFFF

  /** The decoded field set of one file; every field may be absent. */
  datatype Tag = Tag(
    title: Option<string>,
    artist: Option<string>,
    albumArtist: Option<string>,
    album: Option<string>,
    year: Option<i32>,
    trackNumber: Option<u16>,
    totalTracks: Option<u16>,
    genre: Option<string>,
    comment: Option<string>)

  /** A file path bound to the tag read from it. */
  datatype MusicFile = MusicFile(path: string, tag: Tag)

  /** The six text fields of a tag. */
  datatype TextField = Title | Artist | AlbumArtist | Album | Genre | Comment

  /** Display text for an absent text field. */
  const NoneText: string := "<none>"

  function GetText(t: Tag, f: TextField): Option<string> {
    match f
    case Title => t.title
    case Artist => t.artist
    case AlbumArtist => t.albumArtist
    case Album => t.album
    case Genre => t.genre
    case Comment => t.comment
  }

  /** The tag setter for a text field: that field becomes `v`, nothing else moves. */
  function SetText(t: Tag, f: TextField, v: string): (r: Tag)
    ensures GetText(r, f) == Some(v)
    ensures forall g: TextField :: g != f ==> GetText(r, g) == GetText(t, g)
    ensures r.year == t.year && r.trackNumber == t.trackNumber && r.totalTracks == t.totalTracks
  {
    match f
    case Title => t.(title := Some(v))
    case Artist => t.(artist := Some(v))
    case AlbumArtist => t.(albumArtist := Some(v))
    case Album => t.(album := Some(v))
    case Genre => t.(genre := Some(v))
    case Comment => t.(comment := Some(v))
  }

  /** A text field as offered for editing: absent is the empty string. */
  function Current(o: Option<string>): string {
    o.GetOr("")
  }

  /** A text field as listed in a group view: absent is `<none>`. */
  function Shown(o: Option<string>): string {
    o.GetOr(NoneText)
  }

  /** One write applied to every record by a batch edit. */
  datatype TagUpdate =
    | SetTextTo(field: TextField, text: string)
    | SetYearTo(year: i32)
    | SetTotalTracksTo(total: u16)

  function Update(t: Tag, u: TagUpdate): (r: Tag)
    ensures u.SetYearTo? ==> r == t.(year := Some(u.year))
    ensures u.SetTotalTracksTo? ==> r == t.(totalTracks := Some(u.total))
    ensures u.SetTextTo? ==> r == SetText(t, u.field, u.text)
    ensures u.SetTextTo? ==>
      && GetText(r, u.field) == Some(u.text)
      && (forall g: TextField :: g != u.field ==> GetText(r, g) == GetText(t, g))
      && r.year == t.year && r.trackNumber == t.trackNumber && r.totalTracks == t.totalTracks
  {
    match u
    case SetTextTo(f, v) => SetText(t, f, v)
    case SetYearTo(y) => t.(year := Some(y))
    case SetTotalTracksTo(n) => t.(totalTracks := Some(n))
  }

  /** Every record with `u` applied to its tag, paths and order kept. */
  function UpdateAll(files: seq<MusicFile>, u: TagUpdate): (r: seq<MusicFile>)
    ensures |r| == |files|
    ensures forall i :: 0 <= i < |files| ==> r[i].path == files[i].path && r[i].tag == Update(files[i].tag, u)
  {
    seq(|files|, i requires 0 <= i < |files| => files[i].(tag := Update(files[i].tag, u)))
  }

  /** The tags of a sequence of records. */
  function TagsOf(files: seq<MusicFile>): (r: seq<Tag>)
    ensures |r| == |files| && forall i :: 0 <= i < |files| ==> r[i] == files[i].tag
  {
    seq(|files|, i requires 0 <= i < |files| => files[i].tag)
  }
}
