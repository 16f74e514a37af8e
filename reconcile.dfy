/** The group view of a batch: one value per shared field, or a sentinel where
    the records disagree. */
module Reconciliation {
  import opened Tags

  /** The sentinel of a shared text field whose records disagree. */
  const Differs: string := "<differs>"

  /** The shared fields as the batch menu shows them; `0` is the numeric sentinel. */
  datatype GroupView = GroupView(artist: string, albumArtist: string, album: string, year: i32, totalTracks: u16)

  /** The value each record contributes to the comparison of one shared field. */
  function ArtistKey(f: MusicFile): string { Shown(f.tag.artist) }
  function AlbumArtistKey(f: MusicFile): string { Shown(f.tag.albumArtist) }
  function AlbumKey(f: MusicFile): string { Shown(f.tag.album) }
  function YearKey(f: MusicFile): i32 { f.tag.year.GetOr(0) }
  function TotalTracksKey(f: MusicFile): u16 { f.tag.totalTracks.GetOr(0) }

  /** One comparison of the reconciliation loop: a group value that is not yet the
      sentinel collapses to it on the first record that differs. */
  function Collapse<T(==)>(sentinel: T, g: T, v: T): T {
    if g != sentinel && v != g then sentinel else g
  }

  /** The reconciled value of one field: seeded from record 0, then each later record
      compared in order. */
  function Agreed<T(==)>(sentinel: T, key: MusicFile -> T, files: seq<MusicFile>): T
    requires |files| > 0
    decreases |files|
  {
    if |files| == 1 then key(files[0])
    else Collapse(sentinel, Agreed(sentinel, key, files[..|files| - 1]), key(files[|files| - 1]))
  }

  predicate AllAgree<T(==)>(key: MusicFile -> T, files: seq<MusicFile>)
    requires |files| > 0
  {
    forall i :: 0 <= i < |files| ==> key(files[i]) == key(files[0])
  }

  /** The group view of a non-empty record list. */
  function GroupOf(files: seq<MusicFile>): GroupView
    requires |files| > 0
  {
    GroupView(
      Agreed(Differs, ArtistKey, files),
      Agreed(Differs, AlbumArtistKey, files),
      Agreed(Differs, AlbumKey, files),
      Agreed(0, YearKey, files),
      Agreed(0, TotalTracksKey, files))
  }

  /** The reconciliation loop run at the start of a batch session. */
  method Reconcile(files: array<MusicFile>) returns (g: GroupView)
    requires files.Length > 0
    ensures g == GroupOf(files[..])
  {
    var t := files[0].tag;
    var artist := Shown(t.artist);
    var albumArtist := Shown(t.albumArtist);
    var album := Shown(t.album);
    var year := t.year.GetOr(0);
    var totalTracks := t.totalTracks.GetOr(0);
    for i := 1 to files.Length
      invariant GroupView(artist, albumArtist, album, year, totalTracks) == GroupOf(files[..i])
    {
      assert files[..i + 1][..i] == files[..i];
      t := files[i].tag;
      if artist != Differs && Shown(t.artist) != artist {
        artist := Differs;
      }
      if albumArtist != Differs && Shown(t.albumArtist) != albumArtist {
        albumArtist := Differs;
      }
      if album != Differs && Shown(t.album) != album {
        album := Differs;
      }
      if year != 0 && t.year.GetOr(0) != year {
        year := 0;
      }
      if totalTracks != 0 && t.totalTracks.GetOr(0) != totalTracks {
        totalTracks := 0;
      }
    }
    assert files[..files.Length] == files[..];
    g := GroupView(artist, albumArtist, album, year, totalTracks);
  }

  /** A field's reconciled value is record 0's when every record agrees with it, and the
      sentinel otherwise. */
  lemma {:induction false} AgreedSpec<T>(sentinel: T, key: MusicFile -> T, files: seq<MusicFile>)
    requires |files| > 0
    ensures Agreed(sentinel, key, files) == if AllAgree(key, files) then key(files[0]) else sentinel
    decreases |files|
  {
    if |files| > 1 {
      var init := files[..|files| - 1];
      AgreedSpec(sentinel, key, init);
      assert init[0] == files[0];
      if !AllAgree(key, init) {
        var i :| 0 <= i < |init| && key(init[i]) != key(init[0]);
        assert files[i] == init[i];
      } else if AllAgree(key, files) {
        assert key(files[|files| - 1]) == key(files[0]);
      }
    }
  }

  /** Collapse-once: a field that is the sentinel after some prefix of the records stays the
      sentinel for the rest of the pass. In particular a seed equal to the sentinel is final. */
  lemma SentinelAbsorbs<T>(sentinel: T, key: MusicFile -> T, files: seq<MusicFile>, k: nat)
    requires 1 <= k <= |files|
    requires Agreed(sentinel, key, files[..k]) == sentinel
    ensures Agreed(sentinel, key, files) == sentinel
  {
    var prefix := files[..k];
    AgreedSpec(sentinel, key, prefix);
    AgreedSpec(sentinel, key, files);
    assert prefix[0] == files[0];
    if !AllAgree(key, prefix) {
      var i :| 0 <= i < |prefix| && key(prefix[i]) != key(prefix[0]);
      assert files[i] == prefix[i];
    }
  }

  /** Records whose keys agree pointwise reconcile to the same value. */
  lemma AgreedSameKeys<T>(sentinel: T, key: MusicFile -> T, a: seq<MusicFile>, b: seq<MusicFile>)
    requires |a| == |b| > 0
    requires forall i :: 0 <= i < |a| ==> key(a[i]) == key(b[i])
    ensures Agreed(sentinel, key, a) == Agreed(sentinel, key, b)
  {
    AgreedSpec(sentinel, key, a);
    AgreedSpec(sentinel, key, b);
  }

  /** Records that all carry `v` reconcile to `v`. */
  lemma AgreedConstant<T>(sentinel: T, key: MusicFile -> T, files: seq<MusicFile>, v: T)
    requires |files| > 0
    requires forall i :: 0 <= i < |files| ==> key(files[i]) == v
    ensures Agreed(sentinel, key, files) == v
  {
    AgreedSpec(sentinel, key, files);
  }

  lemma AllAgreeTransfer<T>(key: MusicFile -> T, a: seq<MusicFile>, b: seq<MusicFile>)
    requires |a| > 0 && multiset(a) == multiset(b)
    requires AllAgree(key, a)
    ensures |b| > 0 && AllAgree(key, b) && key(b[0]) == key(a[0])
  {
    assert |b| == |multiset(b)| == |multiset(a)| == |a|;
    forall j | 0 <= j < |b|
      ensures key(b[j]) == key(a[0])
    {
      assert b[j] in multiset(b);
      assert b[j] in multiset(a);
      var i :| 0 <= i < |a| && a[i] == b[j];
    }
  }

  /** Record order does not matter: any rearrangement of the records reconciles to the same value. */
  lemma AgreedOrderFree<T>(sentinel: T, key: MusicFile -> T, a: seq<MusicFile>, b: seq<MusicFile>)
    requires |a| > 0 && multiset(a) == multiset(b)
    ensures |b| > 0 && Agreed(sentinel, key, a) == Agreed(sentinel, key, b)
  {
    assert |b| == |multiset(b)| == |multiset(a)| == |a|;
    AgreedSpec(sentinel, key, a);
    AgreedSpec(sentinel, key, b);
    if AllAgree(key, a) {
      AllAgreeTransfer(key, a, b);
    } else if AllAgree(key, b) {
      AllAgreeTransfer(key, b, a);
    }
  }

  /** The group view, field by field: the common value when all records agree, else the sentinel. */
  lemma GroupOfSpec(files: seq<MusicFile>)
    requires |files| > 0
    ensures GroupOf(files).artist == if AllAgree(ArtistKey, files) then Shown(files[0].tag.artist) else Differs
    ensures GroupOf(files).albumArtist == if AllAgree(AlbumArtistKey, files) then Shown(files[0].tag.albumArtist) else Differs
    ensures GroupOf(files).album == if AllAgree(AlbumKey, files) then Shown(files[0].tag.album) else Differs
    ensures GroupOf(files).year == if AllAgree(YearKey, files) then files[0].tag.year.GetOr(0) else 0
    ensures GroupOf(files).totalTracks == if AllAgree(TotalTracksKey, files) then files[0].tag.totalTracks.GetOr(0) else 0
  {
    AgreedSpec(Differs, ArtistKey, files);
    AgreedSpec(Differs, AlbumArtistKey, files);
    AgreedSpec(Differs, AlbumKey, files);
    AgreedSpec(0, YearKey, files);
    AgreedSpec(0, TotalTracksKey, files);
  }

  lemma GroupOfOrderFree(a: seq<MusicFile>, b: seq<MusicFile>)
    requires |a| > 0 && multiset(a) == multiset(b)
    ensures |b| > 0 && GroupOf(a) == GroupOf(b)
  {
    AgreedOrderFree(Differs, ArtistKey, a, b);
    AgreedOrderFree(Differs, AlbumArtistKey, a, b);
    AgreedOrderFree(Differs, AlbumKey, a, b);
    AgreedOrderFree(0, YearKey, a, b);
    AgreedOrderFree(0, TotalTracksKey, a, b);
  }

  /** The group view after writing `u` into every record: the written field shows exactly the
      new value, the other fields keep theirs. */
  function Regroup(g: GroupView, u: TagUpdate): GroupView {
    match u
    case SetTextTo(f, v) =>
      (match f
       case Artist => g.(artist := v)
       case AlbumArtist => g.(albumArtist := v)
       case Album => g.(album := v)
       case _ => g)
    case SetYearTo(y) => g.(year := y)
    case SetTotalTracksTo(n) => g.(totalTracks := n)
  }

  /** Full convergence: writing `u` into every record moves the recomputed group view exactly as
      `Regroup` says, so no record disagrees on the written field afterwards. */
  lemma GroupAfterUpdate(files: seq<MusicFile>, u: TagUpdate)
    requires |files| > 0
    ensures GroupOf(UpdateAll(files, u)) == Regroup(GroupOf(files), u)
  {
    var files' := UpdateAll(files, u);
    match u {
      case SetTextTo(f, v) =>
        if f == Artist {
          AgreedConstant(Differs, ArtistKey, files', v);
        } else {
          AgreedSameKeys(Differs, ArtistKey, files, files');
        }
        if f == AlbumArtist {
          AgreedConstant(Differs, AlbumArtistKey, files', v);
        } else {
          AgreedSameKeys(Differs, AlbumArtistKey, files, files');
        }
        if f == Album {
          AgreedConstant(Differs, AlbumKey, files', v);
        } else {
          AgreedSameKeys(Differs, AlbumKey, files, files');
        }
        AgreedSameKeys(0, YearKey, files, files');
        AgreedSameKeys(0, TotalTracksKey, files, files');
      case SetYearTo(y) =>
        AgreedSameKeys(Differs, ArtistKey, files, files');
        AgreedSameKeys(Differs, AlbumArtistKey, files, files');
        AgreedSameKeys(Differs, AlbumKey, files, files');
        AgreedConstant(0, YearKey, files', y);
        AgreedSameKeys(0, TotalTracksKey, files, files');
      case SetTotalTracksTo(n) =>
        AgreedSameKeys(Differs, ArtistKey, files, files');
        AgreedSameKeys(Differs, AlbumArtistKey, files, files');
        AgreedSameKeys(Differs, AlbumKey, files, files');
        AgreedSameKeys(0, YearKey, files, files');
        AgreedConstant(0, TotalTracksKey, files', n);
    }
  }

  /** Three records with artists A, A, B show `<differs>`; after setting the artist to C on every
      record, all three carry C and the group view shows C. */
  lemma ThreeArtistsScenario(files: seq<MusicFile>)
    requires |files| == 3
    requires files[0].tag.artist == Some("A") && files[1].tag.artist == Some("A") && files[2].tag.artist == Some("B")
    ensures GroupOf(files).artist == Differs
    ensures forall i :: 0 <= i < 3 ==> UpdateAll(files, SetTextTo(Artist, "C"))[i].tag.artist == Some("C")
    ensures GroupOf(UpdateAll(files, SetTextTo(Artist, "C"))).artist == "C"
  {
    AgreedSpec(Differs, ArtistKey, files);
    assert ArtistKey(files[2]) != ArtistKey(files[0]);
    GroupAfterUpdate(files, SetTextTo(Artist, "C"));
  }
}
