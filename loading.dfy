/** Building the working set: every entry the tag store decodes becomes a record,
    in order; everything else is skipped without stopping the load. */
module Loading {
  import opened Tags

  /** What the tag store reports for one path. */
  datatype ReadResult = Decoded(tag: Tag) | Undecodable

  /** One directory entry or command-line argument, as the loader sees it. */
  datatype Entry =
    | Unlisted                                  // the directory listing yielded an error
    | NotAFile(path: string)                    // a sub-directory, or an argument that is not a file
    | Candidate(path: string, read: ReadResult) // a file, with the outcome of reading its tag

  predicate Loads(e: Entry) {
    e.Candidate? && e.read.Decoded?
  }

  /** The records a load keeps from `entries`. */
  function Kept(entries: seq<Entry>): seq<MusicFile>
    decreases |entries|
  {
    if entries == [] then []
    else
      var e := entries[|entries| - 1];
      Kept(entries[..|entries| - 1]) + (if Loads(e) then [MusicFile(e.path, e.read.tag)] else [])
  }

  /** The number of entries that decode. */
  function Decodable(entries: seq<Entry>): nat
    decreases |entries|
  {
    if entries == [] then 0
    else Decodable(entries[..|entries| - 1]) + (if Loads(entries[|entries| - 1]) then 1 else 0)
  }

  /** The loading loops (directory and argument list alike): push each decoded entry. */
  method LoadMusicFiles(entries: seq<Entry>) returns (files: seq<MusicFile>)
    ensures files == Kept(entries)
  {
    files := [];
    for i := 0 to |entries|
      invariant files == Kept(entries[..i])
    {
      assert entries[..i + 1][..i] == entries[..i];
      var e := entries[i];
      match e
      case Unlisted =>
      case NotAFile(_) =>
      case Candidate(p, r) =>
        match r
        case Undecodable =>
        case Decoded(t) =>
          files := files + [MusicFile(p, t)];
    }
    assert entries[..|entries|] == entries;
  }

  /** Loading is compositional: the records of a concatenation are the records of each part. */
  lemma {:induction false} KeptAppend(a: seq<Entry>, b: seq<Entry>)
    ensures Kept(a + b) == Kept(a) + Kept(b)
    decreases |b|
  {
    if b == [] {
      assert a + b == a;
    } else {
      var b' := b[..|b| - 1];
      assert (a + b)[..|a + b| - 1] == a + b';
      KeptAppend(a, b');
    }
  }

  /** N decodable entries give exactly N records, whatever else the input holds. */
  lemma {:induction false} KeptSize(entries: seq<Entry>)
    ensures |Kept(entries)| == Decodable(entries) <= |entries|
    decreases |entries|
  {
    if entries != [] {
      KeptSize(entries[..|entries| - 1]);
    }
  }

  /** Every record comes from a decodable entry with the same path and tag. */
  lemma {:induction false} KeptSound(entries: seq<Entry>, f: MusicFile)
    requires f in Kept(entries)
    ensures Candidate(f.path, Decoded(f.tag)) in entries
    decreases |entries|
  {
    var init := entries[..|entries| - 1];
    if f in Kept(init) {
      KeptSound(init, f);
      assert init[|init| - 1] == entries[|init| - 1];
      assert exists i :: 0 <= i < |init| && init[i] == Candidate(f.path, Decoded(f.tag));
    } else {
      assert entries[|entries| - 1] == Candidate(f.path, Decoded(f.tag));
    }
  }

  /** Every decodable entry is loaded. */
  lemma {:induction false} KeptComplete(entries: seq<Entry>, p: string, t: Tag)
    requires Candidate(p, Decoded(t)) in entries
    ensures MusicFile(p, t) in Kept(entries)
    decreases |entries|
  {
    var init := entries[..|entries| - 1];
    if entries[|entries| - 1] != Candidate(p, Decoded(t)) {
      var i :| 0 <= i < |entries| && entries[i] == Candidate(p, Decoded(t));
      assert init[i] == entries[i];
      KeptComplete(init, p, t);
    }
  }
}
