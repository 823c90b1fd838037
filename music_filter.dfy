/** Which directory entries the transfer treats as music files: the list of
    recognised extensions, the glob pattern built from it, and the filter that
    pattern stands for. */
module MusicFilter {
  import opened FileNames

  /** The recognised music filename extensions, in their declared order. */
  const Formats: seq<string> := ["flac", "mp3", "wav", "ape", "wma", "ogg", "aac", "aiff"]

  /** The entries of `parts` separated by single commas. */
  function Join(parts: seq<string>): string {
    if parts == [] then ""
    else if |parts| == 1 then parts[0]
    else parts[0] + "," + Join(parts[1..])
  }

  /** The comma-separated fields of `s`; the inverse of `Join`. */
  function Split(s: string): (fields: seq<string>)
    ensures fields != []
    decreases |s|
  {
    var i := IndexOf(s, ',');
    if i == -1 then [s] else [s[..i]] + Split(s[i + 1..])
  }

  /** Appending one more entry appends a comma and that entry. */
  lemma {:induction false} JoinAppend(parts: seq<string>, x: string)
    requires parts != []
    ensures Join(parts + [x]) == Join(parts) + "," + x
  {
    if |parts| == 1 {
      assert parts + [x] == [parts[0], x];
      assert [parts[0], x][1..] == [x];
    } else {
      assert (parts + [x])[1..] == parts[1..] + [x];
      JoinAppend(parts[1..], x);
    }
  }

  /** Round trip: when no entry holds a comma, splitting the joined text at its
      commas gives back exactly the entries, in order. */
  lemma {:induction false} SplitJoin(parts: seq<string>)
    requires parts != []
    requires forall k :: 0 <= k < |parts| ==> ',' !in parts[k]
    ensures Split(Join(parts)) == parts
  {
    if |parts| > 1 {
      var s := Join(parts);
      assert s == parts[0] + "," + Join(parts[1..]);
      assert s[|parts[0]|] == ',';
      assert s[..|parts[0]|] == parts[0];
      assert IndexOf(s, ',') == |parts[0]|;
      assert s[|parts[0]| + 1..] == Join(parts[1..]);
      SplitJoin(parts[1..]);
    }
  }

  /** No recognised extension holds a space, a dot or a comma. */
  lemma FormatsArePlain()
    ensures forall k :: 0 <= k < |Formats| ==>
      ' ' !in Formats[k] && '.' !in Formats[k] && ',' !in Formats[k]
  {
  }

  /** getFilenameFilter: `*.{`, the extensions separated by commas, then `}`. */
  method FilenameFilter() returns (pattern: string)
    ensures pattern == "*.{" + Join(Formats) + "}"
  {
    var sb := "*.{";
    for i := 0 to |Formats|
      invariant i == 0 ==> sb == "*.{"
      invariant 0 < i ==> sb == "*.{" + Join(Formats[..i])
    {
      if i != 0 {
        sb := sb + ",";
      }
      sb := sb + Formats[i];
      if 0 < i {
        JoinAppend(Formats[..i], Formats[i]);
        assert Formats[..i + 1] == Formats[..i] + [Formats[i]];
      } else {
        assert Formats[..1] == [Formats[0]];
      }
    }
    assert Formats[..|Formats|] == Formats;
    pattern := sb + "}";
  }

  /** The braces of the pattern list exactly the recognised extensions, in order. */
  lemma FilterListsFormats()
    ensures Split(Join(Formats)) == Formats
  {
    FormatsArePlain();
    SplitJoin(Formats);
  }

  /** What the glob `*.{flac,...,aiff}` accepts: a name that ends with a dot and
      one of the recognised extensions (compared case-sensitively). */
  predicate IsMusicFile(name: string): (r: bool)
    ensures r ==> '.' in name
  {
    if exists k | 0 <= k < |Formats| :: EndsWith(name, "." + Formats[k]) then
      SuffixDot(name);
      true
    else false
  }

  /** A name ending with a dot and an extension holds a dot. */
  lemma SuffixDot(name: string)
    requires exists k | 0 <= k < |Formats| :: EndsWith(name, "." + Formats[k])
    ensures '.' in name
  {
    var k :| 0 <= k < |Formats| && EndsWith(name, "." + Formats[k]);
    var d := "." + Formats[k];
    assert name[|name| - |d|] == d[0];
  }

  /** The directory entries that pass the glob, in listing order. Its own
      contract is only a bound; `MusicFilesMembers` and `MusicFilesAppend`
      state which entries it keeps. */
  function MusicFiles(listing: seq<string>): (files: seq<string>)
    ensures |files| <= |listing|
  {
    if listing == [] then []
    else (if IsMusicFile(listing[0]) then [listing[0]] else []) + MusicFiles(listing[1..])
  }

  /** The music files are exactly the entries of the listing that pass the glob. */
  lemma {:induction false} MusicFilesMembers(listing: seq<string>)
    ensures forall f :: f in MusicFiles(listing) <==> f in listing && IsMusicFile(f)
  {
    if listing != [] {
      MusicFilesMembers(listing[1..]);
      assert forall f :: f in listing <==> f == listing[0] || f in listing[1..];
    }
  }

  /** Filtering a concatenation filters each part. */
  lemma {:induction false} MusicFilesAppend(a: seq<string>, b: seq<string>)
    ensures MusicFiles(a + b) == MusicFiles(a) + MusicFiles(b)
  {
    if a != [] {
      assert (a + b)[1..] == a[1..] + b;
      MusicFilesAppend(a[1..], b);
    } else {
      assert a + b == b;
    }
  }

  /** A listing of one entry that does not pass the glob has no music files. */
  lemma MusicFilesSingle(x: string)
    requires !IsMusicFile(x)
    ensures MusicFiles([x]) == []
  {
    assert [x][1..] == [];
  }

  /** An entry that does not pass the glob, standing between two parts of a
      listing, adds nothing to its music files. */
  lemma MusicFilesBetween(a: seq<string>, x: string, b: seq<string>)
    requires !IsMusicFile(x)
    ensures MusicFiles(a + [x] + b) == MusicFiles(a + b)
  {
    MusicFilesSingle(x);
    MusicFilesAppend(a, [x]);
    MusicFilesAppend(a + [x], b);
    MusicFilesAppend(a, b);
  }

  /** An entry that does not pass the glob, inserted anywhere, leaves the music
      files as they were. */
  lemma MusicFilesSkip(listing: seq<string>, k: nat, x: string)
    requires k <= |listing| && !IsMusicFile(x)
    ensures MusicFiles(listing[..k] + [x] + listing[k..]) == MusicFiles(listing)
  {
    MusicFilesBetween(listing[..k], x, listing[k..]);
    assert listing[..k] + listing[k..] == listing;
  }

  /** A music file that parses has one of the recognised extensions as its
      extension: the last dot of the name is the one before the extension. */
  lemma MusicFileExtension(f: string)
    requires IsMusicFile(f) && Parse(f).Success?
    ensures Parse(f).value.ext in Formats
  {
    var k :| 0 <= k < |Formats| && EndsWith(f, "." + Formats[k]);
    FormatsArePlain();
    ExtensionFromSuffix(f, Formats[k]);
  }

  /** A filename whose extension is recognised passes the glob. */
  lemma MusicFileByExtension(t: TrackFile)
    requires t.ext in Formats
    ensures IsMusicFile(Reassemble(t))
  {
    var k :| 0 <= k < |Formats| && Formats[k] == t.ext;
    var s := Reassemble(t);
    assert s == (t.prefix + " " + t.name) + ("." + t.ext);
    assert EndsWith(s, "." + Formats[k]);
  }
}
