/** The track name transfer: read the track names of a source directory and
    give them to the files of a target directory that carry the same track
    numbers, keeping each target file's own extension. */
module Transfer {
  import opened Wrappers
  import opened FileNames
  import opened MusicFilter

  /** Track number to track name, built for one directory. */
  type Mapping = map<string, string>

  /** One move of a target file: its filename before and after. */
  datatype Rename = Rename(from: string, to: string)

  /** What a run did: the moves performed, in order, and the exception that
      stopped it, if one did. */
  datatype Run = Run(moves: seq<Rename>, failure: Option<ParseError>)

  /** Every filename reads as `TRACK_NO NAME.EXT`. */
  predicate AllParse(files: seq<string>) {
    forall f :: f in files ==> Parse(f).Success?
  }

  /** The track numbers of the given filenames. */
  function Prefixes(files: seq<string>): set<string> {
    set f | f in files :: PrefixOf(f)
  }

  // ----- getMappings -----

  /** The mapping getMappings builds: the files are visited in order and each
      one puts its track number and name, replacing the name an earlier file
      with the same track number put; the first file that does not parse
      aborts the whole build. */
  function MappingsOf(files: seq<string>): (r: Result<Mapping, ParseError>)
    ensures r.Success? ==> |r.value.Keys| <= |files|
    decreases |files|
  {
    if files == [] then Success(map[])
    else
      match MappingsOf(files[..|files| - 1])
      case Failure(e) => Failure(e)
      case Success(m) =>
        match Parse(files[|files| - 1])
        case Failure(e) => Failure(e)
        case Success(t) => Success(m[t.prefix := t.name])
  }

  /** Once a prefix of the files fails to parse, the whole build fails the same way. */
  lemma {:induction false} MappingsFailureSticks(files: seq<string>, k: nat)
    requires k <= |files| && MappingsOf(files[..k]).Failure?
    ensures MappingsOf(files) == MappingsOf(files[..k])
    decreases |files|
  {
    if k < |files| {
      var init := files[..|files| - 1];
      assert init[..k] == files[..k];
      MappingsFailureSticks(init, k);
    } else {
      assert files[..k] == files;
    }
  }

  /** getMappings: a loop that puts each file's track number and name into a
      fresh map, throwing at the first file that does not parse. */
  method GetMappings(files: seq<string>) returns (r: Result<Mapping, ParseError>)
    ensures r == MappingsOf(files)
  {
    var res: Mapping := map[];
    for i := 0 to |files|
      invariant MappingsOf(files[..i]) == Success(res)
    {
      assert files[..i + 1][..i] == files[..i];
      var filename := files[i];
      var splitted := SplitAtFirstSpace(filename);
      if |splitted| < 2 {
        MappingsFailureSticks(files, i + 1);
        return Failure(NoSpace);
      }
      var prefix := splitted[0];
      var dot := LastIndexOf(splitted[1], '.');
      if dot == -1 {
        MappingsFailureSticks(files, i + 1);
        return Failure(NoDot);
      }
      var innerName := splitted[1][..dot];
      res := res[prefix := innerName];
    }
    assert files[..|files|] == files;
    return Success(res);
  }

  /** The build succeeds exactly when every file parses. */
  lemma {:induction false} MappingsSucceed(files: seq<string>)
    ensures MappingsOf(files).Success? <==> AllParse(files)
    decreases |files|
  {
    if files != [] {
      var init := files[..|files| - 1];
      MappingsSucceed(init);
      assert forall i :: 0 <= i < |init| ==> init[i] == files[i];
    }
  }

  /** A failed build reports the error of the first file that does not parse. */
  lemma {:induction false} MappingsFirstFailure(files: seq<string>)
    requires MappingsOf(files).Failure?
    ensures exists i :: 0 <= i < |files| && Parse(files[i]) == Failure(MappingsOf(files).error)
                        && AllParse(files[..i])
    decreases |files|
  {
    var init := files[..|files| - 1];
    assert forall i :: 0 <= i < |init| ==> init[i] == files[i];
    if MappingsOf(init).Failure? {
      MappingsFirstFailure(init);
      var i :| 0 <= i < |init| && Parse(init[i]) == Failure(MappingsOf(init).error)
               && AllParse(init[..i]);
      assert init[..i] == files[..i];
    } else {
      MappingsSucceed(init);
      assert files[..|files| - 1] == init;
    }
  }

  /** The keys of a built mapping are exactly the track numbers of the files. */
  lemma {:induction false} MappingsKeys(files: seq<string>)
    requires MappingsOf(files).Success?
    ensures MappingsOf(files).value.Keys == Prefixes(files)
    decreases |files|
  {
    if files != [] {
      MappingsKeys(files[..|files| - 1]);
      PrefixesSnoc(files);
    }
  }

  lemma PrefixesSnoc(files: seq<string>)
    requires files != []
    ensures Prefixes(files) == Prefixes(files[..|files| - 1]) + {PrefixOf(files[|files| - 1])}
  {
    assert files == files[..|files| - 1] + [files[|files| - 1]];
  }

  /** Last write wins: a file with no later file of the same track number
      decides the name its track number maps to. */
  lemma {:induction false} MappingsLastWins(files: seq<string>, i: nat)
    requires MappingsOf(files).Success? && i < |files|
    requires forall j :: i < j < |files| ==> PrefixOf(files[j]) != PrefixOf(files[i])
    ensures Parse(files[i]).Success? && PrefixOf(files[i]) in MappingsOf(files).value
    ensures MappingsOf(files).value[PrefixOf(files[i])] == Parse(files[i]).value.name
    decreases |files|
  {
    var init := files[..|files| - 1];
    if i < |files| - 1 {
      MappingsLastWins(init, i);
    }
  }

  /** Every key maps to the name of the last file that carries it. */
  lemma {:induction false} MappingsValueSource(files: seq<string>, p: string)
    requires MappingsOf(files).Success? && p in MappingsOf(files).value
    ensures exists i :: 0 <= i < |files| && PrefixOf(files[i]) == p && Parse(files[i]).Success?
                        && MappingsOf(files).value[p] == Parse(files[i]).value.name
                        && forall j :: i < j < |files| ==> PrefixOf(files[j]) != p
    decreases |files|
  {
    if PrefixOf(files[|files| - 1]) != p {
      var init := files[..|files| - 1];
      MappingsValueSource(init, p);
      var i :| 0 <= i < |init| && PrefixOf(init[i]) == p && Parse(init[i]).Success?
               && MappingsOf(init).value[p] == Parse(init[i]).value.name
               && forall j :: i < j < |init| ==> PrefixOf(init[j]) != p;
      LaterPrefixesExtend(files, init, i, p);
    }
  }

  /** A track number missing from the last file and from the files after
      position `i` of the others is missing after `i` in all of them. */
  lemma LaterPrefixesExtend(files: seq<string>, init: seq<string>, i: nat, p: string)
    requires files != [] && init == files[..|files| - 1]
    requires i < |init| && PrefixOf(files[|files| - 1]) != p
    requires forall j :: i < j < |init| ==> PrefixOf(init[j]) != p
    ensures forall j :: i < j < |files| ==> PrefixOf(files[j]) != p
  {
    forall j | i < j < |files| ensures PrefixOf(files[j]) != p {
      if j < |init| { assert files[j] == init[j]; }
    }
  }

  // ----- map -----

  /** `mappings.get(prefix)` as the string concatenation in map sees it: a
      track number that is not a key gives null, which is appended as "null". */
  function Lookup(m: Mapping, p: string): (name: string)
    ensures p in m ==> name == m[p]
    ensures p !in m ==> name == "null"
  {
    if p in m then m[p] else "null"
  }

  /** The new filename map computes for one target file: its own track number,
      the looked-up name and the text after the last dot of the remainder. */
  function NewName(m: Mapping, f: string): (r: Result<string, ParseError>)
    ensures r.Success? <==> ' ' in f
    ensures r.Failure? ==> r.error == NoSpace
    ensures Parse(f).Success? ==>
      r == Success(Reassemble(TrackFile(PrefixOf(f), Lookup(m, PrefixOf(f)), Parse(f).value.ext)))
  {
    var splitted := SplitAtFirstSpace(f);
    if |splitted| < 2 then Failure(NoSpace)
    else
      var prefix := splitted[0];
      Success(prefix + " " + (Lookup(m, prefix) + "." + ExtOf(splitted[1])))
  }

  /** The moves map performs on the given files, in order: one per file until
      a file without a space throws. */
  function RenamePlan(m: Mapping, files: seq<string>): (r: Run)
    ensures |r.moves| <= |files|
    ensures r.failure.None? <==> |r.moves| == |files|
    decreases |files|
  {
    if files == [] then Run([], None)
    else
      match NewName(m, files[0])
      case Failure(e) => Run([], Some(e))
      case Success(n) =>
        var rest := RenamePlan(m, files[1..]);
        Run([Rename(files[0], n)] + rest.moves, rest.failure)
  }

  /** The plan stops only at a file without a space, and moves every file before
      it to the name NewName gives it. */
  lemma {:induction false} RenamePlanMoves(m: Mapping, files: seq<string>)
    ensures var r := RenamePlan(m, files);
      (r.failure.Some? ==> r.failure == Some(NoSpace) && ' ' !in files[|r.moves|]) &&
      forall i :: 0 <= i < |r.moves| ==>
        ' ' in files[i] && r.moves[i] == Rename(files[i], NewName(m, files[i]).value)
  {
    if RenamePlan(m, files).failure.Some? {
      PlanStop(m, files);
    }
    forall i | 0 <= i < |RenamePlan(m, files).moves|
      ensures ' ' in files[i]
      ensures RenamePlan(m, files).moves[i] == Rename(files[i], NewName(m, files[i]).value)
    {
      PlanMoveAt(m, files, i);
    }
  }

  /** The plan stops at a file without a space, and only there. */
  lemma {:induction false} PlanStop(m: Mapping, files: seq<string>)
    requires RenamePlan(m, files).failure.Some?
    ensures RenamePlan(m, files).failure == Some(NoSpace)
    ensures ' ' !in files[|RenamePlan(m, files).moves|]
    decreases |files|
  {
    if ' ' in files[0] {
      PlanCons(m, files);
      PlanStop(m, files[1..]);
      PlanStopShift(files, RenamePlan(m, files).moves, RenamePlan(m, files[1..]).moves);
    } else {
      PlanFromStops(m, files, 0);
      assert files[0..] == files;
    }
  }

  /** The file where the rest of a plan stops is the file where the plan stops,
      once the first move is counted. */
  lemma PlanStopShift(files: seq<string>, moves: seq<Rename>, rest: seq<Rename>)
    requires files != [] && |moves| == 1 + |rest| && |rest| < |files| - 1
    ensures files[|moves|] == files[1..][|rest|]
  {
  }

  /** The `i`-th move of the plan takes the `i`-th file, which has a space, to
      the name NewName gives it. */
  lemma {:induction false} PlanMoveAt(m: Mapping, files: seq<string>, i: nat)
    requires i < |RenamePlan(m, files).moves|
    ensures ' ' in files[i]
    ensures RenamePlan(m, files).moves[i] == Rename(files[i], NewName(m, files[i]).value)
    decreases i
  {
    PlanCons(m, files);
    if i > 0 {
      PlanMoveAt(m, files[1..], i - 1);
    }
  }

  lemma SeqAssoc<T>(a: seq<T>, b: seq<T>, c: seq<T>)
    ensures a + b + c == a + (b + c)
  {
  }

  lemma HeadTail<T>(s: seq<T>)
    requires s != []
    ensures s == [s[0]] + s[1..]
  {
  }

  /** The plan from a file without a space on: nothing is moved and the run
      stops with that file's error. */
  lemma PlanFromStops(m: Mapping, files: seq<string>, i: nat)
    requires i < |files| && ' ' !in files[i]
    ensures RenamePlan(m, files[i..]) == Run([], Some(NoSpace))
  {
    assert files[i..][0] == files[i];
  }

  /** One file of the plan: after the moves made so far, a file with a space
      is moved to the name NewName gives it and the plan goes on from the
      next file. */
  lemma PlanStep(m: Mapping, files: seq<string>, i: nat, moves: seq<Rename>, newname: string)
    requires i < |files| && ' ' in files[i] && newname == NewName(m, files[i]).value
    requires RenamePlan(m, files) ==
      Run(moves + RenamePlan(m, files[i..]).moves, RenamePlan(m, files[i..]).failure)
    ensures RenamePlan(m, files) ==
      Run(moves + [Rename(files[i], newname)] + RenamePlan(m, files[i + 1..]).moves,
          RenamePlan(m, files[i + 1..]).failure)
  {
    PlanCons(m, files[i..]);
    assert files[i..][0] == files[i] && files[i..][1..] == files[i + 1..];
    SeqAssoc(moves, [Rename(files[i], newname)], RenamePlan(m, files[i + 1..]).moves);
  }

  /** The plan after the last file: the moves made so far, and no failure. */
  lemma PlanEnd(m: Mapping, files: seq<string>, moves: seq<Rename>)
    requires RenamePlan(m, files) ==
      Run(moves + RenamePlan(m, files[|files|..]).moves, RenamePlan(m, files[|files|..]).failure)
    ensures RenamePlan(m, files) == Run(moves, None)
  {
    assert files[|files|..] == [];
    assert moves + [] == moves;
  }

  /** The plan at a file without a space: the moves made so far, and that
      file's failure. */
  lemma PlanHalt(m: Mapping, files: seq<string>, i: nat, moves: seq<Rename>)
    requires i < |files| && ' ' !in files[i]
    requires RenamePlan(m, files) ==
      Run(moves + RenamePlan(m, files[i..]).moves, RenamePlan(m, files[i..]).failure)
    ensures RenamePlan(m, files) == Run(moves, Some(NoSpace))
  {
    PlanFromStops(m, files, i);
    assert moves + [] == moves;
  }

  /** map: a loop over the target files that computes each new name and moves
      the file there; the move itself is recorded, not performed. */
  method Map(mappings: Mapping, files: seq<string>) returns (r: Run)
    ensures r == RenamePlan(mappings, files)
  {
    var moves: seq<Rename> := [];
    assert files[0..] == files;
    for i := 0 to |files|
      invariant RenamePlan(mappings, files) ==
        Run(moves + RenamePlan(mappings, files[i..]).moves, RenamePlan(mappings, files[i..]).failure)
    {
      var filename := files[i];
      var newname;
      match NewName(mappings, filename) {
        case Failure(e) =>
          PlanHalt(mappings, files, i, moves);
          return Run(moves, Some(e));
        case Success(n) =>
          newname := n;
      }
      PlanStep(mappings, files, i, moves, newname);
      moves := moves + [Rename(filename, newname)];
    }
    PlanEnd(mappings, files, moves);
    return Run(moves, None);
  }

  // ----- work -----

  /** What work does with a source and a target directory listing: keep the
      music files, build both mappings, and run map over the target files with
      the source mapping only when both mappings have the same track numbers. */
  function Outcome(sourceListing: seq<string>, targetListing: seq<string>): (r: Run)
    ensures |r.moves| <= |MusicFiles(targetListing)| <= |targetListing|
  {
    var filesA := MusicFiles(sourceListing);
    var filesB := MusicFiles(targetListing);
    match MappingsOf(filesA)
    case Failure(e) => Run([], Some(e))
    case Success(mappingA) =>
      match MappingsOf(filesB)
      case Failure(e) => Run([], Some(e))
      case Success(mappingB) =>
        if mappingA.Keys == mappingB.Keys then RenamePlan(mappingA, filesB)
        else Run([], None)
  }

  /** work: the two scans, the two mapping builds, the key-set comparison and map. */
  method Work(sourceListing: seq<string>, targetListing: seq<string>) returns (r: Run)
    ensures r == Outcome(sourceListing, targetListing)
  {
    var filesA := MusicFiles(sourceListing);
    var filesB := MusicFiles(targetListing);
    var mappingA := GetMappings(filesA);
    if mappingA.Failure? {
      return Run([], Some(mappingA.error));
    }
    var mappingB := GetMappings(filesB);
    if mappingB.Failure? {
      return Run([], Some(mappingB.error));
    }
    if mappingA.value.Keys == mappingB.value.Keys {
      r := Map(mappingA.value, filesB);
    } else {
      r := Run([], None);
    }
  }

  /** A plan over files that all have a space runs to the end. */
  lemma {:induction false} PlanCompletes(m: Mapping, files: seq<string>)
    requires forall f :: f in files ==> ' ' in f
    ensures RenamePlan(m, files).failure.None?
    decreases |files|
  {
    if files != [] {
      assert forall f :: f in files[1..] ==> f in files;
      PlanCompletes(m, files[1..]);
    }
  }

  /** A run fails exactly when a music file of either directory does not parse,
      and then it has moved nothing. */
  lemma WorkFails(sourceListing: seq<string>, targetListing: seq<string>)
    ensures Outcome(sourceListing, targetListing).failure.Some?
      <==> !AllParse(MusicFiles(sourceListing)) || !AllParse(MusicFiles(targetListing))
    ensures Outcome(sourceListing, targetListing).failure.Some? ==>
      Outcome(sourceListing, targetListing).moves == []
  {
    MappingsSucceed(MusicFiles(sourceListing));
    MappingsSucceed(MusicFiles(targetListing));
    if AllParse(MusicFiles(sourceListing)) && AllParse(MusicFiles(targetListing)) {
      PlanCompletes(MappingsOf(MusicFiles(sourceListing)).value, MusicFiles(targetListing));
    }
  }

  /** Different track number sets: the run ends normally having moved nothing. */
  lemma WorkMismatchIsNoOp(sourceListing: seq<string>, targetListing: seq<string>)
    requires AllParse(MusicFiles(sourceListing)) && AllParse(MusicFiles(targetListing))
    requires Prefixes(MusicFiles(sourceListing)) != Prefixes(MusicFiles(targetListing))
    ensures Outcome(sourceListing, targetListing) == Run([], None)
  {
    MappingsSucceed(MusicFiles(sourceListing));
    MappingsSucceed(MusicFiles(targetListing));
    MappingsKeys(MusicFiles(sourceListing));
    MappingsKeys(MusicFiles(targetListing));
  }

  /** When the key sets agree, every track number of the target files is a key
      of the source mapping, so the lookup in map never yields null. */
  lemma LookupNeverMisses(mappingA: Mapping, filesB: seq<string>)
    requires MappingsOf(filesB).Success?
    requires mappingA.Keys == MappingsOf(filesB).value.Keys
    ensures forall f :: f in filesB ==> PrefixOf(f) in mappingA
  {
    MappingsKeys(filesB);
  }

  /** map over files that all parse, with every track number a key: each file
      is moved, in order, to a name that reads back as its own track number,
      the mapped name and its own extension. */
  lemma PlanRenames(m: Mapping, files: seq<string>)
    requires AllParse(files)
    requires forall f :: f in files ==> PrefixOf(f) in m
    ensures RenamePlan(m, files).failure.None? && |RenamePlan(m, files).moves| == |files|
    ensures forall i :: 0 <= i < |files| ==>
      RenamePlan(m, files).moves[i].from == files[i] &&
      Parse(RenamePlan(m, files).moves[i].to)
        == Success(TrackFile(PrefixOf(files[i]), m[PrefixOf(files[i])], Parse(files[i]).value.ext))
  {
    PlanCompletes(m, files);
    RenamePlanMoves(m, files);
    forall i | 0 <= i < |files|
      ensures Parse(RenamePlan(m, files).moves[i].to)
        == Success(TrackFile(PrefixOf(files[i]), m[PrefixOf(files[i])], Parse(files[i]).value.ext))
    {
      assert files[i] in files;
      ParseReassemble(TrackFile(PrefixOf(files[i]), m[PrefixOf(files[i])], Parse(files[i]).value.ext));
    }
  }

  /** Same track number sets: every target music file is moved, in order, to a
      name that reads back as its own track number, the source name for that
      track number and its own extension. */
  lemma WorkRenamesAll(sourceListing: seq<string>, targetListing: seq<string>)
    requires AllParse(MusicFiles(sourceListing)) && AllParse(MusicFiles(targetListing))
    requires Prefixes(MusicFiles(sourceListing)) == Prefixes(MusicFiles(targetListing))
    ensures MappingsOf(MusicFiles(sourceListing)).Success?
    ensures Outcome(sourceListing, targetListing)
      == RenamePlan(MappingsOf(MusicFiles(sourceListing)).value, MusicFiles(targetListing))
    ensures forall f :: f in MusicFiles(targetListing) ==>
      PrefixOf(f) in MappingsOf(MusicFiles(sourceListing)).value
  {
    MappingsSucceed(MusicFiles(sourceListing));
    MappingsSucceed(MusicFiles(targetListing));
    MappingsKeys(MusicFiles(sourceListing));
    MappingsKeys(MusicFiles(targetListing));
    LookupNeverMisses(MappingsOf(MusicFiles(sourceListing)).value, MusicFiles(targetListing));
  }

  // ----- the target directory after a run -----

  /** Where a file ends up after the moves: the destination of the first move
      that names it, or where it was. */
  function Destination(moves: seq<Rename>, f: string): string {
    if moves == [] then f
    else if moves[0].from == f then moves[0].to
    else Destination(moves[1..], f)
  }

  /** The target listing after the moves, each file read as going to its
      planned name. */
  function Applied(listing: seq<string>, moves: seq<Rename>): (after: seq<string>)
    ensures |after| == |listing|
    ensures forall i :: 0 <= i < |listing| ==> after[i] == Destination(moves, listing[i])
  {
    if listing == [] then []
    else [Destination(moves, listing[0])] + Applied(listing[1..], moves)
  }

  /** Moves that keep every name change nothing. */
  lemma {:induction false} AppliedIdentity(listing: seq<string>, moves: seq<Rename>)
    requires forall i :: 0 <= i < |moves| ==> moves[i].from == moves[i].to
    ensures Applied(listing, moves) == listing
  {
    forall k | 0 <= k < |listing| ensures Destination(moves, listing[k]) == listing[k] {
      DestinationIdentity(moves, listing[k]);
    }
  }

  lemma {:induction false} DestinationIdentity(moves: seq<Rename>, f: string)
    requires forall i :: 0 <= i < |moves| ==> moves[i].from == moves[i].to
    ensures Destination(moves, f) == f
  {
    if moves != [] && moves[0].from != f {
      DestinationIdentity(moves[1..], f);
    }
  }

  /** The plan over files whose first file has a space: that file's move, then
      the plan over the rest. */
  lemma PlanCons(m: Mapping, files: seq<string>)
    requires files != [] && ' ' in files[0]
    ensures RenamePlan(m, files) ==
      Run([Rename(files[0], NewName(m, files[0]).value)] + RenamePlan(m, files[1..]).moves,
          RenamePlan(m, files[1..]).failure)
  {
  }

  /** After a complete run of map, a planned file goes to its new name and any
      other file stays where it is. */
  lemma {:induction false} PlanDestination(m: Mapping, files: seq<string>, f: string)
    requires RenamePlan(m, files).failure.None?
    ensures f in files ==> ' ' in f && Destination(RenamePlan(m, files).moves, f) == NewName(m, f).value
    ensures f !in files ==> Destination(RenamePlan(m, files).moves, f) == f
    decreases |files|
  {
    if files != [] {
      PlanCons(m, files);
      PlanDestination(m, files[1..], f);
      DestinationCons(Rename(files[0], NewName(m, files[0]).value), RenamePlan(m, files[1..]).moves, f);
      assert f in files <==> f == files[0] || f in files[1..];
    }
  }

  /** The first move decides where its file goes; any other file is left to
      the remaining moves. */
  lemma DestinationCons(mv: Rename, moves: seq<Rename>, f: string)
    ensures Destination([mv] + moves, f) == if mv.from == f then mv.to else Destination(moves, f)
  {
    assert ([mv] + moves)[1..] == moves;
  }

  /** The new names of the given files, in order. */
  function NewNames(m: Mapping, files: seq<string>): (names: seq<string>)
    requires forall f :: f in files ==> ' ' in f
    ensures |names| == |files|
    ensures forall i :: 0 <= i < |files| ==> names[i] == NewName(m, files[i]).value
  {
    if files == [] then []
    else [NewName(m, files[0]).value] + NewNames(m, files[1..])
  }

  /** A music file renamed by map keeps its extension, so it still passes the glob. */
  lemma RenamedStaysMusic(m: Mapping, f: string)
    requires IsMusicFile(f) && Parse(f).Success?
    ensures IsMusicFile(NewName(m, f).value)
  {
    MusicFileExtension(f);
    MusicFileByExtension(TrackFile(PrefixOf(f), Lookup(m, PrefixOf(f)), Parse(f).value.ext));
  }

  /** The music files of the target listing after a complete run of map over
      its music files are their new names, in the same order. */
  lemma {:induction false} MusicFilesAfterPlan(listing: seq<string>, m: Mapping, files: seq<string>)
    requires RenamePlan(m, files).failure.None?
    requires AllParse(files)
    requires forall f :: f in files ==> IsMusicFile(f)
    requires forall f :: f in listing && IsMusicFile(f) ==> f in files
    ensures forall f :: f in MusicFiles(listing) ==> ' ' in f
    ensures MusicFiles(Applied(listing, RenamePlan(m, files).moves)) == NewNames(m, MusicFiles(listing))
    decreases |listing|
  {
    MusicFilesMembers(listing);
    if listing != [] {
      assert forall f :: f in listing[1..] ==> f in listing;
      MusicFilesAfterPlan(listing[1..], m, files);
      PlanDestination(m, files, listing[0]);
      if IsMusicFile(listing[0]) {
        RenamedStaysMusic(m, listing[0]);
      }
      MusicFilesStep(m, listing[0], Destination(RenamePlan(m, files).moves, listing[0]),
                     listing[1..], Applied(listing[1..], RenamePlan(m, files).moves));
      HeadTail(listing);
      AppliedCons(listing, RenamePlan(m, files).moves);
    }
  }

  /** One step of MusicFilesAfterPlan: a first entry that is a music file is
      renamed and stays a music file, any other entry stays where it is. */
  lemma MusicFilesStep(m: Mapping, x: string, d: string, rest: seq<string>, restAfter: seq<string>)
    requires forall f :: f in MusicFiles(rest) ==> ' ' in f
    requires MusicFiles(restAfter) == NewNames(m, MusicFiles(rest))
    requires IsMusicFile(x) ==> ' ' in x && d == NewName(m, x).value && IsMusicFile(d)
    requires !IsMusicFile(x) ==> d == x
    ensures forall f :: f in MusicFiles([x] + rest) ==> ' ' in f
    ensures MusicFiles([d] + restAfter) == NewNames(m, MusicFiles([x] + rest))
  {
    MusicFilesCons(d, restAfter);
    MusicFilesCons(x, rest);
    if IsMusicFile(x) {
      NewNamesCons(m, x, MusicFiles(rest));
    }
  }

  lemma AppliedCons(listing: seq<string>, moves: seq<Rename>)
    requires listing != []
    ensures Applied(listing, moves) == [Destination(moves, listing[0])] + Applied(listing[1..], moves)
  {
  }

  lemma MusicFilesCons(x: string, rest: seq<string>)
    ensures MusicFiles([x] + rest) == (if IsMusicFile(x) then [x] else []) + MusicFiles(rest)
  {
    assert ([x] + rest)[1..] == rest;
  }

  lemma NewNamesCons(m: Mapping, x: string, files: seq<string>)
    requires ' ' in x && forall f :: f in files ==> ' ' in f
    ensures NewNames(m, [x] + files) == [NewName(m, x).value] + NewNames(m, files)
  {
    assert ([x] + files)[1..] == files;
  }

  /** Equal track numbers index by index give equal track number sets. */
  lemma PrefixesPointwise(a: seq<string>, b: seq<string>)
    requires |a| == |b|
    requires forall i :: 0 <= i < |a| ==> PrefixOf(a[i]) == PrefixOf(b[i])
    ensures Prefixes(a) == Prefixes(b)
  {
    forall p | p in Prefixes(a) ensures p in Prefixes(b) {
      var f :| f in a && PrefixOf(f) == p;
      var i :| 0 <= i < |a| && a[i] == f;
      assert b[i] in b;
    }
    forall p | p in Prefixes(b) ensures p in Prefixes(a) {
      var f :| f in b && PrefixOf(f) == p;
      var i :| 0 <= i < |b| && b[i] == f;
      assert a[i] in a;
    }
  }

  /** map is idempotent: the new names, planned again with the same mapping,
      are each moved to themselves. */
  lemma PlanTwice(m: Mapping, files: seq<string>)
    requires AllParse(files)
    requires forall f :: f in files ==> PrefixOf(f) in m
    ensures AllParse(NewNames(m, files)) && Prefixes(NewNames(m, files)) == Prefixes(files)
    ensures RenamePlan(m, NewNames(m, files)).failure.None?
    ensures forall i :: 0 <= i < |RenamePlan(m, NewNames(m, files)).moves| ==>
      RenamePlan(m, NewNames(m, files)).moves[i].from == RenamePlan(m, NewNames(m, files)).moves[i].to
  {
    forall i | 0 <= i < |files|
      ensures Parse(NewNames(m, files)[i]).Success?
      ensures PrefixOf(NewNames(m, files)[i]) == PrefixOf(files[i])
      ensures NewName(m, NewNames(m, files)[i]) == Success(NewNames(m, files)[i])
    {
      assert files[i] in files;
      ParseReassemble(TrackFile(PrefixOf(files[i]), m[PrefixOf(files[i])], Parse(files[i]).value.ext));
    }
    PrefixesPointwise(files, NewNames(m, files));
    PlanCompletes(m, NewNames(m, files));
    RenamePlanMoves(m, NewNames(m, files));
  }

  /** Idempotence: running the transfer again on the renamed target directory
      moves every file to the name it already has, so the directory stays as
      the first run left it. */
  lemma WorkIdempotent(sourceListing: seq<string>, targetListing: seq<string>)
    requires Outcome(sourceListing, targetListing).failure.None?
    ensures var after := Applied(targetListing, Outcome(sourceListing, targetListing).moves);
            var again := Outcome(sourceListing, after);
            again.failure.None? &&
            (forall i :: 0 <= i < |again.moves| ==> again.moves[i].from == again.moves[i].to) &&
            Applied(after, again.moves) == after
  {
    WorkFails(sourceListing, targetListing);
    if Prefixes(MusicFiles(sourceListing)) != Prefixes(MusicFiles(targetListing)) {
      WorkMismatchIsNoOp(sourceListing, targetListing);
      AppliedIdentity(targetListing, []);
      AppliedIdentity(targetListing, Outcome(sourceListing, targetListing).moves);
    } else {
      RenamedTwice(sourceListing, targetListing);
    }
  }

  lemma RenamedTwice(sourceListing: seq<string>, targetListing: seq<string>)
    requires AllParse(MusicFiles(sourceListing)) && AllParse(MusicFiles(targetListing))
    requires Prefixes(MusicFiles(sourceListing)) == Prefixes(MusicFiles(targetListing))
    ensures var after := Applied(targetListing, Outcome(sourceListing, targetListing).moves);
            var again := Outcome(sourceListing, after);
            again.failure.None? &&
            (forall i :: 0 <= i < |again.moves| ==> again.moves[i].from == again.moves[i].to) &&
            Applied(after, again.moves) == after
  {
    WorkRenamesAll(sourceListing, targetListing);
    MusicFilesMembers(targetListing);
    PlanCompletes(MappingsOf(MusicFiles(sourceListing)).value, MusicFiles(targetListing));
    MusicFilesAfterPlan(targetListing, MappingsOf(MusicFiles(sourceListing)).value, MusicFiles(targetListing));
    PlanTwice(MappingsOf(MusicFiles(sourceListing)).value, MusicFiles(targetListing));
    WorkRenamesAll(sourceListing, Applied(targetListing, Outcome(sourceListing, targetListing).moves));
    AppliedIdentity(Applied(targetListing, Outcome(sourceListing, targetListing).moves),
                    Outcome(sourceListing, Applied(targetListing, Outcome(sourceListing, targetListing).moves)).moves);
  }

  /** A file that is not a music file, added anywhere to either listing,
      changes nothing about the run. */
  lemma NonMusicFileIgnored(sourceListing: seq<string>, targetListing: seq<string>, x: string, k: nat)
    requires !IsMusicFile(x)
    ensures k <= |sourceListing| ==>
      Outcome(sourceListing[..k] + [x] + sourceListing[k..], targetListing) == Outcome(sourceListing, targetListing)
    ensures k <= |targetListing| ==>
      Outcome(sourceListing, targetListing[..k] + [x] + targetListing[k..]) == Outcome(sourceListing, targetListing)
  {
    if k <= |sourceListing| {
      MusicFilesSkip(sourceListing, k, x);
    }
    if k <= |targetListing| {
      MusicFilesSkip(targetListing, k, x);
    }
  }
}
