# TrackNameTransfer: a Dafny model of the track name transfer

TrackNameTransfer copies track names from one music directory to another.
Every music file is named `TRACK_NO NAME.EXT`. The transfer reads the source
directory's files into a map from track number to track name. It builds the
same map for the target directory. When both maps have the same track numbers,
it renames each target file to `TRACK_NO <source name>.EXT`, keeping the
target file's own track number and extension.

The model covers the non-GUI class `Transfer`. It has four modules:

- `Wrappers` (`wrappers.dfy`): `Option` and `Result`.
- `FileNames` (`file_names.dfy`): how a filename is read.
  - `split(" ", 2)` is `SplitAtFirstSpace` and `lastIndexOf` is `LastIndexOf`.
  - `Parse` gives the triple `TrackFile(prefix, name, ext)`, or `NoSpace` or `NoDot` for the two exceptions a malformed name raises.
  - Round-trip lemmas relate `Parse` and `Reassemble`.
- `MusicFilter` (`music_filter.dfy`): which directory entries count as music files.
  - `Formats` is the list of recognised extensions.
  - `FilenameFilter` is the loop that builds the glob pattern.
  - `IsMusicFile` is what the pattern accepts, and `MusicFiles` is the scan of a listing.
- `Transfer` (`transfer.dfy`): the mapping build, map and work.
  - The mapping build is the `GetMappings` loop, specified by the function `MappingsOf`.
  - map is the `Map` loop, specified by the function `RenamePlan`. It applies `NewName` to each file and records one `Rename` per move.
  - work is `Work`, specified by `Outcome`.
  - Lemmas state what a run does to the target directory: renaming, no-op on a mismatch, failure on a malformed name, idempotence, and that non-music files are ignored.

A directory is a sequence of filenames, in listing order. A run is
`Run(moves, failure)`: the moves performed, in order, and the exception that
stopped the run, if one did. `Applied(listing, moves)` is the target listing
after the moves.

Two details of the code that the model keeps:

- map does not require a dot. It takes the text after the last dot, which is
  the whole remainder when there is none (`ExtOf`, Transfer.java:139-140).
- map concatenates the result of `get`, so a missing key gives `"null"`
  (`Lookup`, Transfer.java:141). `LookupNeverMisses` shows that work never
  reaches that case.

## Model

| member | source | states |
|---|---|---|
| FileNames.LastIndexOf | src/cz/filipekt/Transfer.java:117 | `lastIndexOf('.')`: -1 exactly when the character is absent; otherwise the index holds it and nothing after it does |
| FileNames.LastIndexBelowFinds | src/cz/filipekt/Transfer.java:139 | the backward scan behind `lastIndexOf` finds the last occurrence below a bound, or -1 exactly when there is none |
| FileNames.SplitAtFirstSpace | src/cz/filipekt/Transfer.java:115 | `split(" ", 2)`: one part, the whole string, exactly when there is no space; otherwise a space-free part before the first space and the rest after it, which rejoin to the input |
| FileNames.PrefixOf | src/cz/filipekt/Transfer.java:116 | `splitted[0]` is space-free, is a prefix of the filename, and is the whole filename exactly when it has no space |
| FileNames.RestOf | src/cz/filipekt/Transfer.java:117 | `splitted[1]` is what follows the track number and one space |
| FileNames.NameOf | src/cz/filipekt/Transfer.java:118 | `substring(0, dot)` is a proper prefix of the remainder, followed by the last dot, with no dot after it |
| FileNames.ExtOf | src/cz/filipekt/Transfer.java:140 | `substring(dot + 1)` holds no dot, and is the whole remainder when the remainder has no dot |
| FileNames.NameDotExt | src/cz/filipekt/Transfer.java:117-118 | a remainder with a dot is the inner name, a dot and the extension |
| FileNames.Parse | src/cz/filipekt/Transfer.java:114-118 | fails with NoSpace exactly when there is no space; otherwise succeeds exactly when the remainder has a dot; a success is well formed, reassembles to the filename, and its prefix is the track number |
| FileNames.ParseReassemble | src/cz/filipekt/Transfer.java:137-141 | round trip: parsing a reassembled well-formed triple gives the triple back |
| FileNames.DotFreeSuffix | src/cz/filipekt/Transfer.java:117-118 | the split at the last dot is unique: two readings with dot-free extensions agree |
| FileNames.SpaceFreePrefix | src/cz/filipekt/Transfer.java:115-116 | the split at the first space is unique: two readings with space-free prefixes agree |
| FileNames.ExtensionFromSuffix | src/cz/filipekt/Transfer.java:139-140 | a parsed name ending in a dot and a dot-free text has that text as its extension |
| MusicFilter.FormatsArePlain | src/cz/filipekt/Transfer.java:80 | no recognised extension holds a space, a dot or a comma |
| MusicFilter.JoinAppend | src/cz/filipekt/Transfer.java:91-96 | one more loop step appends a comma and the next extension |
| MusicFilter.SplitJoin | src/cz/filipekt/Transfer.java:88-99 | splitting comma-joined comma-free entries at the commas gives back the entries |
| MusicFilter.FilenameFilter | src/cz/filipekt/Transfer.java:88-99 | the builder loop returns `*.{`, the extensions joined by commas, then `}` |
| MusicFilter.FilterListsFormats | src/cz/filipekt/Transfer.java:80 | the braces of the pattern list exactly the recognised extensions, in order |
| MusicFilter.IsMusicFile | src/cz/filipekt/Transfer.java:70-71 | what the glob accepts: a name ending in a dot and a recognised extension; such a name holds a dot |
| MusicFilter.MusicFiles | src/cz/filipekt/Transfer.java:67-75 | the scan keeps no more entries than the listing has |
| MusicFilter.MusicFilesMembers | src/cz/filipekt/Transfer.java:67-75 | the music files are exactly the listed entries that pass the glob |
| MusicFilter.MusicFilesAppend | src/cz/filipekt/Transfer.java:71-73 | scanning a concatenated listing concatenates the scans |
| MusicFilter.MusicFilesSkip | src/cz/filipekt/Transfer.java:67-75 | an entry that does not pass the glob, inserted anywhere, leaves the music files unchanged |
| MusicFilter.MusicFileExtension | src/cz/filipekt/Transfer.java:70-71 | a music file that parses has a recognised extension |
| MusicFilter.MusicFileByExtension | src/cz/filipekt/Transfer.java:70-71 | a name with a recognised extension passes the glob |
| Transfer.MappingsOf | src/cz/filipekt/Transfer.java:111-122 | the mapping the build gives for files visited in order, or the first parse failure; a built mapping has at most one key per file |
| Transfer.GetMappings | src/cz/filipekt/Transfer.java:111-122 | the loop returns the mapping of the file sequence, or the first parse failure |
| Transfer.MappingsFailureSticks | src/cz/filipekt/Transfer.java:113-120 | once a file fails to parse, the whole build fails with that error |
| Transfer.MappingsSucceed | src/cz/filipekt/Transfer.java:113-120 | the build succeeds exactly when every file parses |
| Transfer.MappingsFirstFailure | src/cz/filipekt/Transfer.java:113-120 | a failed build reports the error of the first file that does not parse, and every earlier file parses |
| Transfer.MappingsKeys | src/cz/filipekt/Transfer.java:116-119 | the keys of a built mapping are exactly the track numbers of the files |
| Transfer.MappingsLastWins | src/cz/filipekt/Transfer.java:119 | last write wins: a file with no later file of the same track number decides that track number's name |
| Transfer.MappingsValueSource | src/cz/filipekt/Transfer.java:116-119 | every key maps to the inner name of the last file carrying it |
| Transfer.Lookup | src/cz/filipekt/Transfer.java:141 | `mappings.get(prefix)` in the concatenation: the mapped name for a key, `"null"` for a missing key |
| Transfer.NewName | src/cz/filipekt/Transfer.java:136-141 | succeeds exactly when the filename has a space, otherwise fails with NoSpace; for a parsable name it is the reassembled track number, looked-up name and own extension |
| Transfer.RenamePlan | src/cz/filipekt/Transfer.java:134-144 | at most one move per file; no failure exactly when every file was moved |
| Transfer.RenamePlanMoves | src/cz/filipekt/Transfer.java:135-143 | the i-th move takes the i-th file, which has a space, to its NewName; a stop is NoSpace at the first file without a space |
| Transfer.PlanStop | src/cz/filipekt/Transfer.java:137-139 | map stops only with NoSpace, at a file without a space |
| Transfer.PlanMoveAt | src/cz/filipekt/Transfer.java:141-142 | the i-th move renames the i-th file to its new name |
| Transfer.PlanCompletes | src/cz/filipekt/Transfer.java:135-143 | map over files that all have a space runs to the end |
| Transfer.Map | src/cz/filipekt/Transfer.java:134-144 | the loop performs exactly the plan's moves, in order, and stops with the plan's failure |
| Transfer.Outcome | src/cz/filipekt/Transfer.java:47-55 | what work does with two listings; it moves at most one file per target music file |
| Transfer.Work | src/cz/filipekt/Transfer.java:47-55 | work performs exactly the outcome of scanning, building both mappings, comparing keys and mapping |
| Transfer.WorkFails | src/cz/filipekt/Transfer.java:47-55 | a run fails exactly when a music file of either directory does not parse, and then nothing is moved |
| Transfer.WorkMismatchIsNoOp | src/cz/filipekt/Transfer.java:52-54 | different track number sets: the run ends normally and moves nothing |
| Transfer.LookupNeverMisses | src/cz/filipekt/Transfer.java:141 | with equal key sets every target track number is a source key, so the lookup never gives null |
| Transfer.PlanRenames | src/cz/filipekt/Transfer.java:134-144 | every file is moved, in order, to a name that parses as its own track number, the mapped name and its own extension |
| Transfer.WorkRenamesAll | src/cz/filipekt/Transfer.java:47-55 | same track number sets: the run is map over the target music files with the source mapping, and every target track number is a source key |
| Transfer.PlanDestination | src/cz/filipekt/Transfer.java:142 | after a complete run a target music file is at its new name and every other file stays where it is |
| Transfer.RenamedStaysMusic | src/cz/filipekt/Transfer.java:140-141 | a renamed music file keeps its extension and still passes the glob |
| Transfer.MusicFilesAfterPlan | src/cz/filipekt/Transfer.java:67-75 | after a complete run the target's music files are the new names of its old music files, in order |
| Transfer.PlanTwice | src/cz/filipekt/Transfer.java:134-144 | the new names parse, keep the track numbers, and map them again moves each to itself |
| Transfer.WorkIdempotent | src/cz/filipekt/Transfer.java:47-55 | running work again on the target as a completed run left it moves every file to the name it has, so the directory stays the same |
| Transfer.NonMusicFileIgnored | src/cz/filipekt/Transfer.java:70-71 | a non-music entry added anywhere to either listing does not change the run |

## Left out

- `GUIWrapper` (the window, the drag-and-drop fields and the background worker) is not part of this model.
- The two directory fields and `Paths.get` are not modelled. A directory is the sequence of its entries' filenames, given as a parameter.
- The directory stream and its glob engine are not modelled. They are replaced by `IsMusicFile`, which matches the pattern case-sensitively against the whole name. Subdirectories and the glob's own escaping rules are not modelled.
- `getMusicFiles` collects the entries into a `HashSet`, whose iteration order Java leaves open. The model visits them in listing order. Which duplicate track number "wins" in `getMappings` therefore follows the listing order.
- `Files.move` is recorded as a `Rename` value and not performed. Target collisions (`FileAlreadyExistsException`) and other `IOException`s during the moves are not modelled. `Applied` treats the moves as if they happened at once, each original file going to its planned name.
- `IOException` from opening a directory is not modelled.
- The exceptions a malformed filename raises are modelled by the two `ParseError` values. Their message text is not modelled.
- MusicFilter.FilenameFilter: the contract states the pattern in terms of `Formats` (and `FilterListsFormats` shows the braces list exactly those extensions), not as the literal string `*.{flac,mp3,wav,ape,wma,ogg,aac,aiff}`.
