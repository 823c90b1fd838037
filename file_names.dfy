/** How the transfer reads a music filename as `TRACK_NO NAME.EXT`. */
module FileNames {
  import opened Wrappers

  /** The two ways a filename can fail the `TRACK_NO NAME.EXT` reading:
      no space (the split yields one part, so its second part is out of bounds)
      or no dot after the first space (`substring(0, -1)` is out of bounds). */
  datatype ParseError = NoSpace | NoDot

  /** A filename split into its track number, track name and extension. */
  datatype TrackFile = TrackFile(prefix: string, name: string, ext: string)

  /** A triple that the parser can produce: the prefix stops before the first
      space and the extension starts after the last dot. */
  predicate WellFormed(t: TrackFile) {
    ' ' !in t.prefix && '.' !in t.ext
  }

  /** The filename `prefix + " " + name + "." + ext`. */
  function Reassemble(t: TrackFile): string {
    t.prefix + " " + (t.name + "." + t.ext)
  }

  /** The scan behind `indexOf`: the first index at or after `from` holding
      `c`, or -1 when there is none. The transfer itself never calls
      `indexOf`; this scan only defines `MusicFilter.Split`, the inverse used
      to read the glob pattern back. */
  function IndexFrom(s: string, c: char, from: nat): (i: int)
    requires from <= |s|
    ensures i == -1 || from <= i < |s|
    ensures i == -1 <==> forall k :: from <= k < |s| ==> s[k] != c
    ensures 0 <= i ==> s[i] == c && forall k :: from <= k < i ==> s[k] != c
    decreases |s| - from
  {
    if from == |s| then -1
    else if s[from] == c then from
    else IndexFrom(s, c, from + 1)
  }

  /** `s.indexOf(c)`: the first index holding `c`, or -1 when there is none.
      Only `MusicFilter.Split` uses it. */
  function IndexOf(s: string, c: char): (i: int)
    ensures -1 <= i < |s|
    ensures i == -1 <==> c !in s
    ensures 0 <= i ==> s[i] == c && c !in s[..i]
  {
    IndexFrom(s, c, 0)
  }

  /** The scan behind `lastIndexOf`: the last index below `upto` holding `c`,
      or -1 when there is none. */
  function LastIndexBelow(s: string, c: char, upto: nat): int
    requires upto <= |s|
  {
    if upto == 0 then -1
    else if s[upto - 1] == c then upto - 1
    else LastIndexBelow(s, c, upto - 1)
  }

  /** The scan finds the last occurrence below `upto`, if there is one. */
  lemma {:induction false} LastIndexBelowFinds(s: string, c: char, upto: nat)
    requires upto <= |s|
    ensures -1 <= LastIndexBelow(s, c, upto) < upto
    ensures LastIndexBelow(s, c, upto) == -1 <==> forall k :: 0 <= k < upto ==> s[k] != c
    ensures 0 <= LastIndexBelow(s, c, upto) ==>
      s[LastIndexBelow(s, c, upto)] == c &&
      forall k :: LastIndexBelow(s, c, upto) < k < upto ==> s[k] != c
  {
    if upto > 0 && s[upto - 1] != c {
      LastIndexBelowFinds(s, c, upto - 1);
    }
  }

  /** `s.lastIndexOf(c)`: the last index holding `c`, or -1 when there is none. */
  function LastIndexOf(s: string, c: char): (i: int)
    ensures -1 <= i < |s|
    ensures i == -1 <==> c !in s
    ensures 0 <= i ==> s[i] == c && c !in s[i + 1..]
  {
    LastIndexBelowFinds(s, c, |s|);
    LastIndexBelow(s, c, |s|)
  }

  /** `s.split(" ", 2)`: the whole string when it has no space, otherwise the
      text before the first space and everything after it. */
  function SplitAtFirstSpace(s: string): (parts: seq<string>)
    ensures 1 <= |parts| <= 2
    ensures |parts| == 2 <==> ' ' in s
    ensures |parts| == 1 ==> parts[0] == s
    ensures |parts| == 2 ==> s == parts[0] + " " + parts[1] && ' ' !in parts[0]
  {
    if s == [] then [s]
    else if s[0] == ' ' then ["", s[1..]]
    else
      var r := SplitAtFirstSpace(s[1..]);
      if |r| == 1 then [s]
      else
        assert s == [s[0]] + s[1..];
        [[s[0]] + r[0], r[1]]
  }

  /** `splitted[0]`: the track number, which is the whole name when there is no space. */
  function PrefixOf(s: string): (p: string)
    ensures ' ' !in p
    ensures p <= s
    ensures p == s <==> ' ' !in s
  {
    SplitAtFirstSpace(s)[0]
  }

  /** The text after the first space, where the name and extension live. */
  function RestOf(s: string): (rest: string)
    requires ' ' in s
    ensures s == PrefixOf(s) + " " + rest
  {
    SplitAtFirstSpace(s)[1]
  }

  /** `rest.substring(0, rest.lastIndexOf("."))`: the track name, the text
      before the last dot (the call throws when there is no dot). */
  function NameOf(rest: string): (n: string)
    requires '.' in rest
    ensures n < rest
    ensures rest[|n|] == '.' && '.' !in rest[|n| + 1..]
  {
    rest[..LastIndexOf(rest, '.')]
  }

  /** `rest.substring(rest.lastIndexOf(".") + 1)`: the extension, the text after
      the last dot, which is all of `rest` when it has no dot. */
  function ExtOf(rest: string): (ext: string)
    ensures '.' !in ext
    ensures '.' !in rest ==> ext == rest
  {
    rest[LastIndexOf(rest, '.') + 1..]
  }

  /** A remainder with a dot is its name, the last dot and its extension. */
  lemma NameDotExt(rest: string)
    requires '.' in rest
    ensures rest == NameOf(rest) + "." + ExtOf(rest)
  {
    var dot := LastIndexOf(rest, '.');
    assert rest == rest[..dot] + "." + rest[dot + 1..];
  }

  /** The full reading of a filename: split at the first space, then split the
      remainder at its last dot. */
  function Parse(s: string): (r: Result<TrackFile, ParseError>)
    ensures r == Failure(NoSpace) <==> ' ' !in s
    ensures ' ' in s ==> (r.Success? <==> '.' in RestOf(s))
    ensures r.Success? ==> WellFormed(r.value) && Reassemble(r.value) == s
    ensures r.Success? ==> r.value.prefix == PrefixOf(s)
  {
    var parts := SplitAtFirstSpace(s);
    if |parts| < 2 then Failure(NoSpace)
    else if LastIndexOf(parts[1], '.') == -1 then Failure(NoDot)
    else
      NameDotExt(parts[1]);
      Success(TrackFile(parts[0], NameOf(parts[1]), ExtOf(parts[1])))
  }

  /** A dot-free string standing after a dot at the end of two equal strings is
      the same string in both. */
  lemma {:induction false} DotFreeSuffix(a: string, x: string, b: string, y: string)
    requires a + "." + x == b + "." + y
    requires '.' !in x && '.' !in y
    ensures x == y && a == b
  {
    var s := a + "." + x;
    assert s[|a|] == '.' && s[|b|] == '.';
    assert |x| == |y|;
    assert x == s[|a| + 1..] == y;
    assert a == s[..|a|] == b;
  }

  /** A space-free string standing before a space at the start of two equal
      strings is the same string in both. */
  lemma {:induction false} SpaceFreePrefix(p: string, x: string, q: string, y: string)
    requires p + " " + x == q + " " + y
    requires ' ' !in p && ' ' !in q
    ensures p == q && x == y
  {
    var s := p + " " + x;
    assert s[|p|] == ' ' && s[|q|] == ' ';
    assert |p| == |q|;
    assert p == s[..|p|] == q;
    assert x == s[|p| + 1..] == y;
  }

  /** Round trip: reassembling any triple the parser can produce and parsing it
      again gives the triple back. Together with the contract of Parse this says
      that Parse finds the one well-formed triple that spells the filename. */
  lemma {:induction false} ParseReassemble(t: TrackFile)
    requires WellFormed(t)
    ensures Parse(Reassemble(t)) == Success(t)
  {
    var s := Reassemble(t);
    var rest := t.name + "." + t.ext;
    assert s[|t.prefix|] == ' ';
    SpaceFreePrefix(t.prefix, rest, PrefixOf(s), RestOf(s));
    assert rest[|t.name|] == '.';
    var u := Parse(s).value;
    SpaceFreePrefix(t.prefix, rest, u.prefix, u.name + "." + u.ext);
    DotFreeSuffix(t.name, t.ext, u.name, u.ext);
  }

  predicate EndsWith(s: string, suffix: string) {
    |suffix| <= |s| && s[|s| - |suffix|..] == suffix
  }

  /** Two dot-free strings that both follow a final dot of `s` are equal. */
  lemma DotFreeEnding(s: string, x: string, y: string)
    requires EndsWith(s, "." + x) && EndsWith(s, "." + y)
    requires '.' !in x && '.' !in y
    ensures x == y
  {
    var dx, dy := "." + x, "." + y;
    assert s[|s| - |dx|] == dx[0] == '.';
    assert s[|s| - |dy|] == dy[0] == '.';
    assert |x| == |y|;
    assert x == dx[1..] == s[|s| - |x|..] == dy[1..] == y;
  }

  /** A reassembled filename ends with a dot and its extension. */
  lemma ReassembleEnding(t: TrackFile)
    ensures EndsWith(Reassemble(t), "." + t.ext)
  {
    var r := t.name + "." + t.ext;
    assert r[|t.name|..] == "." + t.ext;
    var s := Reassemble(t);
    assert s[|s| - |r|..] == r;
  }

  /** A filename that parses and ends with a dot and a dot-free `x` has `x` as
      its extension. */
  lemma ExtensionFromSuffix(s: string, x: string)
    requires Parse(s).Success? && EndsWith(s, "." + x) && '.' !in x
    ensures Parse(s).value.ext == x
  {
    var t := Parse(s).value;
    ReassembleEnding(t);
    DotFreeEnding(s, x, t.ext);
  }
}
