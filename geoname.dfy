/** Name resolution for placed models (`parse_geoname` and its helper
    `resolve_valid_path` in load_geomap.py). A model name such as
    `objects_trees_oak_a.cgf` hides folder boundaries behind underscores;
    the resolver asks the file system which prefixes exist as folders and
    splits there. The file system is the oracle `fileExists`; decoded names
    are held as their UTF-8 bytes. */
module GeoName {
  import opened Bytes
  import opened Outcome
  import opened Paths
  import GeoMap

  const MODELS_PREFIX: seq<Byte> := Ascii("models\\")
  const BIN_SUFFIX: seq<Byte> := Ascii(".bin")
  const CGF_SUFFIX: seq<Byte> := Ascii(".cgf")

  /** The outcome of `resolve_valid_path`: `None`, a `(folder, rest)` pair,
      or a search that never returns. */
  datatype Probe = NoSplit | Split(prefix: seq<Byte>, rest: seq<Byte>) | Hangs

  /** `s.rindex(b, 0, end)`: the last index before `end` holding `b`. */
  function LastIndex(s: seq<Byte>, b: Byte, end: nat): (r: Option<nat>)
    requires end <= |s|
    ensures r.Some? ==> r.value < end && s[r.value] == b
    ensures r.Some? ==> forall j :: r.value < j < end ==> s[j] != b
    ensures r.None? ==> forall j :: 0 <= j < end ==> s[j] != b
  {
    if end == 0 then None
    else if s[end - 1] == b then Some(end - 1)
    else LastIndex(s, b, end - 1)
  }

  /** The search loop from the window `[0, end)` on; `isFolder` tells
      whether a prefix of the name is a folder under the current one. A
      candidate underscore is skipped when a space follows it or when the
      part before it is not a folder; the next window then stops one byte
      short of it, so an underscore right before a rejected one is never
      tried. A rejected underscore at index 0 sets the window end to -1,
      which is where the loop started: from there it repeats itself
      forever. */
  function Scan(name: seq<Byte>, isFolder: seq<Byte> -> bool, end: nat): (r: Probe)
    requires end < |name|
    ensures r.Split? ==> name == r.prefix + [UNDERSCORE] + r.rest && isFolder(r.prefix)
    ensures r.Split? ==> r.rest != [] && r.rest[0] != SPACE
    ensures r.Hangs? ==> name[0] == UNDERSCORE
    decreases end
  {
    match LastIndex(name, UNDERSCORE, end)
    case None => NoSplit
    case Some(idx) =>
      if name[idx + 1] != SPACE && isFolder(name[..idx]) then
        assert name == name[..idx] + [UNDERSCORE] + name[idx + 1..];
        Split(name[..idx], name[idx + 1..])
      else if idx == 0 then Hangs
      else Scan(name, isFolder, idx - 1)
  }

  /** `resolve_valid_path(folder, name)`: nothing for an empty name or one
      that already exists whole; otherwise the search over the window that
      leaves out the last byte. */
  function ProbeSpec(folder: seq<Byte>, name: seq<Byte>, fileExists: seq<Byte> -> bool): (r: Probe)
    ensures name == [] || fileExists(Join(folder, name)) ==> r == NoSplit
    ensures r.Split? ==> name == r.prefix + [UNDERSCORE] + r.rest && fileExists(Join(folder, r.prefix))
    ensures r.Split? ==> r.rest != [] && r.rest[0] != SPACE && |r.rest| < |name|
    ensures r.Hangs? ==> name[0] == UNDERSCORE
  {
    if name == [] || fileExists(Join(folder, name)) then NoSplit
    else Scan(name, FolderTest(folder, fileExists), |name| - 1)
  }

  /** Whether `folder` joined with a prefix exists. */
  function FolderTest(folder: seq<Byte>, fileExists: seq<Byte> -> bool): seq<Byte> -> bool {
    p => fileExists(Join(folder, p))
  }

  /** The window end the loop passes to `rindex`: a negative end counts
      from the end of the name. */
  function WindowEnd(name: seq<Byte>, endIndex: int): nat
    requires name != [] && -1 <= endIndex < |name|
  {
    if endIndex < 0 then |name| + endIndex else endIndex
  }

  /** `resolve_valid_path`, loop for loop: the two early returns, then the
      search. */
  method ResolveValidPath(folder: seq<Byte>, name: seq<Byte>, fileExists: seq<Byte> -> bool) returns (r: Probe)
    ensures r == ProbeSpec(folder, name, fileExists)
  {
    if |name| == 0 || fileExists(Join(folder, name)) {
      return NoSplit;
    }
    r := ScanLoop(name, FolderTest(folder, fileExists));
  }

  /** The `while True` search of `resolve_valid_path`. */
  method ScanLoop(name: seq<Byte>, isFolder: seq<Byte> -> bool) returns (r: Probe)
    requires name != []
    ensures r == Scan(name, isFolder, |name| - 1)
  {
    var endIndex: int := -1;
    while true
      invariant -1 <= endIndex < |name| - 1
      invariant Scan(name, isFolder, WindowEnd(name, endIndex)) == Scan(name, isFolder, |name| - 1)
      decreases WindowEnd(name, endIndex)
    {
      var found := LastIndex(name, UNDERSCORE, WindowEnd(name, endIndex));
      if found.None? {
        return NoSplit;
      }
      var idx: int := found.value;
      endIndex := idx - 1;
      if name[idx + 1] != SPACE && isFolder(name[..idx]) {
        return Split(name[..idx], name[idx + 1..]);
      }
      if endIndex == -1 {
        // The next pass would start from the loop's initial state.
        return Hangs;
      }
    }
  }

  /** The outer loop of `parse_geoname`: split off folders while a split is
      found, then join what is left. `None` when a probe never returns. */
  function ResolveSpec(parent: seq<Byte>, child: seq<Byte>, fileExists: seq<Byte> -> bool): (r: Option<seq<Byte>>)
    decreases |child|
  {
    match ProbeSpec(parent, child, fileExists)
    case NoSplit => Some(Join(parent, child))
    case Split(p, s) => ResolveSpec(Join(parent, p), s, fileExists)
    case Hangs => None
  }

  method Resolve(gameDir: seq<Byte>, name: seq<Byte>, fileExists: seq<Byte> -> bool) returns (r: Option<seq<Byte>>)
    ensures r == ResolveSpec(gameDir, name, fileExists)
  {
    var parent, child := gameDir, name;
    while true
      invariant ResolveSpec(parent, child, fileExists) == ResolveSpec(gameDir, name, fileExists)
      decreases |child|
    {
      var probe := ResolveValidPath(parent, child, fileExists);
      match probe
      case NoSplit =>
        return Some(Join(parent, child));
      case Hangs =>
        return None;
      case Split(p, s) =>
        parent, child := Join(parent, p), s;
    }
  }

  /** How a call ends: with a name, or not at all. */
  datatype Resolution = Name(path: seq<Byte>) | Diverges

  /** The name `parse_geoname` works on once the guards let it through:
      without a leading `models\`, lowered. */
  function Key(geoName: seq<Byte>): seq<Byte> {
    Lower(if MODELS_PREFIX <= Lower(geoName) then geoName[|MODELS_PREFIX|..] else geoName)
  }

  /** The guards that hand the raw name back. */
  predicate PassesThrough(geoName: seq<Byte>, gameDir: Option<seq<Byte>>, fileExists: seq<Byte> -> bool) {
    gameDir.None? || !fileExists(gameDir.value) ||
    GeoMap.TERRAIN_PREFIX <= Lower(geoName) || EndsWith(Lower(geoName), BIN_SUFFIX) ||
    !EndsWith(Lower(geoName), CGF_SUFFIX)
  }

  /** `parse_geoname` against the cache `name_resolves`: the outcome and the
      cache afterwards. `fixBasename` stands for `fixed_basename`, which
      lists directories. */
  function ParseSpec(cache: map<seq<Byte>, seq<Byte>>, geoName: seq<Byte>, gameDir: Option<seq<Byte>>,
                     fileExists: seq<Byte> -> bool, fixBasename: seq<Byte> -> seq<Byte>): (Result<Resolution>, map<seq<Byte>, seq<Byte>>)
  {
    if PassesThrough(geoName, gameDir, fileExists) then (Ok(Name(geoName)), cache)
    else
      var name := Key(geoName);
      if !ValidUtf8(name) then (Err(MixedTypes), cache)
      else if name in cache then (Ok(Name(cache[name])), cache)
      else
        match ResolveSpec(gameDir.value, name, fileExists)
        case None => (Ok(Diverges), cache)
        case Some(joined) =>
          var result := if fileExists(joined) then joined else fixBasename(joined);
          (Ok(Name(result)), cache[name := result])
  }

  /** The module-level cache `name_resolves`, shared by every call. */
  class NameCache {
    var resolves: map<seq<Byte>, seq<Byte>>

    constructor()
      ensures resolves == map[]
    {
      resolves := map[];
    }

    method ParseGeoName(geoName: seq<Byte>, gameDir: Option<seq<Byte>>,
                        fileExists: seq<Byte> -> bool, fixBasename: seq<Byte> -> seq<Byte>) returns (r: Result<Resolution>)
      modifies this
      ensures (r, resolves) == ParseSpec(old(resolves), geoName, gameDir, fileExists, fixBasename)
    {
      if PassesThrough(geoName, gameDir, fileExists) {
        return Ok(Name(geoName));
      }
      var name := Key(geoName);
      if !ValidUtf8(name) {
        return Err(MixedTypes);
      }
      if name in resolves {
        return Ok(Name(resolves[name]));
      }
      var joined := Resolve(gameDir.value, name, fileExists);
      if joined.None? {
        return Ok(Diverges);
      }
      var result := joined.value;
      if !fileExists(result) {
        result := fixBasename(result);
      }
      resolves := resolves[name := result];
      r := Ok(Name(result));
    }
  }

  /** The four early returns hand back the input and leave the cache alone. */
  lemma {:induction false} GuardsPassThrough(cache: map<seq<Byte>, seq<Byte>>, geoName: seq<Byte>, gameDir: Option<seq<Byte>>,
                          fileExists: seq<Byte> -> bool, fixBasename: seq<Byte> -> seq<Byte>)
    requires gameDir.None? || !fileExists(gameDir.value) ||
             GeoMap.TERRAIN_PREFIX <= Lower(geoName) || EndsWith(Lower(geoName), BIN_SUFFIX) ||
             !EndsWith(Lower(geoName), CGF_SUFFIX)
    ensures ParseSpec(cache, geoName, gameDir, fileExists, fixBasename) == (Ok(Name(geoName)), cache)
  {
  }

  /** The cache changes only under the lowered key of a `.cgf` name, and
      only by recording the answer just given. */
  lemma {:induction false} CacheRecordsAnswer(cache: map<seq<Byte>, seq<Byte>>, geoName: seq<Byte>, gameDir: Option<seq<Byte>>,
                           fileExists: seq<Byte> -> bool, fixBasename: seq<Byte> -> seq<Byte>)
    ensures var (r, after) := ParseSpec(cache, geoName, gameDir, fileExists, fixBasename);
      after == cache ||
      (EndsWith(Lower(geoName), CGF_SUFFIX) && Key(geoName) !in cache &&
       r.Ok? && r.value.Name? && after == cache[Key(geoName) := r.value.path])
  {
    if !PassesThrough(geoName, gameDir, fileExists) && ValidUtf8(Key(geoName)) && Key(geoName) !in cache {
      assert EndsWith(Lower(geoName), CGF_SUFFIX);
      match ResolveSpec(gameDir.value, Key(geoName), fileExists)
      case None =>
      case Some(joined) =>
    }
  }

  /** Asking twice gives the same answer, and the second call leaves the
      cache as the first one left it. */
  lemma {:induction false} ParseTwice(cache: map<seq<Byte>, seq<Byte>>, geoName: seq<Byte>, gameDir: Option<seq<Byte>>,
                   fileExists: seq<Byte> -> bool, fixBasename: seq<Byte> -> seq<Byte>)
    ensures var (r, after) := ParseSpec(cache, geoName, gameDir, fileExists, fixBasename);
      ParseSpec(after, geoName, gameDir, fileExists, fixBasename) == (r, after)
  {
  }

  /** A name with no underscore before its last byte is never split: the
      result is the game directory joined with the name. */
  lemma {:induction false} NoUnderscoreJoins(gameDir: seq<Byte>, name: seq<Byte>, fileExists: seq<Byte> -> bool)
    requires forall j :: 0 <= j < |name| - 1 ==> name[j] != UNDERSCORE
    ensures ResolveSpec(gameDir, name, fileExists) == Some(Join(gameDir, name))
  {
    if name != [] && !fileExists(Join(gameDir, name)) {
      assert LastIndex(name, UNDERSCORE, |name| - 1).None?;
    }
  }

  /** A leading underscore that is not a folder boundary makes the search
      spin: for `_a` with nothing on disk the probe never returns. */
  lemma {:induction false} LeadingUnderscoreHangs(folder: seq<Byte>)
    ensures ProbeSpec(folder, [UNDERSCORE, 0x61], p => false) == Hangs
  {
    var name: seq<Byte> := [UNDERSCORE, 0x61];
    assert LastIndex(name, UNDERSCORE, 1) == Some(0);
  }

  /** The window after a rejected underscore stops one byte short of it.
      In `a__b`, once `a_` turns out not to be a folder, the split `a` +
      `_b` is never tried, even when `a` is a folder. */
  lemma {:induction false} DoubleUnderscoreSkipped(folder: seq<Byte>)
    ensures var name: seq<Byte> := [0x61, UNDERSCORE, UNDERSCORE, 0x62];
      ProbeSpec(folder, name, p => p == Join(folder, [0x61])) == NoSplit
  {
    var name: seq<Byte> := [0x61, UNDERSCORE, UNDERSCORE, 0x62];
    var folderA: seq<Byte> := [0x61];
    var fileExists := p => p == Join(folder, folderA);
    var isFolder := FolderTest(folder, fileExists);
    JoinKeepsTail(folder, name);
    JoinKeepsTail(folder, folderA);
    JoinKeepsTail(folder, name[..2]);
    assert !fileExists(Join(folder, name)) by {
      var a, b := Join(folder, name), Join(folder, folderA);
      assert a[|a| - 1] == 0x62 && b[|b| - 1] == 0x61;
    }
    assert !isFolder(name[..2]) by {
      var a, b := Join(folder, name[..2]), Join(folder, folderA);
      assert a[|a| - 1] == UNDERSCORE && b[|b| - 1] == 0x61;
    }
    assert LastIndex(name, UNDERSCORE, 3) == Some(2);
    assert LastIndex(name, UNDERSCORE, 1) == None;
  }
}
