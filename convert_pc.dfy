/** Class `PCPart` of `convert_pc.py`: the game-relative paths of one body
    part's meshes, of the directory its converted model goes to, and of its
    textures. Names are the UTF-8 bytes of the `str`s, and `os.path.join`
    is the Windows one, so the separator is `\`. */
module PcParts {
  import opened Bytes
  import opened Outcome
  import opened Paths

  /** A part: the model name, a gender and a race, as given. */
  datatype Part = Part(modelName: seq<Byte>, gender: seq<Byte>, race: seq<Byte>)

  /** Every byte of `s` is an ASCII letter or digit. */
  predicate AlnumName(s: seq<Byte>) {
    forall k :: 0 <= k < |s| ==> IsAlnum(s[k])
  }

  /** The class `[0-9a-zA-Z]`. */
  predicate IsAlnum(b: Byte) {
    0x30 <= b <= 0x39 || 0x41 <= b <= 0x5A || 0x61 <= b <= 0x7A
  }

  /** `s[0]` of the `str` whose UTF-8 bytes are `s`: as many bytes as its
      lead byte announces. */
  function FirstChar(s: seq<Byte>): (c: seq<Byte>)
    requires s != []
    ensures c != [] && |c| <= |s| && c == s[..|c|]
  {
    s[..if CharWidth(s[0]) <= |s| then CharWidth(s[0]) else |s|]
  }

  /** Lines 21 and 32: `(race[0] + gender[0]).lower()`, where indexing an
      empty name raises. */
  function RaceGender(p: Part): (r: Result<seq<Byte>>)
    ensures r.Ok? <==> p.race != [] && p.gender != []
    ensures r.Err? ==> r.error == IndexOutOfRange
    ensures r.Ok? && p.race[0] < 0x80 && p.gender[0] < 0x80 ==>
      r.value == [LowerByte(p.race[0]), LowerByte(p.gender[0])]
  {
    if p.race == [] || p.gender == [] then Err(IndexOutOfRange)
    else Ok(Lower(FirstChar(p.race) + FirstChar(p.gender)))
  }

  /** The fixed pieces of the paths, as bytes. */
  const CGF := Ascii(".cgf")
  const FOOT := Ascii("foot")
  const HAND := Ascii("hand")
  const SHORT := Ascii("short")
  const OBJECTS_PC := Ascii("Objects\\pc\\")
  const MESH := Ascii("\\mesh")
  const MODEL := Ascii("\\model")

  /** `Objects\pc\<rg>\mesh\<rg><name>.cgf`: the join of line 19 filled in. */
  function MeshPath(rg: seq<Byte>, name: seq<Byte>): seq<Byte> {
    MeshStem(rg, name) + CGF
  }

  /** The mesh path without its extension. */
  function MeshStem(rg: seq<Byte>, name: seq<Byte>): seq<Byte> {
    MeshDir(rg) + [BACKSLASH] + rg + name
  }

  function MeshDir(rg: seq<Byte>): seq<Byte> {
    OBJECTS_PC + rg + MESH
  }

  /** Lines 18-27: the mesh of the part and, for a name ending in `foot` or
      `hand`, its `short` variant. */
  function ModelPaths(p: Part): (r: Result<seq<seq<Byte>>>)
    ensures r.Ok? <==> p.race != [] && p.gender != []
    ensures r.Err? ==> r.error == IndexOutOfRange
    ensures r.Ok? ==>
      var name := Lower(p.modelName);
      var rg := RaceGender(p).value;
      && 1 <= |r.value| <= 2
      && r.value[0] == MeshPath(rg, name)
      && (|r.value| == 2 <==> EndsWith(name, FOOT) || EndsWith(name, HAND))
      && (|r.value| == 2 ==> r.value[1] == MeshPath(rg, name + SHORT))
  {
    var name := Lower(p.modelName);
    var rg :- RaceGender(p);
    var first := [MeshPath(rg, name)];
    if EndsWith(name, FOOT) || EndsWith(name, HAND) then
      Ok(first + [MeshPath(rg, name + SHORT)])
    else Ok(first)
  }

  /** The length of the run of letters and digits in `s` from `i`. */
  function AlnumRun(s: seq<Byte>, i: nat): (n: nat)
    requires i <= |s|
    ensures i + n <= |s|
    ensures forall j :: i <= j < i + n ==> IsAlnum(s[j])
    ensures i + n < |s| ==> !IsAlnum(s[i + n])
    decreases |s| - i
  {
    if i < |s| && IsAlnum(s[i]) then 1 + AlnumRun(s, i + 1) else 0
  }

  /** Lines 34-38: `group(1) + '_' + group(2)` of the anchored match of
      `([0-9a-zA-Z]+)_([0-9a-zA-Z]+).*`, or the whole name when it does not
      match. Both groups are greedy and group 1 cannot hold the `_`, so the
      match is the longest run, the `_`, and the longest run after it. */
  function ModelDirName(name: seq<Byte>): (r: seq<Byte>)
    ensures |r| <= |name| && r == name[..|r|]
  {
    var a := AlnumRun(name, 0);
    if 1 <= a < |name| && name[a] == UNDERSCORE then
      var b := AlnumRun(name, a + 1);
      if b >= 1 then name[..a + 1 + b] else name
    else name
  }

  /** The pattern matches at the start of `s` with group 1 `s[..i]` and
      group 2 `s[i + 1 .. i + 1 + j]`. */
  predicate PatternMatch(s: seq<Byte>, i: int, j: int) {
    && 1 <= i < |s| && s[i] == UNDERSCORE && 1 <= j && i + 1 + j <= |s|
    && (forall k :: 0 <= k < i ==> IsAlnum(s[k]))
    && (forall k :: i + 1 <= k < i + 1 + j ==> IsAlnum(s[k]))
  }

  /** When the pattern matches, the directory name is the match that
      Python's backtracking picks: group 1 is the only possible one, and
      group 2 the longest. */
  lemma {:induction false} ModelDirNameMatch(name: seq<Byte>) returns (i: int, j: int)
    requires exists i, j :: PatternMatch(name, i, j)
    ensures PatternMatch(name, i, j)
    ensures forall i', j' :: PatternMatch(name, i', j') ==> i' == i && j' <= j
    ensures ModelDirName(name) == name[..i + 1 + j]
  {
    var i0, j0 :| PatternMatch(name, i0, j0);
    var a := AlnumRun(name, 0);
    MatchGroupOne(name, i0, j0);
    var b := AlnumRun(name, a + 1);
    assert IsAlnum(name[a + 1]);
    i, j := a, b;
    forall i', j' | PatternMatch(name, i', j')
      ensures i' == i && j' <= j
    {
      MatchGroupOne(name, i', j');
    }
  }

  /** Group 1 of any match is the whole leading run of letters and
      digits. */
  lemma {:induction false} MatchGroupOne(name: seq<Byte>, i: int, j: int)
    requires PatternMatch(name, i, j)
    ensures AlnumRun(name, 0) == i
  {
  }

  /** Without a match the directory is named after the whole model. */
  lemma {:induction false} ModelDirNameNoMatch(name: seq<Byte>)
    requires forall i, j :: !PatternMatch(name, i, j)
    ensures ModelDirName(name) == name
  {
    var a := AlnumRun(name, 0);
    if 1 <= a < |name| && name[a] == UNDERSCORE {
      var b := AlnumRun(name, a + 1);
      assert b >= 1 ==> PatternMatch(name, a, b);
    }
  }

  /** Lines 29-41: `Objects\pc\<rg>\model\<rg><dir>`. */
  function ModelOutputPath(p: Part): (r: Result<seq<Byte>>)
    ensures r.Ok? <==> p.race != [] && p.gender != []
    ensures r.Err? ==> r.error == IndexOutOfRange
  {
    var name := Lower(p.modelName);
    var rg :- RaceGender(p);
    Ok(ModelDir(rg) + [BACKSLASH] + rg + ModelDirName(name))
  }

  function ModelDir(rg: seq<Byte>): seq<Byte> {
    OBJECTS_PC + rg + MODEL
  }

  /** The six texture suffixes, in the order the dictionary is filled: the
      source names, and the output names after the output directory and
      the mesh's base name. */
  const TextureKeys: seq<seq<Byte>> :=
    [Ascii(".dds"), Ascii("_ddn.dds"), Ascii("_sp.dds"), Ascii("_mask.dds"), Ascii("_overmask.dds"), Ascii("_illum.dds")]
  const TextureOutputs: seq<seq<Byte>> :=
    [Ascii("_albedo.dds"), Ascii("_ddn.dds"), Ascii("_sp.dds"), Ascii("_mask.dds"), Ascii("_overmask.dds"), Ascii("_illum.dds")]

  /** The bytes of texture suffix `k`. */
  function KeySuffix(k: nat): (s: seq<Byte>)
    requires k < 6
  {
    TextureKeys[k]
  }

  /** No two texture suffixes have the same length. */
  lemma {:induction false} KeySuffixesDiffer()
    ensures forall a, b :: 0 <= a < b < 6 ==> |KeySuffix(a)| != |KeySuffix(b)|
  {
  }

  function OutputSuffix(k: nat): seq<Byte>
    requires k < 6
  {
    TextureOutputs[k]
  }

  /** Lines 43-59: the texture dictionary, in insertion order, as
      `(source, output)` pairs. */
  function TexturePaths(p: Part): (r: Result<seq<(seq<Byte>, seq<Byte>)>>)
    ensures r.Ok? <==> p.race != [] && p.gender != []
    ensures r.Err? ==> r.error == IndexOutOfRange
    ensures r.Ok? ==> |r.value| == 6
  {
    var paths :- ModelPaths(p);
    var out := ModelOutputPath(p).value;
    var root := SplitExt(paths[0]).0;
    var file := Join(out, BaseName(root));
    Ok(seq(6, k requires 0 <= k < 6 => (root + KeySuffix(k), file + OutputSuffix(k))))
  }

  /** The six texture keys are distinct, so the dictionary keeps all six
      entries. */
  lemma {:induction false} TextureKeysDistinct(p: Part)
    requires p.race != [] && p.gender != []
    ensures forall a, b :: 0 <= a < b < 6 ==> TexturePaths(p).value[a].0 != TexturePaths(p).value[b].0
  {
    KeySuffixesDiffer();
  }

  /** For a part whose race and gender start with letters or digits and
      whose name holds no separator: the texture keys are the first mesh
      path less `.cgf`, plus each suffix; the outputs sit in the output
      directory, under the mesh's file name, with `.dds` becoming
      `_albedo.dds`. */
  lemma {:induction false} TexturePathsPlain(p: Part)
    requires p.race != [] && p.gender != [] && AlnumName(RaceGender(p).value)
    requires forall k :: 0 <= k < |p.modelName| ==> !IsSep(Lower(p.modelName)[k])
    ensures
      var name := Lower(p.modelName);
      var rg := RaceGender(p).value;
      var outFile := ModelOutputPath(p).value + [BACKSLASH] + rg + name;
      && ModelPaths(p).value[0] == MeshStem(rg, name) + CGF
      && forall k :: 0 <= k < 6 ==>
           TexturePaths(p).value[k] == (MeshStem(rg, name) + KeySuffix(k), outFile + OutputSuffix(k))
  {
    var name := Lower(p.modelName);
    var rg := RaceGender(p).value;
    RaceGenderAlnum(p);
    MeshSplit(rg, name);
    OutputJoin(rg, name);
  }

  lemma {:induction false} RaceGenderAlnum(p: Part)
    requires p.race != [] && p.gender != [] && AlnumName(RaceGender(p).value)
    ensures |RaceGender(p).value| == 2
  {
    var rg := RaceGender(p).value;
    assert IsAlnum(rg[0]) && p.race[0] < 0x80;
    assert IsAlnum(rg[1]) && p.gender[0] < 0x80;
  }

  /** The mesh path splits into the stem and `.cgf`, and the stem's file
      name is `<rg><name>`. */
  lemma {:induction false} MeshSplit(rg: seq<Byte>, name: seq<Byte>)
    requires |rg| == 2 && AlnumName(rg)
    requires forall k :: 0 <= k < |name| ==> !IsSep(name[k])
    ensures SplitExt(MeshPath(rg, name)).0 == MeshStem(rg, name)
    ensures BaseName(MeshStem(rg, name)) == rg + name
  {
    var file := rg + name;
    var head := MeshDir(rg) + [BACKSLASH];
    ConcatAssoc(head, rg, name);
    assert MeshStem(rg, name) == head + file;
    assert forall k :: 0 <= k < |file| ==> !IsSep(file[k]) by {
      forall k | 0 <= k < |file|
        ensures !IsSep(file[k])
      {
        if k < 2 {
          assert IsAlnum(rg[k]);
        }
      }
    }
    SplitExtAt(head, file, CGF);
    NoDrive(MeshStem(rg, name));
    SplitAt(MeshDir(rg), file);
  }

  /** Joining the output directory with `<rg><name>` puts one `\` between
      them. */
  lemma {:induction false} OutputJoin(rg: seq<Byte>, name: seq<Byte>)
    requires |rg| == 2 && AlnumName(rg)
    requires forall k :: 0 <= k < |name| ==> !IsSep(name[k])
    ensures var out := ModelDir(rg) + [BACKSLASH] + rg + ModelDirName(name);
      Join(out, rg + name) == out + [BACKSLASH] + rg + name
  {
    var dir := ModelDirName(name);
    var out := ModelDir(rg) + [BACKSLASH] + rg + dir;
    var file := rg + name;
    OutputDirShape(rg, dir);
    assert IsAlnum(rg[0]) && IsAlnum(rg[1]);
    NoDrive(file);
    JoinRelative(out, file);
    assert Join(out, file) == out + [BACKSLASH] + file;
    ConcatAssoc(out + [BACKSLASH], rg, name);
  }

  lemma {:induction false} ConcatAssoc<T>(a: seq<T>, b: seq<T>, c: seq<T>)
    ensures a + (b + c) == a + b + c
  {
  }

  /** The output directory has no drive and does not end in a
      separator. */
  lemma {:induction false} OutputDirShape(rg: seq<Byte>, dir: seq<Byte>)
    requires |rg| == 2 && AlnumName(rg)
    requires forall k :: 0 <= k < |dir| ==> !IsSep(dir[k])
    ensures var out := ModelDir(rg) + [BACKSLASH] + rg + dir;
      SplitDrive(out) == ([], out) && !IsSep(out[|out| - 1])
  {
    var out := ModelDir(rg) + [BACKSLASH] + rg + dir;
    assert out[0] == 0x4F && out[1] == 0x62;
    NoDrive(out);
    assert IsAlnum(rg[1]);
    if dir == [] {
      assert out[|out| - 1] == rg[1];
    } else {
      assert out[|out| - 1] == dir[|dir| - 1];
    }
  }
}
