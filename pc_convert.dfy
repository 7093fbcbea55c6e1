/** `Convert.convert` of `convert_pc.py`: the four parts of every model
    name, the blender command per mesh, the copy of every texture found
    under the game directory, the per-directory count of copied textures
    and one `dds2png` command per texture directory. The commands are
    values; running them, copying files and creating directories are not
    modelled. */
module PcConvert {
  import opened Bytes
  import opened Outcome
  import opened Paths
  import opened PcParts
  import opened DirCount

  /** Lines 137-138. */
  const Races: seq<seq<Byte>> := [Ascii("lf"), Ascii("df")]
  const Genders: seq<seq<Byte>> := [Ascii("male"), Ascii("female")]

  /** The options `convert` reads: the blender executable (`-b`, which
      has no default and may be missing under `--textures-only`), the game
      directory, the output root and the `--test` flag. */
  datatype Options = Options(blender: Option<seq<Byte>>, directory: seq<Byte>, outputDirectory: seq<Byte>, test: bool)

  /** A queued command: the blender conversion of one mesh into an output
      directory, or the `dds2png` conversion of one texture directory. */
  datatype Command =
    | Cgf2Fbx(outputDirectory: seq<Byte>, model: seq<Byte>)
    | Dds2Png(textureDir: seq<Byte>)

  /** A part whose race and gender can be indexed, so its paths exist. */
  predicate Named(p: Part) {
    p.race != [] && p.gender != []
  }

  /** The four parts of one model name, in the order of the nested loops
      of lines 143-145: race outer, gender inner. */
  function Quad(name: seq<Byte>): seq<Part> {
    [Part(name, Genders[0], Races[0]), Part(name, Genders[1], Races[0]),
     Part(name, Genders[0], Races[1]), Part(name, Genders[1], Races[1])]
  }

  /** Lines 140-145: the parts of all model names, name by name. */
  function Parts(names: seq<seq<Byte>>): (parts: seq<Part>)
    ensures |parts| == 4 * |names|
    ensures forall k :: 0 <= k < |parts| ==> Named(parts[k])
  {
    if names == [] then [] else Parts(names[..|names| - 1]) + Quad(names[|names| - 1])
  }

  /** The position of name `i`, race `m`, gender `n` in the nested loops. */
  function Slot(i: nat, m: nat, n: nat): nat {
    4 * i + 2 * m + n
  }

  /** The enumeration is name-major, then race, then gender: every
      combination appears, at its slot. */
  lemma {:induction false} PartsOrder(names: seq<seq<Byte>>, i: nat, m: nat, n: nat)
    requires i < |names| && m < 2 && n < 2
    ensures Slot(i, m, n) < |Parts(names)|
    ensures Parts(names)[Slot(i, m, n)] == Part(names[i], Genders[n], Races[m])
  {
    var init := names[..|names| - 1];
    if i < |names| - 1 {
      PartsOrder(init, i, m, n);
    } else {
      assert Parts(names)[Slot(i, m, n)] == Quad(names[i])[2 * m + n];
    }
  }

  /** Lines 140-145: the parts, built by the three nested loops. */
  method EnumerateParts(names: seq<seq<Byte>>) returns (parts: seq<Part>)
    ensures parts == Parts(names)
  {
    parts := [];
    var i := 0;
    while i < |names|
      invariant 0 <= i <= |names|
      invariant parts == Parts(names[..i])
    {
      ghost var done := parts;
      ghost var quad := Quad(names[i]);
      var m := 0;
      while m < |Races|
        invariant 0 <= m <= 2
        invariant parts == done + quad[..2 * m]
      {
        var n := 0;
        while n < |Genders|
          invariant 0 <= n <= 2
          invariant parts == done + quad[..2 * m + n]
        {
          assert quad[..2 * m + n + 1] == quad[..2 * m + n] + [Part(names[i], Genders[n], Races[m])];
          parts := parts + [Part(names[i], Genders[n], Races[m])];
          n := n + 1;
        }
        m := m + 1;
      }
      assert quad[..4] == quad;
      assert names[..i + 1][..i] == names[..i];
      i := i + 1;
    }
    assert names[..i] == names;
  }

  /** Lines 153-158: one blender command per mesh path of the part, all
      writing into the part's model output directory. */
  function PartCommands(o: Options, p: Part): (cs: seq<Command>)
    requires Named(p)
    ensures 1 <= |cs| <= 2
  {
    FbxFor(o, Join(o.outputDirectory, ModelOutputPath(p).value), ModelPaths(p).value)
  }

  /** The blender command of each mesh path, writing into `out`. */
  function FbxFor(o: Options, out: seq<Byte>, paths: seq<seq<Byte>>): (cs: seq<Command>)
    ensures |cs| == |paths|
  {
    seq(|paths|, j requires 0 <= j < |paths| => Cgf2Fbx(out, Join(o.directory, paths[j])))
  }

  /** Lines 162-166: the paths of one texture entry: its source under the
      game directory, its copy under the output root, and the directory
      of that copy. */
  datatype Job = Job(src: seq<Byte>, dst: seq<Byte>, dir: seq<Byte>)

  function JobOf(o: Options, entry: (seq<Byte>, seq<Byte>)): Job {
    var dst := Join(o.outputDirectory, entry.1);
    Job(Join(o.directory, entry.0), dst, DirName(dst))
  }

  /** What one part contributes: its blender commands and the paths of
      its six textures, in the order of `getTexturePaths`. */
  datatype Plan = Plan(commands: seq<Command>, jobs: seq<Job>)

  function PlanOf(o: Options, p: Part): (plan: Plan)
    requires Named(p)
    ensures 1 <= |plan.commands| <= 2 && |plan.jobs| == 6
  {
    var entries := TexturePaths(p).value;
    Plan(PartCommands(o, p), seq(|entries|, j requires 0 <= j < |entries| => JobOf(o, entries[j])))
  }

  /** The plan of every part, in order. */
  function Plans(o: Options, parts: seq<Part>): (plans: seq<Plan>)
    requires forall k :: 0 <= k < |parts| ==> Named(parts[k])
    ensures |plans| == |parts|
  {
    if parts == [] then [] else Plans(o, parts[..|parts| - 1]) + [PlanOf(o, parts[|parts| - 1])]
  }

  /** The blender commands of the first `i` plans, in order. */
  function FbxAll(plans: seq<Plan>, i: nat): seq<Command>
    requires i <= |plans|
  {
    if i == 0 then [] else FbxAll(plans, i - 1) + plans[i - 1].commands
  }

  /** Lines 161-165: the first `j` jobs whose source exists. */
  function FoundIn(existing: set<seq<Byte>>, jobs: seq<Job>, j: nat): (found: seq<Job>)
    requires j <= |jobs|
    ensures |found| <= j
  {
    if j == 0 then []
    else FoundIn(existing, jobs, j - 1) + (if jobs[j - 1].src in existing then [jobs[j - 1]] else [])
  }

  /** The textures found for the first `i` plans, in order. */
  function FoundAll(existing: set<seq<Byte>>, plans: seq<Plan>, i: nat): seq<Job>
    requires i <= |plans|
  {
    if i == 0 then [] else FoundAll(existing, plans, i - 1) + FoundIn(existing, plans[i - 1].jobs, |plans[i - 1].jobs|)
  }

  /** Line 166: the directory each found texture is copied into. */
  function Dirs(found: seq<Job>): (ds: seq<seq<Byte>>)
    ensures |ds| == |found|
  {
    if found == [] then [] else Dirs(found[..|found| - 1]) + [found[|found| - 1].dir]
  }

  /** Lines 182-185: one `dds2png` command per directory, in order. */
  function DdsCommands(dirs: seq<seq<Byte>>): (cs: seq<Command>)
    ensures |cs| == |dirs|
    ensures forall k :: 0 <= k < |dirs| ==> cs[k] == Dds2Png(dirs[k])
  {
    if dirs == [] then [] else DdsCommands(dirs[..|dirs| - 1]) + [Dds2Png(dirs[|dirs| - 1])]
  }

  /** Every found texture exists under the game directory, and the jobs
      are found in order: a found texture is one of the jobs. */
  lemma {:induction false} FoundExists(existing: set<seq<Byte>>, jobs: seq<Job>, j: nat)
    requires j <= |jobs|
    ensures forall c :: c in FoundIn(existing, jobs, j) ==> c.src in existing && c in jobs[..j]
  {
    if j > 0 {
      FoundExists(existing, jobs, j - 1);
      assert jobs[..j] == jobs[..j - 1] + [jobs[j - 1]];
    }
  }

  /** What the loop over the textures has gathered so far: the textures
      found, `texture_dirs`, and its keys in insertion order. */
  datatype Tally = Tally(found: seq<Job>, counts: map<seq<Byte>, nat>, order: seq<seq<Byte>>)

  /** `texture_dirs` counts the output directories of the textures found,
      and its keys are kept in the order they were added. */
  predicate Tracks(t: Tally) {
    t.counts == CountMap(Dirs(t.found)) && t.order == Dedup(Dirs(t.found))
  }

  /** Lines 165-178 for one texture: copy it if its source exists, and
      count its directory. */
  method CopyEntry(existing: set<seq<Byte>>, job: Job, t: Tally) returns (t': Tally)
    requires Tracks(t)
    ensures Tracks(t') && t'.found == t.found + (if job.src in existing then [job] else [])
  {
    t' := t;
    if job.src in existing {
      var found := t.found + [job];
      assert found[..|t.found|] == t.found;
      var counts, order := Record(t.counts, t.order, job.dir, Dirs(t.found));
      t' := Tally(found, counts, order);
    }
  }

  /** Lines 161-178 for the textures of one part. */
  method CopyTextures(existing: set<seq<Byte>>, jobs: seq<Job>, t: Tally) returns (t': Tally)
    requires Tracks(t)
    ensures Tracks(t') && t'.found == t.found + FoundIn(existing, jobs, |jobs|)
  {
    t' := t;
    for j := 0 to |jobs|
      invariant Tracks(t') && t'.found == t.found + FoundIn(existing, jobs, j)
    {
      t' := CopyEntry(existing, jobs[j], t');
      ConcatAssoc(t.found, FoundIn(existing, jobs, j), if jobs[j].src in existing then [jobs[j]] else []);
    }
  }

  /** Lines 154-158: one blender command per mesh path. */
  method ModelCommands(o: Options, out: seq<Byte>, paths: seq<seq<Byte>>) returns (cs: seq<Command>)
    ensures cs == FbxFor(o, out, paths)
  {
    cs := [];
    for j := 0 to |paths|
      invariant |cs| == j
      invariant forall k :: 0 <= k < j ==> cs[k] == Cgf2Fbx(out, Join(o.directory, paths[k]))
    {
      cs := cs + [Cgf2Fbx(out, Join(o.directory, paths[j]))];
    }
  }

  /** Lines 153-166 for one part: its blender commands and the paths of
      its textures. */
  method MakePlan(o: Options, p: Part) returns (plan: Plan)
    requires Named(p)
    ensures plan == PlanOf(o, p)
  {
    var out := Join(o.outputDirectory, ModelOutputPath(p).value);
    var cs := ModelCommands(o, out, ModelPaths(p).value);
    var entries := TexturePaths(p).value;
    plan := Plan(cs, seq(|entries|, j requires 0 <= j < |entries| => JobOf(o, entries[j])));
  }

  /** The plan of part `i` appended to those of the parts before it. */
  method PlanStep(o: Options, parts: seq<Part>, i: nat, plans: seq<Plan>) returns (plans': seq<Plan>)
    requires i < |parts| && forall k :: 0 <= k < |parts| ==> Named(parts[k])
    requires plans == Plans(o, parts[..i])
    ensures plans' == Plans(o, parts[..i + 1])
  {
    var plan := MakePlan(o, parts[i]);
    assert parts[..i + 1][..i] == parts[..i];
    plans' := plans + [plan];
  }

  /** The plans of all parts, part by part. */
  method MakePlans(o: Options, parts: seq<Part>) returns (plans: seq<Plan>)
    requires forall k :: 0 <= k < |parts| ==> Named(parts[k])
    ensures plans == Plans(o, parts)
  {
    plans := [];
    for i := 0 to |parts|
      invariant plans == Plans(o, parts[..i])
    {
      plans := PlanStep(o, parts, i, plans);
    }
    assert parts[..|parts|] == parts;
  }

  /** Lines 152-178 over the plans: the blender commands queued and the
      textures copied and counted. */
  method RunPlans(existing: set<seq<Byte>>, plans: seq<Plan>) returns (fbx: seq<Command>, t: Tally)
    ensures fbx == FbxAll(plans, |plans|)
    ensures Tracks(t) && t.found == FoundAll(existing, plans, |plans|)
  {
    fbx := [];
    t := Tally([], map[], []);
    for i := 0 to |plans|
      invariant fbx == FbxAll(plans, i)
      invariant Tracks(t) && t.found == FoundAll(existing, plans, i)
    {
      fbx := fbx + plans[i].commands;
      t := CopyTextures(existing, plans[i].jobs, t);
    }
  }

  /** Lines 182-185: a `dds2png` command appended per directory. */
  method EmitDds(cmds: seq<Command>, dirs: seq<seq<Byte>>) returns (cmds': seq<Command>)
    ensures cmds' == cmds + DdsCommands(dirs)
  {
    cmds' := cmds;
    for k := 0 to |dirs|
      invariant cmds' == cmds + DdsCommands(dirs[..k])
    {
      assert dirs[..k + 1][..k] == dirs[..k];
      cmds' := cmds' + [Dds2Png(dirs[k])];
    }
    assert dirs[..|dirs|] == dirs;
  }

  /** Lines 123-185: the queued commands (blender first, then one
      `dds2png` per texture directory), the copies made (none under
      `--test`) and the final `texture_dirs`. Without a blender executable
      the first command of the first part starts with `None`, and the
      `' '.join(cmd)` of line 159 raises before anything is copied. */
  method Convert(o: Options, existing: set<seq<Byte>>, names: seq<seq<Byte>>)
    returns (err: Option<Error>, cmds: seq<Command>, copies: seq<Job>, textureDirs: map<seq<Byte>, nat>)
    ensures err.Some? <==> o.blender.None? && names != []
    ensures err.Some? ==> err.value == NoneJoined && cmds == [] && copies == [] && textureDirs == map[]
    ensures err.None? ==>
      var plans := Plans(o, Parts(names));
      var found := FoundAll(existing, plans, |plans|);
      && cmds == FbxAll(plans, |plans|) + DdsCommands(Dedup(Dirs(found)))
      && copies == (if o.test then [] else found)
      && textureDirs == CountMap(Dirs(found))
  {
    var parts := EnumerateParts(names);
    if o.blender.None? && parts != [] {
      return Some(NoneJoined), [], [], map[];
    }
    err := None;
    var plans := MakePlans(o, parts);
    var fbx, t := RunPlans(existing, plans);
    cmds := EmitDds(fbx, t.order);
    copies := if o.test then [] else t.found;
    textureDirs := t.counts;
  }

  /** The `dds2png` commands of a run name every key of `texture_dirs`
      exactly once. */
  lemma {:induction false} OneDdsPerDir(ds: seq<seq<Byte>>, d: seq<Byte>)
    ensures d in CountMap(ds) <==> Dds2Png(d) in DdsCommands(Dedup(ds))
    ensures forall a, b :: 0 <= a < b < |Dedup(ds)| ==> DdsCommands(Dedup(ds))[a] != DdsCommands(Dedup(ds))[b]
  {
    DedupDistinct(ds);
    var cs := DdsCommands(Dedup(ds));
    if Dds2Png(d) in cs {
      var k :| 0 <= k < |cs| && cs[k] == Dds2Png(d);
      assert Dedup(ds)[k] == d;
    }
  }
}
