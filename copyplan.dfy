/**
 * The copying half of convert_toontrack_midi.py: `copy_file`,
 * `copy_optional_mapping_file` and the main loop, over an abstract file
 * system of folders and files.
 */
module CopyPlan {
  import opened Results
  import opened PyStr
  import opened MidiNames

  /** The bytes of a file; they are only ever copied. */
  type Blob = seq<bv8>

  /** `pathlib.Path(dir) / name`, written with the Windows separator the decoder splits on. */
  function PathJoin(dir: string, name: string): string
  {
    dir + "\\" + name
  }

  /** A snapshot of the file system: the folders and the files with their contents. */
  datatype Disk = Disk(dirs: set<string>, files: map<string, Blob>)

  /** Why a run stops; every one of them is an uncaught Python exception. */
  datatype Failure =
    | BadPath(index: nat, reason: PathError)               // convert_path raised on the index-th discovered path
    | BadPackageArgument(reason: PathError)                  // convert_package_name raised on the package argument
    | FileNotFound(path: string)                             // copyfile met no source file, or no destination folder
    | SameFile(path: string)                                 // copyfile was asked to copy a file onto itself

  /** A file system after some steps, and the exception that stopped them, if any. */
  datatype Run = Run(disk: Disk, failure: Option<Failure>)

  /**
   * `shutil.copyfile(src, dir/name)`: overwrite or create the destination with
   * the source's bytes. As in Python, a copy of an existing file onto itself is
   * refused first, then the source is opened, then the destination.
   */
  function CopyFileSpec(d: Disk, src: string, dir: string, name: string): Run
  {
    var dst := PathJoin(dir, name);
    if src in d.files && src == dst then Run(d, Some(SameFile(src)))
    else if src !in d.files then Run(d, Some(FileNotFound(src)))
    else if dir !in d.dirs then Run(d, Some(FileNotFound(dst)))
    else Run(Disk(d.dirs, d.files[dst := d.files[src]]), None)
  }

  /** The folder a decoded MIDI file is copied into: named after its own package only. */
  function MidiFolder(m: Descriptor): string
  {
    MakeFolderName(m.package)
  }

  /** The name a decoded MIDI file gets: `file_name(*components[2:], category)`. */
  function MidiName(m: Descriptor, category: string): string
  {
    FileName(m.package, m.groove, m.signature, m.group, m.kind, m.variation, category)
  }

  /** `copy_file`: create the package folder if it is missing, then copy the file into it. */
  function CopyMidiSpec(d: Disk, m: Descriptor, category: string): Run
  {
    var dir := MidiFolder(m);
    CopyFileSpec(Disk(d.dirs + {dir}, d.files), m.path, dir, MidiName(m, category))
  }

  /** `map(convert_path, paths)`: the decoder's answer for each discovered path, in discovery order. */
  function DecodeAll(paths: seq<string>): seq<Result<Descriptor, PathError>>
  {
    seq(|paths|, i requires 0 <= i < |paths| => ConvertPath(paths[i]))
  }

  /**
   * The main loop over the decoded paths, one at a time: `map` decodes
   * lazily, so a path that does not decode stops the run after the copies of
   * the paths before it.
   */
  function CopyAllSpec(d: Disk, rs: seq<Result<Descriptor, PathError>>, category: string): Run
  {
    if rs == [] then Run(d, None)
    else
      var n := |rs| - 1;
      var before := CopyAllSpec(d, rs[..n], category);
      if before.failure.Some? then before
      else
        match rs[n]
        case Err(e) => Run(before.disk, Some(BadPath(n, e)))
        case Ok(m) => CopyMidiSpec(before.disk, m, category)
  }

  /**
   * `copy_optional_mapping_file`: with no candidate nothing happens; otherwise
   * the first candidate is copied into the package folder (which is not
   * created here) under the folder's own name.
   */
  function MappingSpec(d: Disk, package: string, candidates: seq<string>): Run
  {
    if candidates == [] then Run(d, None)
    else
      match ConvertPackageName(package)
      case Err(e) => Run(d, Some(BadPackageArgument(e)))
      case Ok(name) =>
        var dir := MakeFolderName(name);
        CopyFileSpec(d, candidates[0], dir, MappingFileName(dir))
  }

  /** The main block: the MIDI files first, then, if nothing failed, the mapping file. */
  function ConvertSpec(d: Disk, package: string, category: string, paths: seq<string>, candidates: seq<string>): Run
  {
    var r := CopyAllSpec(d, DecodeAll(paths), category);
    if r.failure.Some? then r else MappingSpec(r.disk, package, candidates)
  }

  /** The file system the script works on. */
  class FileSystem {
    var dirs: set<string>
    var files: map<string, Blob>

    constructor (dirs: set<string>, files: map<string, Blob>)
      ensures this.dirs == dirs && this.files == files
    {
      this.dirs := dirs;
      this.files := files;
    }

    function Snapshot(): Disk
      reads this
    {
      Disk(dirs, files)
    }

    /** `Path(dir).mkdir(exist_ok=True)`: idempotent, and no file changes. */
    method MakeDir(dir: string)
      modifies this
      ensures dirs == old(dirs) + {dir}
      ensures files == old(files)
    {
      dirs := dirs + {dir};
    }

    /** `shutil.copyfile(src, dir/name)`. */
    method CopyFile(src: string, dir: string, name: string) returns (failure: Option<Failure>)
      modifies this
      ensures Run(Snapshot(), failure) == CopyFileSpec(old(Snapshot()), src, dir, name)
    {
      var dst := PathJoin(dir, name);
      if src in files && src == dst {
        failure := Some(SameFile(src));
      } else if src !in files {
        failure := Some(FileNotFound(src));
      } else if dir !in dirs {
        failure := Some(FileNotFound(dst));
      } else {
        files := files[dst := files[src]];
        failure := None;
      }
    }
  }

  /** `copy_file(components, category)`. */
  method CopyMidi(fs: FileSystem, m: Descriptor, category: string) returns (failure: Option<Failure>)
    modifies fs
    ensures Run(fs.Snapshot(), failure) == CopyMidiSpec(old(fs.Snapshot()), m, category)
  {
    var dir := MakeFolderName(m.package);
    var name := FileName(m.package, m.groove, m.signature, m.group, m.kind, m.variation, category);
    fs.MakeDir(dir);
    failure := fs.CopyFile(m.path, dir, name);
  }

  /** `copy_optional_mapping_file(package)`, given the matches of the search for mapping files. */
  method CopyOptionalMapping(fs: FileSystem, package: string, candidates: seq<string>)
    returns (failure: Option<Failure>)
    modifies fs
    ensures Run(fs.Snapshot(), failure) == MappingSpec(old(fs.Snapshot()), package, candidates)
  {
    failure := None;
    if candidates != [] {
      var orig := candidates[0];
      var name := ConvertPackageName(package);
      if name.Err? {
        failure := Some(BadPackageArgument(name.error));
      } else {
        var dir := MakeFolderName(name.value);
        failure := fs.CopyFile(orig, dir, MappingFileName(dir));
      }
    }
  }

  /** Once a step has failed, later results change nothing. */
  lemma {:induction false} CopyAllStops(d: Disk, rs: seq<Result<Descriptor, PathError>>, category: string, k: nat)
    requires k <= |rs|
    requires CopyAllSpec(d, rs[..k], category).failure.Some?
    ensures CopyAllSpec(d, rs, category) == CopyAllSpec(d, rs[..k], category)
  {
    if k < |rs| {
      var n := |rs| - 1;
      assert rs[..n][..k] == rs[..k];
      CopyAllStops(d, rs[..n], category, k);
    } else {
      assert rs[..k] == rs;
    }
  }

  /** One more result: either the run has already stopped, or that result is copied or stops the run. */
  lemma CopyAllStep(d: Disk, rs: seq<Result<Descriptor, PathError>>, category: string, i: nat)
    requires i < |rs|
    ensures var before := CopyAllSpec(d, rs[..i], category);
      CopyAllSpec(d, rs[..i + 1], category) ==
        if before.failure.Some? then before
        else match rs[i]
          case Err(e) => Run(before.disk, Some(BadPath(i, e)))
          case Ok(m) => CopyMidiSpec(before.disk, m, category)
  {
    assert rs[..i + 1][..i] == rs[..i];
  }

  /**
   * The main block: copy every discovered MIDI file in discovery order, then
   * the optional mapping file.
   */
  method ConvertPackage(fs: FileSystem, package: string, category: string,
                        paths: seq<string>, candidates: seq<string>)
    returns (failure: Option<Failure>)
    modifies fs
    ensures Run(fs.Snapshot(), failure) == ConvertSpec(old(fs.Snapshot()), package, category, paths, candidates)
  {
    ghost var start := fs.Snapshot();
    ghost var rs := DecodeAll(paths);
    var i := 0;
    while i < |paths|
      invariant 0 <= i <= |paths|
      invariant CopyAllSpec(start, rs[..i], category) == Run(fs.Snapshot(), None)
    {
      CopyAllStep(start, rs, category, i);
      var decoded := ConvertPath(paths[i]);
      assert decoded == rs[i];
      if decoded.Err? {
        failure := Some(BadPath(i, decoded.error));
        CopyAllStops(start, rs, category, i + 1);
        return;
      }
      failure := CopyMidi(fs, decoded.value, category);
      if failure.Some? {
        CopyAllStops(start, rs, category, i + 1);
        return;
      }
      i := i + 1;
    }
    assert rs[..i] == rs;
    failure := CopyOptionalMapping(fs, package, candidates);
  }

  /** Every result is a decoded descriptor. */
  predicate AllOk(rs: seq<Result<Descriptor, PathError>>)
  {
    forall i :: 0 <= i < |rs| ==> rs[i].Ok?
  }

  /** Where a decoded MIDI file is copied to. */
  function Target(m: Descriptor, category: string): string
  {
    PathJoin(MidiFolder(m), MidiName(m, category))
  }

  /** The index of the first result that is an error, or the number of results. */
  function FirstError(rs: seq<Result<Descriptor, PathError>>): (k: nat)
    ensures k <= |rs|
    ensures forall i :: 0 <= i < k ==> rs[i].Ok?
    ensures k < |rs| ==> rs[k].Err?
  {
    if rs == [] || rs[0].Err? then 0 else 1 + FirstError(rs[1..])
  }

  /** The folders the loop creates. */
  function Folders(rs: seq<Result<Descriptor, PathError>>): set<string>
    requires AllOk(rs)
  {
    if rs == [] then {}
    else
      var n := |rs| - 1;
      Folders(rs[..n]) + {MidiFolder(rs[n].value)}
  }

  /** The destinations of the decoded files, in discovery order. */
  function Targets(rs: seq<Result<Descriptor, PathError>>, category: string): seq<string>
    requires AllOk(rs)
  {
    seq(|rs|, i requires 0 <= i < |rs| && rs[i].Ok? => Target(rs[i].value, category))
  }

  /** The paths of the decoded files, in discovery order. */
  function Sources(rs: seq<Result<Descriptor, PathError>>): seq<string>
    requires AllOk(rs)
  {
    seq(|rs|, i requires 0 <= i < |rs| && rs[i].Ok? => rs[i].value.path)
  }

  /**
   * A sequence of copies as a map from destination to source: one entry per
   * copy in order, so that a later copy overrides an earlier one with the same
   * destination.
   */
  function PlanOf(targets: seq<string>, sources: seq<string>): map<string, string>
    requires |targets| == |sources|
  {
    if targets == [] then map[]
    else
      var n := |targets| - 1;
      PlanOf(targets[..n], sources[..n])[targets[n] := sources[n]]
  }

  /** Every source in a plan is one of the copies' sources. */
  lemma {:induction false} PlanOfSources(targets: seq<string>, sources: seq<string>)
    requires |targets| == |sources|
    ensures forall t :: t in PlanOf(targets, sources) ==> PlanOf(targets, sources)[t] in sources
  {
    if targets != [] {
      var n := |targets| - 1;
      PlanOfSources(targets[..n], sources[..n]);
      assert sources == sources[..n] + [sources[n]];
    }
  }

  /** The copies the main loop makes for decoded files. */
  function Plan(rs: seq<Result<Descriptor, PathError>>, category: string): (plan: map<string, string>)
    requires AllOk(rs)
    ensures forall t :: t in plan ==> exists i :: 0 <= i < |rs| && rs[i].value.path == plan[t]
  {
    var sources := Sources(rs);
    var plan := PlanOf(Targets(rs, category), sources);
    PlanOfSources(Targets(rs, category), sources);
    assert forall t :: t in plan ==> exists i :: 0 <= i < |rs| && rs[i].value.path == plan[t] by {
      forall t | t in plan ensures exists i :: 0 <= i < |rs| && rs[i].value.path == plan[t] {
        var i :| 0 <= i < |sources| && sources[i] == plan[t];
        assert rs[i].value.path == plan[t];
      }
    }
    plan
  }

  /** The files after carrying out a plan: each destination gets its source's bytes. */
  function Apply(files: map<string, Blob>, plan: map<string, string>): map<string, Blob>
    requires forall t :: t in plan ==> plan[t] in files
  {
    map t | t in files.Keys + plan.Keys :: if t in plan then files[plan[t]] else files[t]
  }

  /** The destinations of a plan are exactly the destinations of its copies. */
  lemma {:induction false} PlanDestinations(targets: seq<string>, sources: seq<string>, t: string)
    requires |targets| == |sources|
    ensures t in PlanOf(targets, sources) <==> t in targets
  {
    if targets != [] {
      var n := |targets| - 1;
      PlanDestinations(targets[..n], sources[..n], t);
      assert targets == targets[..n] + [targets[n]];
    }
  }

  /**
   * A later copy to the same destination overwrites an earlier one: the
   * destination of copy `j` ends up with `j`'s source when no later copy has
   * that destination.
   */
  lemma {:induction false} LastCopyWins(targets: seq<string>, sources: seq<string>, j: nat)
    requires |targets| == |sources| && j < |targets|
    requires forall i :: j < i < |targets| ==> targets[i] != targets[j]
    ensures targets[j] in PlanOf(targets, sources)
    ensures PlanOf(targets, sources)[targets[j]] == sources[j]
  {
    var n := |targets| - 1;
    if j < n {
      assert targets[..n][j] == targets[j] && sources[..n][j] == sources[j];
      assert targets[n] != targets[j];
      forall i | j < i < n ensures targets[..n][i] != targets[..n][j] {
        assert targets[..n][i] == targets[i];
      }
      LastCopyWins(targets[..n], sources[..n], j);
    }
  }

  /**
   * No MIDI file is copied onto a vendor path: the first component of a
   * destination is "ToonTrack ..." without an `@`, while the first component
   * of any path the decoder accepts has one.
   */
  lemma TargetIsNotASource(m: Descriptor, q: string, category: string)
    requires '@' !in m.package && Backslash !in m.package
    requires '@' in Split(q, Backslash)[0]
    ensures Target(m, category) != q
  {
    var dir := MidiFolder(m);
    TitleKeepsNonLetter(m.package, '@');
    TitleKeepsNonLetter(m.package, Backslash);
    assert dir == "ToonTrack " + Title(m.package);
    assert '@' !in dir && Backslash !in dir;
    FirstComponent(dir, MidiName(m, category));
  }

  /** The first backslash component of a joined path is the folder, when the folder has no backslash. */
  lemma FirstComponent(dir: string, name: string)
    requires Backslash !in dir
    ensures Split(PathJoin(dir, name), Backslash)[0] == dir
  {
    SplitHead(dir, Backslash, "\\" + name);
    Assoc(dir, "\\", name);
  }

  /** Every decoded result satisfies what the decoder guarantees. */
  predicate AllDecoderOutput(rs: seq<Result<Descriptor, PathError>>)
  {
    forall i :: 0 <= i < |rs| && rs[i].Ok? ==> DecoderOutput(rs[i].value)
  }

  /** A path whose first component has an `@` is never a destination of the plan. */
  lemma SourceNotPlanned(rs: seq<Result<Descriptor, PathError>>, category: string, q: string)
    requires AllOk(rs) && AllDecoderOutput(rs)
    requires '@' in Split(q, Backslash)[0]
    ensures q !in Plan(rs, category)
  {
    var ts := Targets(rs, category);
    forall i | 0 <= i < |ts| ensures ts[i] != q {
      TargetIsNotASource(rs[i].value, q, category);
    }
    PlanDestinations(ts, Sources(rs), q);
  }

  /** Carrying out one more copy after a plan is carrying out the extended plan. */
  lemma ApplyExtend(files: map<string, Blob>, plan: map<string, string>, t: string, src: string)
    requires forall u :: u in plan ==> plan[u] in files
    requires src in files && src !in plan
    ensures Apply(files, plan)[t := Apply(files, plan)[src]] == Apply(files, plan[t := src])
  {
  }

  /** The first error of a prefix is the first error, cut off at the end of the prefix. */
  lemma FirstErrorPrefix(rs: seq<Result<Descriptor, PathError>>, n: nat)
    requires n <= |rs|
    ensures FirstError(rs[..n]) == if FirstError(rs) < n then FirstError(rs) else n
  {
    var k := FirstError(rs);
    if k < n {
      assert rs[..n][k] == rs[k];
      assert forall i :: 0 <= i < k ==> rs[..n][i] == rs[i];
    } else {
      assert forall i :: 0 <= i < n ==> rs[..n][i] == rs[i];
    }
  }

  /** The plan for one more decoded file extends the plan for the files before it. */
  lemma PlanSnoc(rs: seq<Result<Descriptor, PathError>>, category: string)
    requires AllOk(rs) && rs != []
    ensures var n := |rs| - 1;
      && AllOk(rs[..n])
      && Plan(rs, category) == Plan(rs[..n], category)[Target(rs[n].value, category) := rs[n].value.path]
  {
    var n := |rs| - 1;
    assert forall i :: 0 <= i < n ==> rs[..n][i] == rs[i];
    assert Targets(rs, category)[..n] == Targets(rs[..n], category);
    assert Sources(rs)[..n] == Sources(rs[..n]);
  }

  /** Copying a decoded file after a plan is carrying out the plan extended by that copy. */
  lemma CopyMidiPlanned(dirs: set<string>, files: map<string, Blob>, plan: map<string, string>,
                        m: Descriptor, category: string)
    requires forall t :: t in plan ==> plan[t] in files
    requires m.path in files && m.path !in plan && m.path != Target(m, category)
    ensures CopyMidiSpec(Disk(dirs, Apply(files, plan)), m, category) ==
      Run(Disk(dirs + {MidiFolder(m)}, Apply(files, plan[Target(m, category) := m.path])), None)
  {
    ApplyExtend(files, plan, Target(m, category), m.path);
  }

  /** The sources of the decoded results are files on the disk. */
  predicate SourcesExist(rs: seq<Result<Descriptor, PathError>>, files: map<string, Blob>)
  {
    forall i :: 0 <= i < |rs| && rs[i].Ok? ==> rs[i].value.path in files
  }

  /**
   * What the loop does: the files before the first error are copied according
   * to the plan into folders created for them, and the run stops at that
   * error, if there is one.
   */
  lemma {:induction false} CopyAllPlan(d: Disk, rs: seq<Result<Descriptor, PathError>>, category: string)
    requires AllDecoderOutput(rs) && SourcesExist(rs, d.files)
    ensures var k := FirstError(rs);
      && AllOk(rs[..k])
      && CopyAllSpec(d, rs, category) ==
         Run(Disk(d.dirs + Folders(rs[..k]), Apply(d.files, Plan(rs[..k], category))),
             if k < |rs| then Some(BadPath(k, rs[k].error)) else None)
  {
    PlanExplained(d, rs, category);
  }

  /** The statement of `CopyAllPlan`, for the induction behind it. */
  predicate PlanExplains(d: Disk, rs: seq<Result<Descriptor, PathError>>, category: string)
  {
    var k := FirstError(rs);
    && AllOk(rs[..k])
    && SourcesExist(rs[..k], d.files)
    && CopyAllSpec(d, rs, category) ==
       Run(Disk(d.dirs + Folders(rs[..k]), Apply(d.files, Plan(rs[..k], category))),
           if k < |rs| then Some(BadPath(k, rs[k].error)) else None)
  }

  lemma {:induction false} PlanExplained(d: Disk, rs: seq<Result<Descriptor, PathError>>, category: string)
    requires AllDecoderOutput(rs) && SourcesExist(rs, d.files)
    ensures PlanExplains(d, rs, category)
  {
    if rs == [] {
      assert rs[..0] == [];
      assert Apply(d.files, map[]) == d.files;
      assert d.dirs + {} == d.dirs;
    } else {
      var n := |rs| - 1;
      var k := FirstError(rs);
      assert forall i :: 0 <= i < n ==> rs[..n][i] == rs[i];
      PlanExplained(d, rs[..n], category);
      if k < n {
        ExplainedFailedBefore(d, rs, category);
      } else if k == n {
        ExplainedErrLast(d, rs, category);
      } else {
        ExplainedOkLast(d, rs, category);
      }
    }
  }

  /** The step when the run failed before the last result. */
  lemma ExplainedFailedBefore(d: Disk, rs: seq<Result<Descriptor, PathError>>, category: string)
    requires rs != [] && FirstError(rs) < |rs| - 1
    requires SourcesExist(rs, d.files)
    requires PlanExplains(d, rs[..|rs| - 1], category)
    ensures PlanExplains(d, rs, category)
  {
    var n := |rs| - 1;
    FirstErrorPrefix(rs, n);
    PrefixFacts(rs, n, FirstError(rs), d.files);
    CopyAllFailedBefore(d, rs, category);
  }

  /** The step when the last result is the first error. */
  lemma ExplainedErrLast(d: Disk, rs: seq<Result<Descriptor, PathError>>, category: string)
    requires rs != [] && FirstError(rs) == |rs| - 1
    requires SourcesExist(rs, d.files)
    requires PlanExplains(d, rs[..|rs| - 1], category)
    ensures PlanExplains(d, rs, category)
  {
    var n := |rs| - 1;
    var prefix := rs[..n];
    FirstErrorPrefix(rs, n);
    PrefixFacts(rs, n, n, d.files);
    CopyAllErrLast(d, rs, category, Disk(d.dirs + Folders(prefix), Apply(d.files, Plan(prefix, category))));
  }

  /** The step when every result so far, the last one included, is decoded. */
  lemma ExplainedOkLast(d: Disk, rs: seq<Result<Descriptor, PathError>>, category: string)
    requires rs != [] && FirstError(rs) == |rs|
    requires AllDecoderOutput(rs) && SourcesExist(rs, d.files)
    requires PlanExplains(d, rs[..|rs| - 1], category)
    ensures PlanExplains(d, rs, category)
  {
    var n := |rs| - 1;
    FirstErrorPrefix(rs, n);
    PrefixFacts(rs, n, |rs|, d.files);
    CopyOneMore(d, rs, category);
  }

  /** What the step of `CopyAllPlan` needs about the prefix without the last result. */
  lemma PrefixFacts(rs: seq<Result<Descriptor, PathError>>, n: nat, k: nat, files: map<string, Blob>)
    requires n < |rs| && k <= |rs| && forall i :: 0 <= i < k ==> rs[i].Ok?
    requires SourcesExist(rs, files)
    ensures AllOk(rs[..k]) && SourcesExist(rs[..k], files)
    ensures forall i :: 0 <= i < n ==> rs[..n][i] == rs[i]
    ensures k <= n ==> rs[..n][..k] == rs[..k]
    ensures rs[..n][..n] == rs[..n]
    ensures rs[..|rs|] == rs
  {
    assert forall i :: 0 <= i < k ==> rs[..k][i] == rs[i];
  }

  /** Once the run has failed, one more result changes nothing. */
  lemma CopyAllFailedBefore(d: Disk, rs: seq<Result<Descriptor, PathError>>, category: string)
    requires rs != [] && CopyAllSpec(d, rs[..|rs| - 1], category).failure.Some?
    ensures CopyAllSpec(d, rs, category) == CopyAllSpec(d, rs[..|rs| - 1], category)
  {
  }

  /** A last result that is an error stops the run where it is. */
  lemma CopyAllErrLast(d: Disk, rs: seq<Result<Descriptor, PathError>>, category: string, before: Disk)
    requires rs != [] && rs[|rs| - 1].Err?
    requires CopyAllSpec(d, rs[..|rs| - 1], category) == Run(before, None)
    ensures CopyAllSpec(d, rs, category) == Run(before, Some(BadPath(|rs| - 1, rs[|rs| - 1].error)))
  {
  }

  /** The last decoded file is neither planned as a destination before it nor its own destination. */
  lemma LastIsFresh(rs: seq<Result<Descriptor, PathError>>, category: string)
    requires rs != [] && AllOk(rs) && AllDecoderOutput(rs)
    ensures var n := |rs| - 1;
      && AllOk(rs[..n])
      && rs[n].value.path !in Plan(rs[..n], category)
      && rs[n].value.path != Target(rs[n].value, category)
  {
    var n := |rs| - 1;
    assert forall i :: 0 <= i < n ==> rs[..n][i] == rs[i];
    var m := rs[n].value;
    assert DecoderOutput(m);
    SourceNotPlanned(rs[..n], category, m.path);
    TargetIsNotASource(m, m.path, category);
  }

  /** The step of `CopyAllPlan` for one more decoded file. */
  lemma CopyOneMore(d: Disk, rs: seq<Result<Descriptor, PathError>>, category: string)
    requires rs != [] && AllOk(rs) && AllDecoderOutput(rs) && SourcesExist(rs, d.files)
    requires var n := |rs| - 1;
      AllOk(rs[..n]) &&
      CopyAllSpec(d, rs[..n], category) ==
        Run(Disk(d.dirs + Folders(rs[..n]), Apply(d.files, Plan(rs[..n], category))), None)
    ensures CopyAllSpec(d, rs, category) == Run(Disk(d.dirs + Folders(rs), Apply(d.files, Plan(rs, category))), None)
  {
    var n := |rs| - 1;
    var dirs := d.dirs + Folders(rs[..n]);
    var plan := Plan(rs[..n], category);
    CopyAllLast(d, rs, category, Disk(dirs, Apply(d.files, plan)));
    LastIsFresh(rs, category);
    CopyMidiPlanned(dirs, d.files, plan, rs[n].value, category);
    PlanSnoc(rs, category);
  }

  /** The run up to the last result has not failed, and the last result is decoded: it is copied. */
  lemma CopyAllLast(d: Disk, rs: seq<Result<Descriptor, PathError>>, category: string, before: Disk)
    requires rs != [] && rs[|rs| - 1].Ok?
    requires CopyAllSpec(d, rs[..|rs| - 1], category) == Run(before, None)
    ensures CopyAllSpec(d, rs, category) == CopyMidiSpec(before, rs[|rs| - 1].value, category)
  {
  }

  /** Decoding discovered paths yields decoder output whose sources exist. */
  lemma DecodeAllSound(paths: seq<string>, files: map<string, Blob>)
    requires forall i :: 0 <= i < |paths| ==> paths[i] in files
    ensures AllDecoderOutput(DecodeAll(paths)) && SourcesExist(DecodeAll(paths), files)
  {
    var rs := DecodeAll(paths);
    forall i | 0 <= i < |rs| && rs[i].Ok? ensures DecoderOutput(rs[i].value) && rs[i].value.path in files {
      ConvertPathOutput(paths[i]);
    }
  }

  /**
   * Sources are only read: no file is deleted, and a file whose path has the
   * vendor's `@` in its first component keeps its bytes, whatever the run does.
   */
  lemma SourcesUnchanged(d: Disk, paths: seq<string>, category: string, q: string)
    requires forall i :: 0 <= i < |paths| ==> paths[i] in d.files
    requires q in d.files
    ensures q in CopyAllSpec(d, DecodeAll(paths), category).disk.files
    ensures '@' in Split(q, Backslash)[0] ==>
      CopyAllSpec(d, DecodeAll(paths), category).disk.files[q] == d.files[q]
  {
    var rs := DecodeAll(paths);
    DecodeAllSound(paths, d.files);
    CopyAllPlan(d, rs, category);
    if '@' in Split(q, Backslash)[0] {
      SourceNotPlanned(rs[..FirstError(rs)], category, q);
    }
  }

  /** Copies fed only from files no copy writes to can be carried out twice to the same effect. */
  lemma ApplyTwice(files: map<string, Blob>, plan: map<string, string>)
    requires forall t :: t in plan ==> plan[t] in files && plan[t] !in plan
    ensures forall t :: t in plan ==> plan[t] in Apply(files, plan)
    ensures Apply(Apply(files, plan), plan) == Apply(files, plan)
  {
  }

  /** Carrying out a plan keeps every file that was there. */
  lemma ApplyKeeps(files: map<string, Blob>, plan: map<string, string>, q: string)
    requires forall t :: t in plan ==> plan[t] in files
    requires q in files
    ensures q in Apply(files, plan)
  {
  }

  /**
   * Running the copy loop a second time on its own result changes nothing:
   * it makes the same copies from the same unchanged sources and stops at
   * the same error.
   */
  lemma RerunChangesNothing(d: Disk, rs: seq<Result<Descriptor, PathError>>, category: string)
    requires AllDecoderOutput(rs) && SourcesExist(rs, d.files)
    ensures var r := CopyAllSpec(d, rs, category);
      CopyAllSpec(r.disk, rs, category) == r
  {
    var k := FirstError(rs);
    CopyAllPlan(d, rs, category);
    var ok := rs[..k];
    var plan := Plan(ok, category);
    var once := Disk(d.dirs + Folders(ok), Apply(d.files, plan));
    forall t | t in plan ensures plan[t] in d.files && plan[t] !in plan {
      var i :| 0 <= i < |ok| && ok[i].value.path == plan[t];
      assert ok[i] == rs[i];
      assert DecoderOutput(rs[i].value);
      SourceNotPlanned(ok, category, plan[t]);
    }
    ApplyTwice(d.files, plan);
    forall i | 0 <= i < |rs| && rs[i].Ok? ensures rs[i].value.path in once.files {
      ApplyKeeps(d.files, plan, rs[i].value.path);
    }
    CopyAllPlan(once, rs, category);
    assert once.dirs + Folders(ok) == once.dirs;
  }

  /** Where the mapping file goes: `D\D.AD2Map` for the folder `D` of the decoded package name. */
  function MappingTarget(name: string): string
  {
    var dir := MakeFolderName(name);
    PathJoin(dir, MappingFileName(dir))
  }

  /**
   * The mapping file is copied only when there is a candidate, and then only
   * the first candidate matters, copied to the mapping target of the package.
   */
  lemma MappingFirstCandidate(d: Disk, package: string, candidates: seq<string>)
    ensures candidates == [] ==> MappingSpec(d, package, candidates) == Run(d, None)
    ensures MappingSpec(d, package, candidates).failure.Some? ==> MappingSpec(d, package, candidates).disk == d
    ensures candidates != [] ==> MappingSpec(d, package, candidates) == MappingSpec(d, package, candidates[..1])
    ensures candidates != [] && ConvertPackageName(package).Ok? ==>
      var name := ConvertPackageName(package).value;
      var r := MappingSpec(d, package, candidates);
      r.failure.None? ==> r.disk == Disk(d.dirs, d.files[MappingTarget(name) := d.files[candidates[0]]])
  {
  }

  /** The mapping target has no `@`, so it is never a vendor path. */
  lemma MappingTargetIsNotASource(name: string, q: string)
    requires '@' !in name
    requires '@' in Split(q, Backslash)[0]
    ensures MappingTarget(name) != q
  {
    var dir := MakeFolderName(name);
    TitleKeepsNonLetter(name, '@');
    assert '@' !in dir;
    var u := MappingTarget(name);
    assert '@' !in u by {
      assert u == dir + ("\\" + (dir + ".AD2Map"));
    }
    if u == q {
      SplitPieceChar(q, Backslash, 0, '@');
    }
  }

  /** The mapping target ends in `.AD2Map`, a MIDI destination in `.mid`: the mapping never overwrites a MIDI copy. */
  lemma MappingTargetIsNotAMidiTarget(name: string, m: Descriptor, category: string)
    ensures MappingTarget(name) != Target(m, category)
  {
    var f := MidiName(m, category);
    FileNameEnd(m.package, m.groove, m.signature, m.group, m.kind, m.variation, category);
    assert f[|f| - 1] == ".mid"[3];
    var t := Target(m, category);
    assert t[|t| - 1] == f[|f| - 1];
    var u := MappingTarget(name);
    assert u[|u| - 1] == 'p';
  }

  /**
   * The whole run only reads the vendor's files: a file whose path has an `@`
   * in its first component keeps its bytes, through the MIDI copies and the
   * mapping copy alike.
   */
  lemma ConvertKeepsSources(d: Disk, package: string, category: string, paths: seq<string>,
                            candidates: seq<string>, q: string)
    requires forall i :: 0 <= i < |paths| ==> paths[i] in d.files
    requires q in d.files && '@' in Split(q, Backslash)[0]
    ensures var r := ConvertSpec(d, package, category, paths, candidates);
      q in r.disk.files && r.disk.files[q] == d.files[q]
  {
    SourcesUnchanged(d, paths, category, q);
    var r := CopyAllSpec(d, DecodeAll(paths), category);
    MappingFirstCandidate(r.disk, package, candidates);
    if r.failure.None? && candidates != [] && ConvertPackageName(package).Ok? {
      MappingTargetIsNotASource(ConvertPackageName(package).value, q);
    }
  }

  /**
   * At the end of a run every destination of the copy plan holds the bytes its
   * source had before the run: sources are never written and the mapping
   * file never lands on a MIDI destination.
   */
  lemma ConvertDeliversPlan(d: Disk, package: string, category: string, paths: seq<string>,
                            candidates: seq<string>)
    requires forall i :: 0 <= i < |paths| ==> paths[i] in d.files
    ensures var rs := DecodeAll(paths); var k := FirstError(rs);
      && AllOk(rs[..k])
      && var plan := Plan(rs[..k], category);
         var r := ConvertSpec(d, package, category, paths, candidates);
         forall t :: t in plan ==> t in r.disk.files && r.disk.files[t] == d.files[plan[t]]
  {
    var rs := DecodeAll(paths);
    DecodeAllSound(paths, d.files);
    CopyAllPlan(d, rs, category);
    var ok := rs[..FirstError(rs)];
    var plan := Plan(ok, category);
    var r := CopyAllSpec(d, rs, category);
    forall t | t in plan
      ensures t in ConvertSpec(d, package, category, paths, candidates).disk.files
      ensures ConvertSpec(d, package, category, paths, candidates).disk.files[t] == d.files[plan[t]]
    {
      assert t in r.disk.files && r.disk.files[t] == d.files[plan[t]];
      if r.failure.None? {
        PlannedIsNotMapping(ok, category, package, t);
        MappingKeeps(r.disk, package, candidates, t);
      }
    }
  }

  /** A planned destination is never the mapping target. */
  lemma PlannedIsNotMapping(ok: seq<Result<Descriptor, PathError>>, category: string, package: string, t: string)
    requires AllOk(ok) && t in Plan(ok, category)
    ensures ConvertPackageName(package).Ok? ==> t != MappingTarget(ConvertPackageName(package).value)
  {
    if ConvertPackageName(package).Ok? {
      var targets := Targets(ok, category);
      PlanDestinations(targets, Sources(ok), t);
      var i :| 0 <= i < |targets| && targets[i] == t;
      MappingTargetIsNotAMidiTarget(ConvertPackageName(package).value, ok[i].value, category);
    }
  }

  /** The mapping step leaves alone every file but the mapping target. */
  lemma MappingKeeps(d: Disk, package: string, candidates: seq<string>, t: string)
    requires t in d.files
    requires ConvertPackageName(package).Ok? ==> t != MappingTarget(ConvertPackageName(package).value)
    ensures t in MappingSpec(d, package, candidates).disk.files
    ensures MappingSpec(d, package, candidates).disk.files[t] == d.files[t]
  {
    MappingFirstCandidate(d, package, candidates);
  }

  /** A joined path has a backslash, between the folder and the name. */
  lemma JoinHasBackslash(dir: string, name: string)
    ensures Backslash in PathJoin(dir, name)
  {
    assert PathJoin(dir, name)[|dir|] == Backslash;
  }

  /**
   * The copy loop writes only to destinations `dir\name`: a path without a
   * backslash is on the disk after the loop exactly when it was before, with
   * the same bytes.
   */
  lemma LoopKeepsPlainNames(d: Disk, paths: seq<string>, category: string, q: string)
    requires forall i :: 0 <= i < |paths| ==> paths[i] in d.files
    requires Backslash !in q
    ensures var files := CopyAllSpec(d, DecodeAll(paths), category).disk.files;
      && (q in files <==> q in d.files)
      && (q in d.files ==> files[q] == d.files[q])
  {
    var rs := DecodeAll(paths);
    DecodeAllSound(paths, d.files);
    CopyAllPlan(d, rs, category);
    var ok := rs[..FirstError(rs)];
    var targets := Targets(ok, category);
    forall i | 0 <= i < |targets| ensures targets[i] != q {
      JoinHasBackslash(MidiFolder(ok[i].value), MidiName(ok[i].value, category));
    }
    PlanDestinations(targets, Sources(ok), q);
  }

  /**
   * The mapping candidates are names in the current folder, without a
   * backslash, as `glob("*.AD2Map")` returns them. Every write of the run lands
   * on a path `dir\name`, so every candidate keeps its bytes through the
   * whole run, mapping step included.
   */
  lemma ConvertKeepsCandidates(d: Disk, package: string, category: string, paths: seq<string>,
                               candidates: seq<string>)
    requires forall i :: 0 <= i < |paths| ==> paths[i] in d.files
    requires forall i :: 0 <= i < |candidates| ==> Backslash !in candidates[i]
    ensures var r := ConvertSpec(d, package, category, paths, candidates);
      forall i :: 0 <= i < |candidates| && candidates[i] in d.files ==>
        candidates[i] in r.disk.files && r.disk.files[candidates[i]] == d.files[candidates[i]]
  {
    var r := CopyAllSpec(d, DecodeAll(paths), category);
    var fin := ConvertSpec(d, package, category, paths, candidates);
    forall i | 0 <= i < |candidates| && candidates[i] in d.files
      ensures candidates[i] in fin.disk.files && fin.disk.files[candidates[i]] == d.files[candidates[i]]
    {
      var c := candidates[i];
      LoopKeepsPlainNames(d, paths, category, c);
      if r.failure.None? {
        if ConvertPackageName(package).Ok? {
          var dir := MakeFolderName(ConvertPackageName(package).value);
          JoinHasBackslash(dir, MappingFileName(dir));
        }
        MappingKeeps(r.disk, package, candidates, c);
      }
    }
  }

  /**
   * After a run that raised nothing, with a candidate, the mapping target
   * holds the bytes the first candidate had before the run.
   */
  lemma ConvertDeliversMapping(d: Disk, package: string, category: string, paths: seq<string>,
                               candidates: seq<string>)
    requires forall i :: 0 <= i < |paths| ==> paths[i] in d.files
    requires candidates != [] && Backslash !in candidates[0]
    requires ConvertSpec(d, package, category, paths, candidates).failure.None?
    ensures ConvertPackageName(package).Ok? && candidates[0] in d.files
    ensures var r := ConvertSpec(d, package, category, paths, candidates);
      var t := MappingTarget(ConvertPackageName(package).value);
      t in r.disk.files && r.disk.files[t] == d.files[candidates[0]]
  {
    var r := CopyAllSpec(d, DecodeAll(paths), category);
    LoopKeepsPlainNames(d, paths, category, candidates[0]);
    MappingFirstCandidate(r.disk, package, candidates);
  }

  /** One MIDI copy, on a disk with one more file that the copy neither reads nor writes. */
  lemma CopyMidiUpdate(e: Disk, m: Descriptor, category: string, u: string, b: Blob)
    requires m.path != u && Target(m, category) != u
    ensures var r := CopyMidiSpec(e, m, category);
      CopyMidiSpec(Disk(e.dirs, e.files[u := b]), m, category) == Run(Disk(r.disk.dirs, r.disk.files[u := b]), r.failure)
  {
    var t := Target(m, category);
    if m.path in e.files && m.path != t && MidiFolder(m) in e.dirs + {MidiFolder(m)} {
      assert e.files[u := b][t := e.files[m.path]] == e.files[t := e.files[m.path]][u := b];
    }
  }

  /**
   * The copy loop on a disk with one more file that no copy reads or writes
   * does what it does without it, and keeps that file.
   */
  lemma {:induction false} CopyAllUpdate(e: Disk, rs: seq<Result<Descriptor, PathError>>, category: string,
                                         u: string, b: Blob)
    requires forall i :: 0 <= i < |rs| && rs[i].Ok? ==> rs[i].value.path != u && Target(rs[i].value, category) != u
    ensures var r := CopyAllSpec(e, rs, category);
      CopyAllSpec(Disk(e.dirs, e.files[u := b]), rs, category) == Run(Disk(r.disk.dirs, r.disk.files[u := b]), r.failure)
  {
    if rs != [] {
      var n := |rs| - 1;
      assert forall i :: 0 <= i < n ==> rs[..n][i] == rs[i];
      CopyAllUpdate(e, rs[..n], category, u, b);
      var before := CopyAllSpec(e, rs[..n], category);
      if before.failure.None? && rs[n].Ok? {
        CopyMidiUpdate(before.disk, rs[n].value, category, u, b);
      }
    }
  }

  /**
   * Running the whole script a second time, on the result of a first run,
   * changes nothing: it makes the same MIDI copies and the same mapping copy
   * and raises the same exception, if any. The mapping candidates are names
   * without a backslash, as `glob("*.AD2Map")` returns them.
   */
  lemma ConvertRerunChangesNothing(d: Disk, package: string, category: string, paths: seq<string>,
                                   candidates: seq<string>)
    requires forall i :: 0 <= i < |paths| ==> paths[i] in d.files
    requires forall i :: 0 <= i < |candidates| ==> Backslash !in candidates[i]
    ensures var r := ConvertSpec(d, package, category, paths, candidates);
      ConvertSpec(r.disk, package, category, paths, candidates) == r
  {
    var rs := DecodeAll(paths);
    DecodeAllSound(paths, d.files);
    RerunChangesNothing(d, rs, category);
    var r1 := CopyAllSpec(d, rs, category);
    var r := ConvertSpec(d, package, category, paths, candidates);
    if r1.failure.None? {
      MappingFirstCandidate(r1.disk, package, candidates);
      if r.disk != r1.disk {
        var name := ConvertPackageName(package).value;
        var u := MappingTarget(name);
        var c := candidates[0];
        var x := r1.disk.files[c];
        assert r.disk == Disk(r1.disk.dirs, r1.disk.files[u := x]);
        forall i | 0 <= i < |rs| && rs[i].Ok? ensures rs[i].value.path != u && Target(rs[i].value, category) != u {
          MappingTargetIsNotASource(name, rs[i].value.path);
          MappingTargetIsNotAMidiTarget(name, rs[i].value, category);
        }
        CopyAllUpdate(r1.disk, rs, category, u, x);
        JoinHasBackslash(MakeFolderName(name), MappingFileName(MakeFolderName(name)));
        assert r.disk.files[c] == x;
        assert r.disk.files[u := x] == r.disk.files;
      }
    }
  }
}
