/**
 * `extract_all_parts` of deconstruct.py: every part of one sheet is sliced
 * into `<output_dir>/<sheet name>/<part>.png`, skipping the parts whose
 * output file already exists, and the progress counter advances once per
 * part.
 */
module Deconstruct {
  import opened Wrappers
  import opened Paths
  import opened AtlasTable
  import opened Extract

  /** The fixed arguments of one `extract_all_parts` call (`DEFAULT_PATH` included). */
  datatype Batch = Batch(defaultPath: string, file: string, outputDir: string, resize: bool, compressLevel: int)

  /** Lines 9-10: the output directory gets a subdirectory named after the sheet, without its extension. */
  function OutputSubdir(b: Batch): string {
    Join(b.outputDir, StripExtension(Basename(b.file)))
  }

  /** Lines 24-26: the sheet file, under `DEFAULT_PATH` (not `--path`), with ".blp" appended if missing. */
  function SheetPath(b: Batch): string {
    WithBlpExtension(Join(b.defaultPath, b.file))
  }

  /**
   * What every pass of the loop shares: the sheet file (the same for every
   * part), the output subdirectory, and the flags passed on to `slice_image`.
   */
  datatype Layout = Layout(input: string, subdir: string, resize: bool, compressLevel: int)

  function LayoutOf(b: Batch): Layout {
    Layout(SheetPath(b), OutputSubdir(b), b.resize, b.compressLevel)
  }

  /** Line 27: where the part called `name` is written. */
  function PartOutput(l: Layout, name: string): string {
    Join(l.subdir, name + ".png")
  }

  /**
   * The layout of the outputs: the subdirectory is named after the sheet's
   * file name without its extension, and a part without a slash in its name
   * is written there as `<part>.png`.
   */
  lemma OutputLayout(b: Batch, name: string)
    requires '/' !in name
    ensures Basename(OutputSubdir(b)) == StripExtension(Basename(b.file))
    ensures Basename(PartOutput(LayoutOf(b), name)) == name + ".png"
    ensures DirnameShaped(OutputSubdir(b)) ==> Dirname(PartOutput(LayoutOf(b), name)) == OutputSubdir(b)
  {
    var file := Basename(b.file);
    var stem := StripExtension(file);
    NoSlashInPrefix(file, stem);
    BasenameOfJoin(b.outputDir, stem);
    var subdir := OutputSubdir(b);
    var png := name + ".png";
    NoSlashInPng(name);
    assert PartOutput(LayoutOf(b), name) == Join(subdir, png);
    BasenameOfJoin(subdir, png);
    if DirnameShaped(subdir) {
      DirnameOfJoin(subdir, png);
    }
  }

  lemma NoSlashInPrefix(s: string, t: string)
    requires t <= s && '/' !in s
    ensures '/' !in t
  {
    forall k | 0 <= k < |t| ensures t[k] != '/' {
      assert t[k] == s[k];
    }
  }

  lemma NoSlashInPng(name: string)
    requires '/' !in name
    ensures '/' !in name + ".png"
  {
    var png := name + ".png";
    forall k | 0 <= k < |png| ensures png[k] != '/' {
      if k < |name| {
        assert png[k] == name[k];
      }
    }
  }

  /** Lines 23-29: the `slice_image` call made for part `p`. */
  function CallFor(l: Layout, p: Part): SliceCall {
    SliceCall(l.input, PartOutput(l, p.name), RectOf(p.record), l.resize, l.compressLevel)
  }

  /** The output paths of all parts. */
  function Outputs(l: Layout, parts: PartMap): set<string>
    decreases |parts|
  {
    if parts == [] then {} else Outputs(l, parts[..|parts| - 1]) + {PartOutput(l, parts[|parts| - 1].name)}
  }

  /** Which `slice_image` calls succeed on these images. */
  function SliceOutcome(images: map<string, Image>): SliceCall -> bool {
    call => Writes(images, call)
  }

  /** The image stored at `path`, if any. */
  function Lookup(images: map<string, Image>, path: string): Option<Image> {
    if path in images then Some(images[path]) else None
  }

  /** Whether a slice succeeds depends only on the image at its input path. */
  lemma WritesReadsOnlyTheInput(images: map<string, Image>, later: map<string, Image>, call: SliceCall)
    requires Lookup(later, call.input) == Lookup(images, call.input)
    ensures Writes(later, call) == Writes(images, call)
  {
  }

  /** The state after some parts: the files, the slices written, the progress count, and whether a slice raised. */
  datatype Progress = Progress(files: set<string>, log: seq<SliceCall>, count: nat, failed: bool)

  /**
   * One pass of the loop body, lines 23-33, for part `p`: skip it when its
   * output exists, slice it otherwise, and count it either way; once a slice
   * has raised, nothing further happens. `writes` says which `slice_image`
   * calls succeed (`SliceOutcome` of the disk's images); `silentKeyword`
   * says whether the call passes the `silent=True` keyword of line 29, which
   * `slice_image` does not declare.
   */
  function Step(l: Layout, writes: SliceCall -> bool, prev: Progress, p: Part, silentKeyword: bool): Progress {
    if prev.failed then prev
    else if PartOutput(l, p.name) in prev.files then prev.(count := prev.count + 1)
    else if !silentKeyword && writes(CallFor(l, p)) then
      Progress(prev.files + {PartOutput(l, p.name)}, prev.log + [CallFor(l, p)], prev.count + 1, false)
    else prev.(failed := true)
  }

  /** The part loop, lines 22-33, over `parts`, from `files` and `log`. */
  function Run(l: Layout, writes: SliceCall -> bool, parts: PartMap, files: set<string>, log: seq<SliceCall>,
               silentKeyword: bool): Progress
    decreases |parts|
  {
    if parts == [] then Progress(files, log, 0, false)
    else Step(l, writes, Run(l, writes, parts[..|parts| - 1], files, log, silentKeyword), parts[|parts| - 1], silentKeyword)
  }

  lemma RunPrefix(l: Layout, writes: SliceCall -> bool, parts: PartMap, i: nat, files: set<string>,
                  log: seq<SliceCall>, silentKeyword: bool)
    requires i < |parts|
    ensures Run(l, writes, parts[..i + 1], files, log, silentKeyword)
            == Step(l, writes, Run(l, writes, parts[..i], files, log, silentKeyword), parts[i], silentKeyword)
  {
    assert parts[..i + 1][..i] == parts[..i];
  }

  /** The calls that slice the parts whose output is not in `files`, in part order. */
  function Pending(l: Layout, parts: PartMap, files: set<string>): seq<SliceCall>
    decreases |parts|
  {
    if parts == [] then []
    else
      var p := parts[|parts| - 1];
      Pending(l, parts[..|parts| - 1], files) + (if PartOutput(l, p.name) in files then [] else [CallFor(l, p)])
  }

  /** Different part names are written to different files. */
  lemma PartOutputInjective(l: Layout, n1: string, n2: string)
    ensures PartOutput(l, n1) == PartOutput(l, n2) ==> n1 == n2
  {
    if PartOutput(l, n1) == PartOutput(l, n2) {
      JoinInjective(l.subdir, n1 + ".png", n2 + ".png");
      assert n1 == (n1 + ".png")[..|n1|];
      assert n2 == (n2 + ".png")[..|n2|];
    }
  }

  /** The sheet file is never one of the part outputs: one ends with ".blp", the other with ".png". */
  lemma SheetPathIsNoOutput(b: Batch, name: string)
    ensures LayoutOf(b).input != PartOutput(LayoutOf(b), name)
  {
    AppendEndsWith(name, ".png");
    JoinKeepsSuffix(OutputSubdir(b), name + ".png", ".png");
    BlpIsNotPng(SheetPath(b));
  }

  /** A step adds at most the part's own output to the files. */
  lemma StepFiles(l: Layout, writes: SliceCall -> bool, prev: Progress, p: Part, silentKeyword: bool)
    ensures var next := Step(l, writes, prev, p, silentKeyword);
            prev.files <= next.files <= prev.files + {PartOutput(l, p.name)}
  {
  }

  /** A run only adds part outputs to the files. */
  lemma {:induction false} RunFilesBetween(l: Layout, writes: SliceCall -> bool, parts: PartMap, files: set<string>,
                                           log: seq<SliceCall>, silentKeyword: bool)
    ensures files <= Run(l, writes, parts, files, log, silentKeyword).files <= files + Outputs(l, parts)
    decreases |parts|
  {
    if parts != [] {
      var init, p := parts[..|parts| - 1], parts[|parts| - 1];
      RunFilesBetween(l, writes, init, files, log, silentKeyword);
      StepFiles(l, writes, Run(l, writes, init, files, log, silentKeyword), p, silentKeyword);
      assert Outputs(l, parts) == Outputs(l, init) + {PartOutput(l, p.name)};
    }
  }

  /** A run only appends to the log. */
  lemma {:induction false} RunExtendsLog(l: Layout, writes: SliceCall -> bool, parts: PartMap, files: set<string>,
                                         log: seq<SliceCall>, silentKeyword: bool)
    ensures var run := Run(l, writes, parts, files, log, silentKeyword);
            |log| <= |run.log| && run.log[..|log|] == log
    decreases |parts|
  {
    if parts != [] {
      RunExtendsLog(l, writes, parts[..|parts| - 1], files, log, silentKeyword);
      var prev := Run(l, writes, parts[..|parts| - 1], files, log, silentKeyword);
      assert (prev.log + [CallFor(l, parts[|parts| - 1])])[..|log|] == prev.log[..|log|];
    }
  }

  /** The progress count never passes the number of parts, and reaches it when no slice raised. */
  lemma {:induction false} RunCount(l: Layout, writes: SliceCall -> bool, parts: PartMap, files: set<string>,
                                    log: seq<SliceCall>, silentKeyword: bool)
    ensures var run := Run(l, writes, parts, files, log, silentKeyword);
            run.count <= |parts| && (!run.failed ==> run.count == |parts|)
    decreases |parts|
  {
    if parts != [] {
      RunCount(l, writes, parts[..|parts| - 1], files, log, silentKeyword);
    }
  }

  /** A run that raised nowhere leaves every part's output in place. */
  lemma {:induction false} RunCompleteFiles(l: Layout, writes: SliceCall -> bool, parts: PartMap, files: set<string>,
                                            log: seq<SliceCall>, silentKeyword: bool)
    ensures var run := Run(l, writes, parts, files, log, silentKeyword);
            !run.failed ==> run.files == files + Outputs(l, parts)
    decreases |parts|
  {
    if parts != [] {
      RunCompleteFiles(l, writes, parts[..|parts| - 1], files, log, silentKeyword);
    }
  }

  /** Once a slice has raised, the remaining parts are not visited. */
  lemma {:induction false} RunAfterFailure(l: Layout, writes: SliceCall -> bool, parts: PartMap, k: nat,
                                           files: set<string>, log: seq<SliceCall>, silentKeyword: bool)
    requires k <= |parts|
    requires Run(l, writes, parts[..k], files, log, silentKeyword).failed
    ensures Run(l, writes, parts, files, log, silentKeyword) == Run(l, writes, parts[..k], files, log, silentKeyword)
    decreases |parts| - k
  {
    if k < |parts| {
      assert parts[..k + 1][..k] == parts[..k];
      RunAfterFailure(l, writes, parts, k + 1, files, log, silentKeyword);
    } else {
      assert parts[..k] == parts;
    }
  }

  /** When every output already exists, a run slices nothing, raises nothing and counts every part. */
  lemma {:induction false} RunWithAllOutputsPresent(l: Layout, writes: SliceCall -> bool, parts: PartMap,
                                                    files: set<string>, log: seq<SliceCall>, silentKeyword: bool)
    requires Outputs(l, parts) <= files
    ensures Run(l, writes, parts, files, log, silentKeyword) == Progress(files, log, |parts|, false)
    decreases |parts|
  {
    if parts != [] {
      RunWithAllOutputsPresent(l, writes, parts[..|parts| - 1], files, log, silentKeyword);
    }
  }

  /**
   * Resumability: after a run that raised nowhere, a second run over the
   * same parts finds every output in place and slices nothing.
   */
  lemma SecondRunSlicesNothing(l: Layout, writes: SliceCall -> bool, later: SliceCall -> bool, parts: PartMap,
                               files: set<string>, log: seq<SliceCall>)
    requires !Run(l, writes, parts, files, log, false).failed
    ensures var first := Run(l, writes, parts, files, log, false);
            Run(l, later, parts, first.files, first.log, false) == Progress(first.files, first.log, |parts|, false)
  {
    var first := Run(l, writes, parts, files, log, false);
    RunCompleteFiles(l, writes, parts, files, log, false);
    RunWithAllOutputsPresent(l, later, parts, first.files, first.log, false);
  }

  /**
   * With unique part names, a run that raised nowhere has sliced exactly the
   * parts whose output did not exist when it started, each once, in part
   * order.
   */
  lemma {:induction false} RunSlicesExactlyTheMissing(l: Layout, writes: SliceCall -> bool, parts: PartMap,
                                                      files: set<string>, log: seq<SliceCall>)
    requires UniqueNames(parts)
    requires !Run(l, writes, parts, files, log, false).failed
    ensures Run(l, writes, parts, files, log, false).log == log + Pending(l, parts, files)
    decreases |parts|
  {
    if parts != [] {
      var init := parts[..|parts| - 1];
      var p := parts[|parts| - 1];
      var prev := Run(l, writes, init, files, log, false);
      UniqueNamesInit(parts);
      RunSlicesExactlyTheMissing(l, writes, init, files, log);
      LastOutputFresh(l, writes, parts, files, log);
      StepLog(l, writes, prev, p);
    }
  }

  /** Dropping the last part keeps the names unique, and no earlier part shares its name. */
  lemma UniqueNamesInit(parts: PartMap)
    requires UniqueNames(parts) && parts != []
    ensures UniqueNames(parts[..|parts| - 1])
    ensures var init := parts[..|parts| - 1]; forall i :: 0 <= i < |init| ==> init[i].name != parts[|parts| - 1].name
  {
    var init := parts[..|parts| - 1];
    forall i, j | 0 <= i < j < |init| ensures init[i].name != init[j].name {
      assert init[i] == parts[i] && init[j] == parts[j];
    }
    forall i | 0 <= i < |init| ensures init[i].name != parts[|parts| - 1].name {
      assert init[i] == parts[i];
    }
  }

  /** With unique names, the last part's output is present after the earlier parts iff it was present at the start. */
  lemma LastOutputFresh(l: Layout, writes: SliceCall -> bool, parts: PartMap, files: set<string>, log: seq<SliceCall>)
    requires UniqueNames(parts) && parts != []
    ensures var o := PartOutput(l, parts[|parts| - 1].name);
            o in Run(l, writes, parts[..|parts| - 1], files, log, false).files <==> o in files
  {
    UniqueNamesInit(parts);
    RunFilesBetween(l, writes, parts[..|parts| - 1], files, log, false);
    NameOutsideOutputs(l, parts[..|parts| - 1], parts[|parts| - 1].name);
  }

  /** A name no part carries has its output outside the parts' outputs. */
  lemma {:induction false} NameOutsideOutputs(l: Layout, parts: PartMap, name: string)
    requires forall i :: 0 <= i < |parts| ==> parts[i].name != name
    ensures PartOutput(l, name) !in Outputs(l, parts)
    decreases |parts|
  {
    if parts != [] {
      var init := parts[..|parts| - 1];
      assert forall i :: 0 <= i < |init| ==> init[i] == parts[i];
      NameOutsideOutputs(l, init, name);
      PartOutputInjective(l, parts[|parts| - 1].name, name);
    }
  }

  /** A step that does not raise appends the part's call exactly when its output was missing. */
  lemma StepLog(l: Layout, writes: SliceCall -> bool, prev: Progress, p: Part)
    requires !Step(l, writes, prev, p, false).failed
    ensures Step(l, writes, prev, p, false).log
            == prev.log + (if PartOutput(l, p.name) in prev.files then [] else [CallFor(l, p)])
  {
  }

  /**
   * As written, line 29 passes `silent=True`, which `slice_image` does not
   * accept: the first part whose output is missing raises TypeError, so a run
   * writes nothing, and it raises exactly when some output is missing.
   */
  lemma {:induction false} SilentKeywordWritesNothing(l: Layout, writes: SliceCall -> bool, parts: PartMap,
                                                      files: set<string>, log: seq<SliceCall>)
    ensures var run := Run(l, writes, parts, files, log, true);
            && run.files == files && run.log == log
            && (run.failed <==> !(Outputs(l, parts) <= files))
    decreases |parts|
  {
    if parts != [] {
      SilentKeywordWritesNothing(l, writes, parts[..|parts| - 1], files, log);
    }
  }

  /** The smallest case that shows it: one part, no output yet; passing the keyword writes nothing, dropping it writes the part. */
  lemma SilentKeywordExample(l: Layout, writes: SliceCall -> bool, p: Part)
    requires writes(CallFor(l, p))
    ensures Run(l, writes, [p], {}, [], true) == Progress({}, [], 0, true)
    ensures Run(l, writes, [p], {}, [], false) == Progress({PartOutput(l, p.name)}, [CallFor(l, p)], 1, false)
  {
    assert [p][..0] == [];
  }

  /** The sheet file is not one of the outputs, so slicing never overwrites it. */
  ghost predicate InputIsNoOutput(l: Layout) {
    forall name :: PartOutput(l, name) != l.input
  }

  /**
   * Every image written since the disk held `files0` and `images0` sits at
   * the output path of one of `parts` and is that part's slice of the sheet
   * image (lines 23-29, with extract.py:43-69).
   */
  ghost predicate NewImagesAreSlices(l: Layout, parts: PartMap, files0: set<string>, images0: map<string, Image>,
                                     images: map<string, Image>)
  {
    forall path :: path in images && path !in files0 ==> IsPartSlice(l, parts, images0, path, images[path])
  }

  /** `image`, stored at `path`, is the slice of the sheet image for one of `parts` whose output `path` is. */
  ghost predicate IsPartSlice(l: Layout, parts: PartMap, images0: map<string, Image>, path: string, image: Image) {
    && l.input in images0
    && exists p, saved: Saved :: && p in parts && path == PartOutput(l, p.name) && RectOf(p.record).Some?
                                 && saved.image == image
                                 && IsSliceOf(saved, images0[l.input], path, RectOf(p.record).value, l.resize,
                                              l.compressLevel)
  }

  /**
   * One pass of the loop body, lines 23-33, on the disk: the disk moves from
   * `prev` to the next state of the batch model, where `writes` agrees with
   * the disk on this part's call. The sheet image stays as it was.
   */
  method SlicePart(disk: Disk, l: Layout, p: Part, ghost parts: PartMap, ghost writes: SliceCall -> bool,
                   ghost prev: Progress, ghost files0: set<string>, ghost images0: map<string, Image>)
    returns (failure: Option<ImageError>)
    requires disk.Valid() && !prev.failed && InputIsNoOutput(l) && p in parts
    requires disk.files == prev.files && disk.log == prev.log
    requires writes(CallFor(l, p)) == Writes(disk.images, CallFor(l, p))
    requires disk.Grown(files0, images0) && Lookup(disk.images, l.input) == Lookup(images0, l.input)
    requires NewImagesAreSlices(l, parts, files0, images0, disk.images)
    modifies disk
    ensures disk.Valid() && disk.Grown(files0, images0)
    ensures var next := Step(l, writes, prev, p, false);
            disk.files == next.files && disk.log == next.log && (failure.Some? <==> next.failed)
    ensures Lookup(disk.images, l.input) == Lookup(old(disk.images), l.input)
    ensures NewImagesAreSlices(l, parts, files0, images0, disk.images)
  {
    failure := None;
    var output := PartOutput(l, p.name);
    if output !in disk.files {
      ghost var before := disk.images;
      var res := disk.SliceImage(CallFor(l, p));
      if res.Failure? {
        failure := Some(res.error);
      } else {
        assert l.input in images0 && before[l.input] == images0[l.input] by {
          assert Lookup(before, l.input) == Lookup(images0, l.input);
        }
        forall path | path in disk.images && path !in files0
          ensures IsPartSlice(l, parts, images0, path, disk.images[path])
        {
          if path == output {
            assert IsSliceOf(res.value, images0[l.input], path, RectOf(p.record).value, l.resize, l.compressLevel);
          } else {
            assert disk.images[path] == before[path];
          }
        }
      }
    }
  }

  /**
   * The loop of lines 21-33 over `parts`: the disk ends as `Run` says, and
   * the progress bar reaches `Run`'s count. `failure` is the exception that
   * ended the loop, if any.
   */
  method SliceAll(disk: Disk, l: Layout, parts: PartMap) returns (progress: nat, failure: Option<ImageError>)
    requires disk.Valid() && InputIsNoOutput(l)
    modifies disk
    ensures disk.Valid()
    ensures var run := Run(l, SliceOutcome(old(disk.images)), parts, old(disk.files), old(disk.log), false);
            && disk.files == run.files && disk.log == run.log && progress == run.count
            && (failure.Some? <==> run.failed)
    ensures disk.Grown(old(disk.files), old(disk.images))
    ensures NewImagesAreSlices(l, parts, old(disk.files), old(disk.images), disk.images)
  {
    ghost var files0, images0, log0 := disk.files, disk.images, disk.log;
    ghost var writes := SliceOutcome(images0);
    progress := 0;
    failure := None;
    var i := 0;
    while i < |parts|
      invariant 0 <= i <= |parts|
      invariant failure.None?
      invariant disk.Valid() && disk.Grown(files0, images0)
      invariant var run := Run(l, writes, parts[..i], files0, log0, false);
                disk.files == run.files && disk.log == run.log && progress == run.count && !run.failed
      invariant Lookup(disk.images, l.input) == Lookup(images0, l.input)
      invariant NewImagesAreSlices(l, parts, files0, images0, disk.images)
    {
      RunPrefix(l, writes, parts, i, files0, log0, false);
      ghost var prev := Run(l, writes, parts[..i], files0, log0, false);
      WritesReadsOnlyTheInput(images0, disk.images, CallFor(l, parts[i]));
      failure := SlicePart(disk, l, parts[i], parts, writes, prev, files0, images0);
      if failure.Some? {
        RunAfterFailure(l, writes, parts, i + 1, files0, log0, false);
        return;
      }
      progress := progress + 1;
      i := i + 1;
    }
    assert parts[..i] == parts;
  }

  /**
   * `extract_all_parts(helper, file, atlas_info, output_dir, resize,
   * compress_level)`, with the call of line 29 made with the parameters
   * `slice_image` declares: the paths of lines 9-10 and 24-27, then the loop.
   */
  method ExtractAllParts(disk: Disk, b: Batch, parts: PartMap) returns (progress: nat, failure: Option<ImageError>)
    requires disk.Valid()
    modifies disk
    ensures disk.Valid()
    ensures var run := Run(LayoutOf(b), SliceOutcome(old(disk.images)), parts, old(disk.files), old(disk.log), false);
            && disk.files == run.files && disk.log == run.log && progress == run.count
            && (failure.Some? <==> run.failed)
    ensures disk.Grown(old(disk.files), old(disk.images))
    ensures NewImagesAreSlices(LayoutOf(b), parts, old(disk.files), old(disk.images), disk.images)
  {
    var l := LayoutOf(b);
    forall name ensures PartOutput(l, name) != l.input {
      SheetPathIsNoOutput(b, name);
    }
    progress, failure := SliceAll(disk, l, parts);
  }
}
