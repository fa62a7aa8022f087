/**
 * `main` of atlas.py, from the lookup on: find the part by name, resolve the
 * sheet file and the output file, and slice once. Argument parsing and the
 * construction of the `Helper` happen before and are the caller's.
 */
module Atlas {
  import opened Wrappers
  import opened Paths
  import opened AtlasTable
  import opened Extract

  /** The parsed command line, as far as the extraction reads it. */
  datatype Args = Args(atlasName: string, outputFile: Option<string>, resize: bool, path: string, sameDir: bool)

  /** Lines 24-26: the sheet file under `--path`, with ".blp" appended unless already there. */
  function InputFile(path: string, file: string): string {
    WithBlpExtension(Join(path, file))
  }

  /** Python's truthiness of an optional string: present and non-empty. */
  predicate Given(s: Option<string>) {
    s.Some? && s.value != ""
  }

  /**
   * Lines 27-30: with `--same-dir`, the part goes beside the sheet file;
   * otherwise to the explicit output file if one was given, else to
   * `<atlas_name>.png`.
   */
  function OutputFile(args: Args, inputFile: string): string {
    if args.sameDir then Join(Dirname(inputFile), args.atlasName + ".png")
    else if Given(args.outputFile) then args.outputFile.value
    else args.atlasName + ".png"
  }

  /**
   * Lines 19-31: the `slice_image` call `main` makes, or None when the lookup
   * yields no sheet (`file` is then `None` or an empty, falsy string). The
   * record is a Lua table and is never falsy.
   */
  function Plan(t: Table, args: Args): (call: Option<SliceCall>)
    ensures call.Some? <==> exists i :: 0 <= i < |t| && HasPart(t[i].parts, args.atlasName) && t[i].id != ""
                                        && forall j :: 0 <= j < i ==> !HasPart(t[j].parts, args.atlasName)
    ensures call.Some? ==>
              exists i :: 0 <= i < |t| && HasPart(t[i].parts, args.atlasName)
                          && (forall j :: 0 <= j < i ==> !HasPart(t[j].parts, args.atlasName))
                          && call.value.input == InputFile(args.path, t[i].id)
                          && call.value.rect == RectOf(RecordOf(t[i].parts, args.atlasName))
    ensures call.Some? ==> call.value.output == OutputFile(args, call.value.input)
    ensures call.Some? ==> call.value.resize == args.resize && call.value.compressLevel == DefaultCompressLevel
  {
    match AtlasInfo(t, args.atlasName)
    case None => None
    case Some((file, coords)) =>
      if file == "" then None
      else
        var input := InputFile(args.path, file);
        Some(SliceCall(input, OutputFile(args, input), RectOf(coords), args.resize, DefaultCompressLevel))
  }

  /** A part that no sheet has gives no slice; neither does a part whose first sheet has an empty identifier. */
  lemma NotFoundSlicesNothing(t: Table, args: Args)
    ensures (forall j :: 0 <= j < |t| ==> !HasPart(t[j].parts, args.atlasName)) ==> Plan(t, args).None?
    ensures AtlasInfo(t, args.atlasName).Some? && AtlasInfo(t, args.atlasName).value.0 == "" ==> Plan(t, args).None?
    ensures Plan(t, args).Some? ==> AtlasInfo(t, args.atlasName).Some?
  {
  }

  /** With `--same-dir`, the explicit output file is ignored. */
  lemma SameDirIgnoresOutputFile(args: Args, inputFile: string, other: Option<string>)
    requires args.sameDir
    ensures OutputFile(args, inputFile) == OutputFile(args.(outputFile := other), inputFile)
  {
  }

  /**
   * With `--same-dir`, an atlas name without a slash is written as
   * `<atlas_name>.png` in the directory of the sheet file.
   */
  lemma SameDirOutputBesideInput(args: Args, inputFile: string)
    requires args.sameDir
    requires '/' !in args.atlasName
    ensures Dirname(OutputFile(args, inputFile)) == Dirname(inputFile)
    ensures Basename(OutputFile(args, inputFile)) == args.atlasName + ".png"
  {
    var name := args.atlasName + ".png";
    assert '/' !in name by {
      forall k | 0 <= k < |name| ensures name[k] != '/' {
        if k < |args.atlasName| {
          assert name[k] == args.atlasName[k];
        }
      }
    }
    DirnameShape(inputFile);
    DirnameOfJoin(Dirname(inputFile), name);
    BasenameOfJoin(Dirname(inputFile), name);
  }

  /** Without `--same-dir`, an explicit output file wins; without one, the atlas name is used. */
  lemma OutputFileWithoutSameDir(args: Args, inputFile: string)
    requires !args.sameDir
    ensures Given(args.outputFile) ==> OutputFile(args, inputFile) == args.outputFile.value
    ensures !Given(args.outputFile) ==> OutputFile(args, inputFile) == args.atlasName + ".png"
    ensures !Given(args.outputFile) ==> EndsWith(OutputFile(args, inputFile), ".png")
                                        && EncodingFor(OutputFile(args, inputFile), DefaultCompressLevel) == Png(9)
  {
    if !Given(args.outputFile) {
      AppendEndsWith(args.atlasName, ".png");
      assert !EndsWith(args.atlasName + ".png", ".blp") by {
        var s := args.atlasName + ".png";
        if EndsWith(s, ".blp") {
          BlpIsNotPng(s);
        }
      }
    }
  }

  /** The sheet file always ends in ".blp", and never gains the suffix twice. */
  lemma InputFileSuffix(path: string, file: string)
    ensures EndsWith(InputFile(path, file), ".blp")
    ensures InputFile(path, file) == Join(path, file) || InputFile(path, file) == Join(path, file) + ".blp"
    ensures EndsWith(file, ".blp") ==> InputFile(path, file) == Join(path, file)
    ensures WithBlpExtension(InputFile(path, file)) == InputFile(path, file)
  {
    if EndsWith(file, ".blp") {
      JoinKeepsSuffix(path, file, ".blp");
    }
  }

  /** What `main` ends with. */
  datatype Outcome =
    | NotFound                                // line 34: the not-found message
    | Extracted(saved: Saved)                 // line 32: the part was written
    | LookupRaised(lookupError: HelperError)  // the lookup raised (no table loaded)
    | SliceRaised(sliceError: ImageError)     // slice_image raised

  /**
   * Lines 19-34 of atlas.py on the disk: look the part up, and when the
   * lookup yields a sheet and a record, make the one `slice_image` call of
   * `Plan`. Otherwise nothing on the disk changes.
   */
  method ExtractAtlas(helper: Helper, disk: Disk, args: Args) returns (outcome: Outcome)
    requires disk.Valid()
    modifies disk
    ensures disk.Valid()
    ensures helper.luaTable.None? ==> outcome == LookupRaised(TableNotLoaded) && unchanged(disk)
    ensures helper.luaTable.Some? && Plan(helper.luaTable.value, args).None? ==> outcome == NotFound && unchanged(disk)
    ensures helper.luaTable.Some? && Plan(helper.luaTable.value, args).Some? ==>
              var call := Plan(helper.luaTable.value, args).value;
              && (outcome.Extracted? <==> Writes(old(disk.images), call))
              && (outcome.Extracted? ==> && IsSliceOf(outcome.saved, old(disk.images)[call.input], call.output,
                                                   call.rect.value, call.resize, call.compressLevel)
                                         && disk.files == old(disk.files) + {call.output}
                                         && disk.images == old(disk.images)[call.output := outcome.saved.image]
                                         && disk.log == old(disk.log) + [call])
              && (!outcome.Extracted? ==> && outcome.SliceRaised?
                                          && disk.files == old(disk.files) && disk.images == old(disk.images)
                                          && disk.log == old(disk.log))
  {
    var found := helper.FindAtlasInfo(args.atlasName);
    if found.Failure? {
      return LookupRaised(found.error);
    }
    if found.value.None? || found.value.value.0 == "" {
      return NotFound;
    }
    var (file, coords) := found.value.value;
    var inputFile := Join(args.path, file);
    if !EndsWith(inputFile, ".blp") {
      inputFile := inputFile + ".blp";
    }
    var outputFile := OutputFile(args, inputFile);
    var call := SliceCall(inputFile, outputFile, RectOf(coords), args.resize, DefaultCompressLevel);
    assert Plan(helper.luaTable.value, args) == Some(call);
    var r := disk.SliceImage(call);
    outcome := if r.Success? then Extracted(r.value) else SliceRaised(r.error);
  }
}
