# WoWAtlasExtract, modelled in Dafny

WoWAtlasExtract cuts named parts ("atlases") out of World of Warcraft
texture sheets (`.blp` files). The coordinates come from `AtlasInfo.lua`, a
Lua table that maps each sheet file to its parts, and each part to an array
`{width, height, left, right, top, bottom, ...}` of normalised coordinates.
The tool has two entry points:

- `atlas.py` extracts one named part.
- `deconstruct.py` extracts every part of one sheet into
  `<output_dir>/<sheet name>/<part>.png`. It skips the parts that are
  already on disk, so an interrupted run can be resumed.

The model has one file per core source file, plus two helper files:

- `atlas_table.dfy` (module `AtlasTable`): the parsed table and the four
  `Helper` lookups of helper.py. The table is a sequence of sheets, and each
  sheet holds a sequence of parts. Both are in the order the Lua runtime
  enumerates them, so "first match" means "smallest position". The lookups
  are methods with `for` loops, proved against first-match specification
  functions.
- `extract.dfy` (module `Extract`): the integer `nearest_power_of_2`, the
  per-axis resize target, the conversion of a normalised rectangle to a
  crop box in Pillow's (left, upper, right, lower) order, the choice between
  BLP2 and PNG output, and `slice_image`. Images are reduced to their size
  and colour mode. The files are a `Disk` class: the set of existing paths,
  the decodable images, and a log of the slices written.
- `deconstruct.dfy` (module `Deconstruct`): `extract_all_parts`. It derives
  the paths, skips parts whose output exists, and counts progress once per
  part. The method on the disk is proved against `Run`, a function on
  values. Resumability, the progress count and "exactly the missing parts
  are sliced" are proved about `Run`.
- `atlas.dfy` (module `Atlas`): lines 19-34 of `atlas.py` `main`. It looks
  the part up, resolves the `.blp` input path, picks the output path
  (`--same-dir`, then an explicit output file, then `<atlas_name>.png`), and
  makes one `slice_image` call.
- `paths.dfy` (module `Paths`): `os.path.join`, `basename`, `dirname`,
  `splitext`, `str.endswith` and `in` on strings, for POSIX paths.
- `wrappers.dfy` (module `Wrappers`): `Option` and `Result`.

The Python exceptions become `Result` failures:

- `AttributeError` when the Lua file did not evaluate. This is
  `TableNotLoaded`.
- the `ValueError` of `math.log2` on a zero size.
- Pillow's `ValueError` for a box whose right edge is before its left, or
  whose lower edge is above its upper.
- the `TypeError` of a coordinate that is nil, and the `TypeError` or
  `ValueError` of a string coordinate (but see `AtlasTable.RectOf` under
  "Left out").
- Pillow's `ValueError` when an image with no pixels is saved.
- the `TypeError` of the `silent` keyword that `slice_image` does not
  declare (see "Findings"). It is not an `ImageError`: it is the `failed`
  flag of `Deconstruct.Run` when the keyword is passed.

## Behaviour worth knowing

- **Record fields.** `coords[3]` to `coords[6]` index a Lua table through the
  Lua bridge, so the keys are Lua's 1-based keys: they are the 3rd to 6th
  entries of `{width, height, left, right, top, bottom, ...}`, that is left,
  right, top and bottom. `AtlasTable.Get` reads Lua key `k` from
  `fields[k - 1]`.
- **Rounding.** Pixels are computed with `int(...)`, which truncates toward
  zero. It is not `floor`, and the two differ on negative coordinates.
- **Out-of-order boxes.** Pillow's crop raises when the right edge is left
  of the left edge, or the lower edge above the upper edge. A box that
  reaches past the image is accepted. No part is clamped before cropping.
- **Zero-sized crops.** Nothing rejects them up front, and no file is
  written for them. With `--resize`, `math.log2(0)` raises first. Without
  it, Pillow's encoder refuses the empty image when it is saved, and Pillow
  removes the output file it had just created.
- **Failing slices in a batch.** A slice that raises ends
  `extract_all_parts`: there is no per-part recovery.

## Model

| member | source | states |
|---|---|---|
| `AtlasTable.RectOf` | atlas.py:22 | the rectangle is present exactly when Lua keys 3, 4, 5 and 6 all hold numbers (a boolean counts as 0 or 1) |
| `AtlasTable.RectOfReadsKeysThreeToSix` | deconstruct.py:23 | a record whose 3rd to 6th entries (Lua keys 3 to 6) are the numbers a, b, c, d gives the rectangle with left a, right b, top c and bottom d |
| `AtlasTable.RecordOf` | helper.py:46 | `parts[name]` is the record of a part with that name, and no earlier part has that name |
| `AtlasTable.RecordOfUnique` | helper.py:46 | with unique part names, `parts[name]` is the record of the part with that name |
| `AtlasTable.AtlasInfo` | helper.py:43-47 | finds nothing exactly when no sheet has a part `name`; otherwise gives the identifier and the part's record of a sheet that has it, and no earlier sheet has it |
| `AtlasTable.FileByAtlasName` | helper.py:61-65 | finds nothing exactly when no sheet has a part `name` |
| `AtlasTable.FileByName` | helper.py:55-59 | finds nothing exactly when no identifier contains the needle; otherwise returns an identifier that contains it, and no earlier identifier does |
| `AtlasTable.AtlasByFileName` | helper.py:49-53 | finds nothing exactly when no identifier contains the needle |
| `AtlasTable.FileByAtlasNameAgreesWithAtlasInfo` | helper.py:61-65 | `find_file_by_atlas_name` returns `None` exactly when `find_atlas_info` does, and otherwise the same sheet as its first component |
| `AtlasTable.AtlasByFileNameAgreesWithFileByName` | helper.py:49-59 | `find_atlas_by_file_name` returns `None` exactly when `find_file_by_name` does; with unique identifiers it returns the part map stored under the identifier `find_file_by_name` returns |
| `AtlasTable.ExistingIdIsFound` | helper.py:55-58 | a lookup by an existing identifier never returns `None`, but it may return an earlier identifier that contains it |
| `AtlasTable.FirstOfTwoMatchesWins` | helper.py:55-58 | when two identifiers contain "foo/bar", the one enumerated first ("art/foo/bar/sheet1") is returned |
| `AtlasTable.ExactNameLookup` | helper.py:43-47 | in a table whose only sheet "sheetA" has a part "foo", the lookup of "foo" returns ("sheetA", its record), whose rectangle is (0.1, 0.5, 0.2, 0.6); the lookup of "bar" finds nothing |
| `AtlasTable.Helper.constructor` | helper.py:15-19 | an absent or empty Lua file name falls back to the cache file; the table is the result of evaluating the file |
| `AtlasTable.Helper.FindAtlasInfo` | helper.py:43-47 | the loop returns the first-match result of `AtlasInfo`, or raises when no table is loaded; it changes nothing |
| `AtlasTable.Helper.FindAtlasByFileName` | helper.py:49-53 | the loop returns the first-match result of `AtlasByFileName`, or raises when no table is loaded; it changes nothing |
| `AtlasTable.Helper.FindFileByName` | helper.py:55-59 | the loop returns the first-match result of `FileByName`, or raises when no table is loaded; it changes nothing |
| `AtlasTable.Helper.FindFileByAtlasName` | helper.py:61-65 | the loop returns the first-match result of `FileByAtlasName`, or raises when no table is loaded; it changes nothing |
| `Extract.NearestPowerOf2` | extract.py:5-7 | succeeds exactly for values >= 1, with a power of two that is >= the value and whose half is below it; raises a math domain error otherwise |
| `Extract.NearestPowerOf2IsLeast` | extract.py:7 | no power of two at least the value is smaller than the result |
| `Extract.NearestPowerOf2OfPower` | extract.py:7 | a power of two is mapped to itself |
| `Extract.ResizeTarget` | extract.py:9-13 | each axis becomes the least power of two at least its size, computed on its own; a zero width or height raises |
| `Extract.ResizeTargetIdempotent` | extract.py:11-14 | resizing a second time gives the same size |
| `Extract.Truncate` | extract.py:50-53 | `int(x)` truncates toward zero: it is within 1 of `x` and on the same side of 0 |
| `Extract.TruncateMonotone` | extract.py:50-53 | truncation keeps the order of two values |
| `Extract.PixelBoxMonotone` | extract.py:47-53 | left <= right gives left_px <= right_px (scaled by the width); top <= bottom gives top_px <= bottom_px (scaled by the height) |
| `Extract.PixelBoxWithinImage` | extract.py:47-53 | a rectangle inside the unit square gives a box inside the image |
| `Extract.PixelBoxNonEmpty` | extract.py:50-56 | when the scaled sides are at least one pixel apart, truncation leaves a non-empty box |
| `Extract.PixelBoxExample` | extract.py:47-56 | on a 100 x 200 image, (0.25, 0.75, 0.5, 1.0) gives the box (25, 100, 75, 200) in (l, t, r, b) order, a 50 x 100 crop |
| `Extract.Crop` | extract.py:56 | the crop succeeds exactly when right >= left and lower >= upper, with size (right - left, lower - upper) and the mode kept |
| `Extract.ResizeToPowerOf2` | extract.py:9-14 | the image takes the resize target's size, or the resize raises when the target does |
| `Extract.EncodingFor` | extract.py:63-69 | BLP2 exactly when the output path ends in ".blp"; PNG with the given compression level otherwise |
| `Extract.SliceBitmap` | extract.py:43-69 | succeeds exactly when the pixel box holds at least one pixel; the box is the pixel box; the size is the crop size, or its power-of-two target when resizing; the mode is RGBA, or palette for ".blp"; the encoding follows the extension; a failure is a crop error exactly when the box is out of order; an ordered but empty box raises in `log2` when resizing and in the encoder otherwise |
| `Extract.Disk.SliceImage` | extract.py:31-69 | writes the output exactly when the input is a decodable image and the slice succeeds; the written image is the slice of the input image that `SliceBitmap` describes; it then adds the output path to the files, the image under that path, and the call to the log; nothing changes when it raises |
| `Paths.WithBlpExtension` | deconstruct.py:24-26 | the sheet path ends in ".blp"; ".blp" is appended exactly when it was missing |
| `Paths.WithBlpExtensionIdempotent` | deconstruct.py:25-26 | the path never gets a second ".blp" suffix |
| `Paths.Basename` | deconstruct.py:9 | the basename holds no slash and ends the path, and it is the whole path or is preceded by a slash: it is everything after the last slash |
| `Paths.StripExtension` | deconstruct.py:9 | the root is a prefix of the path, either all of it or all of it up to a last dot after which there is no dot and no slash |
| `Paths.StripExtensionRemovesExtension` | deconstruct.py:9 | a stem whose last component has a character other than a dot, plus "." and an extension without dots or slashes, is stripped back to the stem |
| `Paths.StripExtensionWithoutDot` | deconstruct.py:9 | a path whose basename has no dot is kept whole |
| `Paths.DirnameOfJoin` | atlas.py:28 | the directory of a file joined to a directory (in dirname form) is that directory |
| `Deconstruct.OutputLayout` | deconstruct.py:9-27 | the subdirectory is named after the sheet's basename without its extension; a part is written in it as `<part>.png` |
| `Deconstruct.PartOutputInjective` | deconstruct.py:27 | different part names give different output paths |
| `Deconstruct.SheetPathIsNoOutput` | deconstruct.py:24-27 | the sheet file (".blp") is never one of the outputs (".png") |
| `Deconstruct.RunFilesBetween` | deconstruct.py:28-32 | a run only adds part outputs to the files |
| `Deconstruct.RunExtendsLog` | deconstruct.py:28-32 | a run only appends to the log of slices |
| `Deconstruct.RunCount` | deconstruct.py:21-33 | the progress count never passes the number of parts, and it reaches that number, skipped parts included, unless a slice raised |
| `Deconstruct.RunCompleteFiles` | deconstruct.py:22-33 | after a run with no exception, every part's output exists |
| `Deconstruct.RunAfterFailure` | deconstruct.py:22-33 | once a slice raised, the remaining parts are not visited |
| `Deconstruct.RunWithAllOutputsPresent` | deconstruct.py:28-33 | when every output exists, a run slices nothing, changes nothing and counts every part |
| `Deconstruct.SecondRunSlicesNothing` | deconstruct.py:28-32 | resumability: after a run with no exception, a second run over the same parts slices nothing |
| `Deconstruct.RunSlicesExactlyTheMissing` | deconstruct.py:22-33 | with unique part names, a run with no exception slices exactly the parts whose output was missing, each once, in part order |
| `Deconstruct.SilentKeywordWritesNothing` | deconstruct.py:29 | as written, the run writes nothing, and it raises exactly when some output is missing |
| `Deconstruct.SilentKeywordExample` | deconstruct.py:29 | one part with no output yet: passing `silent=True` writes nothing and raises; leaving it out writes the part |
| `Deconstruct.SlicePart` | deconstruct.py:23-33 | one pass of the loop body changes the disk the way `Step` says; the sheet image is left intact; every image written since the batch began is still the slice of the sheet image for the part whose output path holds it |
| `Deconstruct.SliceAll` | deconstruct.py:21-33 | the loop leaves the disk's files and log as `Run` says, and the progress equals `Run`'s count; it reports an exception exactly when `Run` raised; existing images are kept, and every new file holds the slice of the sheet image (as `SliceBitmap` describes it) for the part whose `<part>.png` it is |
| `Deconstruct.ExtractAllParts` | deconstruct.py:7-33 | with the subdirectory of lines 9-10 and the sheet path of lines 24-26, the whole call ends as `Run` says, as for `SliceAll`, and each new `<part>.png` holds that part's slice of the sheet |
| `Atlas.Plan` | atlas.py:19-31 | a slice is planned exactly when some sheet has the part, the first such sheet has a non-empty identifier and no earlier sheet has it; the call's input is that sheet under `--path` with ".blp", its rectangle is that part's, its output follows the output rule, and it uses `--resize` and the default compression level 9 |
| `Atlas.NotFoundSlicesNothing` | atlas.py:19-34 | a part no sheet has, or a first sheet with an empty identifier, plans no slice |
| `Atlas.SameDirIgnoresOutputFile` | atlas.py:27-28 | with `--same-dir` the explicit output file has no effect |
| `Atlas.SameDirOutputBesideInput` | atlas.py:27-28 | with `--same-dir` the output is `<atlas_name>.png` in the directory of the sheet file |
| `Atlas.OutputFileWithoutSameDir` | atlas.py:29-31 | without `--same-dir`, a non-empty explicit output file wins, else `<atlas_name>.png`, which is written as PNG at level 9 |
| `Atlas.InputFileSuffix` | atlas.py:24-26 | the sheet path ends in ".blp", is the joined path with ".blp" appended at most once, and is unchanged when the identifier already ends in ".blp" |
| `Atlas.ExtractAtlas` | atlas.py:19-34 | a failed lookup changes nothing and reports not found; otherwise exactly the call of `Plan` is made, which either writes at its output the slice `SliceBitmap` describes (adding the path to the files, the image under it, and the call to the log) or raises with nothing changed |

## Findings

| source | as written | input that shows it | evidently intended | confidence | as-written member | corrected member |
|---|---|---|---|---|---|---|
| deconstruct.py:29 | `slice_image(..., compress_level, silent=True)`, but `slice_image` (extract.py:16) has no `silent` parameter, so the call raises `TypeError` before anything is sliced | a sheet with one part whose output does not exist yet | the call with the parameters `slice_image` declares, so every missing part is written | high (not executed) | `Deconstruct.SilentKeywordWritesNothing` | `Deconstruct.ExtractAllParts` |

## Left out

- Downloading `AtlasInfo.lua`, the cache-file check, `.env` and
  environment defaults (helper.py:7-30): network and file I/O. The
  `Helper` constructor receives the file name and the evaluated table.
- Evaluating the Lua file with lupa (helper.py:32-41): a foreign runtime.
  Its result is the constructor's `Option<Table>` argument; a failed
  evaluation is `None`.
- All imaging calls (extract.py:31-45, 56, 60-69). This covers decoding, the
  multi-frame probe with `n_frames`, `seek(0)` and `EOFError`, pixel
  contents of `convert` and `crop`, bicubic resampling, palette
  quantisation and the BLP and PNG encoders. Only sizes, modes, the box and
  the encoding choice are kept. A multi-frame sheet is modelled by the
  size of its first frame.
- Encoder failures other than the zero-size save (`EmptyImage`), such as the
  unreliable BLP writer: the model treats every other save as successful.
- Extract.Disk.SliceImage: a zero-size save has already opened the output for
  writing when it raises. Pillow deletes the file if it created it, as the
  model does. An output that existed before is left truncated, while the model
  keeps its previous image, because the disk holds decoded images, not bytes.
- AtlasTable.RectOf: every string coordinate is taken to raise. In Python
  `str * int` repeats the string `width` (or `height`) times, so a non-empty
  string of digits passes `int(...)`: right = "1" on a sheet 2 pixels wide
  gives the pixel 11. Not modelled, because it would make the pixel box
  depend on the decimal text of the field rather than on a number; the table
  is expected to hold numbers in these fields.
- Floating point: coordinates are `real`, so `int(x * width)` is exact
  truncation of the exact product. `math.log2` is replaced by an exact
  integer computation, so the rounding of very large sizes is not
  modelled.
- Argument parsing, printing, `tqdm` output (only its count is kept),
  `os.makedirs` (the created directory is not added to the files),
  `os.path.isfile` and `relpath`.
- The dispatch in `deconstruct.main` (deconstruct.py:35-67). It passes the
  string returned by `find_file_by_name` (helper.py:55-59) to
  `extract_all_parts` as `atlas_info` (deconstruct.py:52, 61). There,
  `atlas_info.keys()` raises `AttributeError` (deconstruct.py:14). The model
  gives `extract_all_parts` a genuine part map instead.
- `Paths.Join`: the POSIX rule that an absolute second component replaces
  the first is not modelled, and neither are the normalisation rules of
  `os.path`.
- Concurrency: there is none in the source.
