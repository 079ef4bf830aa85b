# FIBSEM export bookkeeping and the downsampling metadata extender

This project models the bookkeeping that surrounds the imaging calls of the
FIBSEM serial-section registration script, and the small tool that adds one
level to a multiscale N5 group. Both are written as Dafny, and their
properties are proved.

- `fibsem_registration.py` contributes several pieces:
  - the guarded merge of N5 `attributes.json` objects (`update_attributes`);
  - the scan that flags undersized `.dat` files as bad sections;
  - the conversion of bad-section keys to integers, and back to strings on export;
  - the substitution table `to_replace` and its single lookup in the loader;
  - the crop, viewport and export-interval arithmetic;
  - the `s0` dataset name;
  - the two metadata merges after export.
- `utils/add_downsampling.py` contributes the whole tool:
  - `group_name`, `parse_downsampling` and `zip_mult`;
  - the existence check over `s0 .. s<newscale>`;
  - `add_downscale`, which appends a cumulative factor list to the group's
    `downsamplingFactors` and can write resolution data for the new level;
  - the order in `main`: convert the arguments, check, then add.

The container is a map from file path to the JSON object stored in that file.
A path that is not a key is a file that does not exist. The file system that
both scripts change is the class `N5.FileSystem`, whose `files` field the
methods reassign. Each state-changing method is proved against a function of
the old files:
- `UpdateAttributes` against `UpdatedFiles`;
- `WriteExportMetadata` against `ExportedFiles`;
- `AddDownscale` against `AddDownscaleSpec`;
- `AddDownsamplingLevel` against `MainSpec`.

The lemmas state the properties of those functions. Python exceptions are
values of `Results.PyError`.

Files:
- `results.dfy`: Option, Result and Outcome, the exceptions, and Python dict construction where the last item wins.
- `py_str.dfy`: `str.strip`, `str.split`, `str.join`, `int()` of a string, and `str()` of an integer.
- `n5.dfy`: JSON values, `os.path.join`, and the container's files.
- `fibsem_registration.dfy`: the registration script's bookkeeping.
- `add_downsampling.dfy`: the downsampling tool.
- `pipeline.dfy`: an export followed by the first downsampling step.

## Model

| member | source | states |
|---|---|---|
| FibsemRegistration.SafeAttrs | fibsem_registration.py:246-247 | the merged attributes are exactly the given keys minus `dimensions`, `dataType`, `blockSize`, `compression`, `n5`, with their values |
| FibsemRegistration.RefusalWarningIff | fibsem_registration.py:249-250 | the "Refusing to overwrite" warning is printed if and only if the attributes name a reserved key |
| FibsemRegistration.TargetDir | fibsem_registration.py:252-254 | the target directory always lies below (starts with) the container root |
| FibsemRegistration.TargetDirIgnoresOuterSlashes | fibsem_registration.py:252-254 | leading and trailing `/` of the object name do not change the target directory |
| FibsemRegistration.TargetDirFalsyName | fibsem_registration.py:252-254 | a name made only of slashes (including "") targets the container root, the same as no name |
| FibsemRegistration.AttributesPath | fibsem_registration.py:256 | `os.path.join(dirpath, "attributes.json")` below the target directory |
| FibsemRegistration.CurrentAttributes | fibsem_registration.py:256-260 | the object the merge starts from: the stored attributes, or `{}` when the file does not exist |
| FibsemRegistration.MergeInto | fibsem_registration.py:256-262 | read-or-`{}`, `update` with the non-reserved attributes, write back, on one file; `MergeSemantics` and `MergeKeepsReserved` state its effect |
| FibsemRegistration.UpdatedFiles | fibsem_registration.py:245-262 | `update_attributes` as a function of the files: the merge into `attributes.json` under `TargetDir`; `UpdateMerges` and `UpdateKeepsReserved` state its effect |
| FibsemRegistration.UpdateKeepsReserved | fibsem_registration.py:245-262 | after the update every reserved key holds its old value or is still absent, and every other file is unchanged |
| FibsemRegistration.UpdateMerges | fibsem_registration.py:257-261 | new keys = old keys plus non-reserved given keys; given non-reserved keys take the given value; all other keys keep their old value; a missing file merges as `{}` |
| FibsemRegistration.MergeSemantics | fibsem_registration.py:257-261 | merging given attributes into a file's current attributes: new keys = old keys plus non-reserved given keys, given non-reserved keys win, the rest keep their value |
| FibsemRegistration.MergeKeepsReserved | fibsem_registration.py:246-262 | a merge never changes or adds a reserved key, and leaves every other file unchanged |
| FibsemRegistration.UpdateAttributes | fibsem_registration.py:245-262 | the method returns whether the warning is printed (iff a reserved key is given) and leaves the files as `UpdatedFiles` |
| FibsemRegistration.ExpectedSize | fibsem_registration.py:134 | the smallest acceptable `.dat` size, `1024 + w*h*nChannels*2`; `ScanSizes` flags the sections below it |
| FibsemRegistration.FlaggedSections | fibsem_registration.py:138-145 | the bad-section table after the scan; `ScanSizes` proves the loop computes it and states which sections it holds |
| FibsemRegistration.ScanSizes | fibsem_registration.py:134-145 | every path is kept in order; a section is flagged iff it was configured or its size is below `1024 + w*h*nChannels*2`; configured offsets are kept; newly flagged ones get -1 |
| FibsemRegistration.ParseKeys | fibsem_registration.py:98-101 | succeeds iff every key converts with `int()`; on success each item becomes `(int(key), value)` in order |
| FibsemRegistration.FirstNonIntKey | fibsem_registration.py:98-101 | the position where `int()` first fails on a key: every earlier key converts and the key there does not (the length when all convert) |
| FibsemRegistration.ParseKeysFirstBad | fibsem_registration.py:98-101 | on failure the error is the ValueError of the first key that does not convert |
| FibsemRegistration.ConvertBadSections | fibsem_registration.py:98-101 | `{int(k): v ...}` as the dict of the converted items; the `ConvertBadSections*` lemmas and `ParseKeysFirstBad` state its entries and its error |
| FibsemRegistration.ConvertBadSectionsEntries | fibsem_registration.py:99-101 | the table's keys are exactly the integers some key denotes; an item that no later item re-denotes gives its integer its value |
| FibsemRegistration.ConvertBadSectionsKeys | fibsem_registration.py:99-101 | the table's keys are exactly the integers denoted by some configured key |
| FibsemRegistration.ConvertBadSectionsLastWins | fibsem_registration.py:99-101 | the last item denoting an integer gives that section its offset |
| FibsemRegistration.ExportBadSections | fibsem_registration.py:311 | the exported object `{str(k): v ...}`; `ExportBadSectionsEntries` states its content and `BadSectionsRoundTrip` its inverse |
| FibsemRegistration.ExportBadSectionsEntries | fibsem_registration.py:311 | every bad section is exported under `str(k)` with its offset, and nothing else is exported |
| FibsemRegistration.BadSectionsRoundTrip | fibsem_registration.py:311 | the exported `badSections` object, read back through the `int()` conversion in any iteration order, is the original table |
| FibsemRegistration.NonCanonicalKeyRenamed | fibsem_registration.py:100 | a configured key `"007"` loads as section 7 and is exported as `"7"` |
| FibsemRegistration.LastParsedAs | fibsem_registration.py:100 | finds the last item whose key denotes a given integer |
| FibsemRegistration.IntValue | fibsem_registration.py:210 | the integer a JSON offset is added as: the integer itself, or 1 and 0 for `true` and `false` |
| FibsemRegistration.IsIntLike | fibsem_registration.py:210 | the JSON values `index + inc` accepts as `inc`: integers and booleans, since `bool` is a subclass of `int` |
| FibsemRegistration.ValidEntry | fibsem_registration.py:210-211 | an entry the comprehension can evaluate: the offset adds to an integer and both indices lie in `-len .. len-1` |
| FibsemRegistration.PyAt | fibsem_registration.py:210 | Python's `filepaths[i]` for `-len <= i < len`: a negative index counts from the end |
| FibsemRegistration.SubstitutionItems | fibsem_registration.py:210-211 | succeeds iff every entry's offset is an integer or a boolean (added as 1 or 0) and both `index` and `index + inc` are valid Python indices; then item i is `(filepaths[index], filepaths[index + inc])` with negative indices counted from the end |
| FibsemRegistration.FirstInvalidEntry | fibsem_registration.py:210-211 | the position of the first entry the comprehension cannot evaluate: every earlier entry is valid and the one there is not (the length when all are valid) |
| FibsemRegistration.SubstitutionItemsFirstBad | fibsem_registration.py:210-211 | on failure the first entry that cannot be evaluated decides the error: TypeError for an offset that is neither an integer nor a boolean, IndexError for an index out of range |
| FibsemRegistration.BoolOffsetSubstitutes | fibsem_registration.py:210-211 | a `true` offset is added as 1: with five files, section 3 with offset `true` reads section 4's file |
| FibsemRegistration.ToReplace | fibsem_registration.py:210-211 | `to_replace` as the dict of the substitution items, or their first error; `ResolveSubstitutes` states the lookups it answers |
| FibsemRegistration.Resolve | fibsem_registration.py:218 | `to_replace.get(filepath, filepath)`; `ResolveBadSection` and `ResolveGoodSection` state its result |
| FibsemRegistration.ResolveSubstitutes | fibsem_registration.py:210-218 | with distinct paths and every bad-section index in `0 .. len(filepaths) - 1`, the loader reads bad section `k` from `filepaths[k + inc]` and every other section from its own path |
| FibsemRegistration.ResolveBadSection | fibsem_registration.py:210-218 | a bad section's path resolves to `filepaths[k + inc]` |
| FibsemRegistration.ResolveGoodSection | fibsem_registration.py:210-218 | a path that is not a bad section resolves to itself |
| FibsemRegistration.ResolveAppliesOnce | fibsem_registration.py:218 | the lookup is applied once: with sections 1 and 2 both replaced by their predecessor, section 2 reads section 1's file, not section 0's |
| FibsemRegistration.LastIndexOf | fibsem_registration.py:210-211 | finds the last position of a section in the iteration order |
| FibsemRegistration.FirstSectionTakesLast | fibsem_registration.py:210-211 | bad section 0 with offset -1 is read from the last file of the series (`filepaths[-1]`), not refused |
| FibsemRegistration.UndersizedFirstSectionTakesLast | fibsem_registration.py:140-143 | an undersized, unconfigured first file is therefore replaced by the last file |
| FibsemRegistration.Viewport | fibsem_registration.py:197-201 | the viewport starts at the floor half of each dimension and is 501 pixels wide and high; it lies inside the image iff both sides are at least 1001 |
| FibsemRegistration.CroppedDimensions | fibsem_registration.py:122-125 | the working dimensions: the ROI's width and height when a ROI is configured, the original dimensions otherwise |
| FibsemRegistration.ExportInterval | fibsem_registration.py:281 | the export interval contains exactly the pixels `0 <= x < W`, `0 <= y < H` of the original dimensions |
| FibsemRegistration.DatasetName | fibsem_registration.py:277 | `group.rstrip("/") + "/s0"`; `DatasetNameShape` states its shape |
| FibsemRegistration.DatasetNameShape | fibsem_registration.py:277 | the dataset name is the group without its trailing slashes, then `/s0`; it never has `//s0` |
| FibsemRegistration.GroupMetadata | fibsem_registration.py:297-305 | the group's metadata object: `[[1, 1, 1]]`, the configured metadata, resolution and units |
| FibsemRegistration.DatasetMetadata | fibsem_registration.py:307-313 | the dataset's metadata object: export configuration, timestamp, exported bad sections, resolution and units |
| FibsemRegistration.ExportedFiles | fibsem_registration.py:306-315 | the files after the two merges, group first; `ExportedMetadata` and `ExportMerges` state what they hold |
| FibsemRegistration.MetadataNotReserved | fibsem_registration.py:297-315 | neither metadata object has a reserved key, so neither merge is refused; the dataset object has no `downsamplingFactors` |
| FibsemRegistration.ExportedMetadata | fibsem_registration.py:297-315 | after both merges the group lists one level `[1, 1, 1]`, and the dataset records the exported bad sections and the resolution |
| FibsemRegistration.ExportMerges | fibsem_registration.py:306-315 | the two merges keep the group's factors and write the dataset's bad sections and resolution, for any two paths |
| FibsemRegistration.MergeWrites | fibsem_registration.py:261-262 | a non-reserved key arrives in the target file with its value |
| FibsemRegistration.MergeKeeps | fibsem_registration.py:261-262 | a key the merge does not write keeps its value in every file |
| FibsemRegistration.WriteExportMetadata | fibsem_registration.py:306-315 | the files after the two `update_attributes` calls are `ExportedFiles` of the group and `<group>/s0` paths |
| PyDict.DictOfKeys | fibsem_registration.py:210-211 | a dict built from items has exactly the items' keys |
| PyDict.DictOfLastWins | fibsem_registration.py:210-211 | an item that no later item overrides gives its key its value |
| PyDict.DictOf | fibsem_registration.py:99-101 | a dict built from items in order, a later item overwriting an earlier one with the same key; `DictOfKeys` and `DictOfLastWins` state its content |
| PyStr.Strip | fibsem_registration.py:253 | `s.strip(c)` as a right strip then a left strip; `StripRemovesEnds` and `StripIdempotent` state its result |
| PyStr.LStrip | fibsem_registration.py:253 | the result is a suffix of the input, everything removed is the character, and the result does not start with it |
| PyStr.RStrip | fibsem_registration.py:277 | the result is a prefix of the input, everything removed is the character, and the result does not end with it |
| PyStr.StripRemovesEnds | fibsem_registration.py:253 | `strip` leaves an infix with only the character outside it, neither starting nor ending with it |
| PyStr.StripIdempotent | fibsem_registration.py:253 | stripping twice is stripping once |
| PyStr.Split | utils/add_downsampling.py:20 | `split` gives one piece more than the separators, none containing the separator |
| PyStr.JoinSplit | utils/add_downsampling.py:20 | joining the pieces of `split` with the separator gives the input back |
| PyStr.ParseInt | fibsem_registration.py:100 | `int(s)` of a string: surrounding whitespace, a sign, decimal digits; `ParseFormatInt` states that it inverts `str()` |
| PyStr.FormatInt | fibsem_registration.py:311 | `str(k)` of an integer; `ParseFormatInt`, `FormatIntInjective` and `FormatNat` state its properties |
| PyStr.ParseFormatInt | fibsem_registration.py:311 | `int(str(k)) == k` for every integer |
| PyStr.FormatIntInjective | fibsem_registration.py:311 | distinct sections are exported under distinct keys |
| PyStr.FormatNat | fibsem_registration.py:311 | `str(n)` is a non-empty run of decimal digits without a leading zero |
| PyStr.DigitsValueFormatNat | fibsem_registration.py:311 | the digits of `str(n)` denote `n` |
| N5.JoinRelative | fibsem_registration.py:254 | joining a relative component gives a path that starts with the directory and ends with the component |
| N5.Join | fibsem_registration.py:254 | POSIX `os.path.join(a, b)`; `JoinRelative` states its result for a relative component |
| N5.IntsJson | utils/add_downsampling.py:46 | a factor list is stored as a JSON array of the same length |
| N5.IntList | utils/add_downsampling.py:45 | reading a factor list succeeds iff the value is an array of integers, giving those integers |
| N5.IntListIntsJson | utils/add_downsampling.py:45-46 | a stored factor list reads back unchanged |
| N5.FileSystem.Read | fibsem_registration.py:45-49 | reading gives the stored object, or FileNotFound for a missing file |
| N5.FileSystem.IsFile | fibsem_registration.py:257 | `os.path.isfile(path)` (and `is_file()` in the downsampling tool): the path holds a file |
| N5.FileSystem.Write | fibsem_registration.py:52-55 | writing replaces one file's object and changes no other file |
| AddDownsampling.GroupName | utils/add_downsampling.py:15-16 | `s.strip(os.path.sep).strip("/")`; `GroupNameStripsSlashes` characterises it |
| AddDownsampling.GroupNameStripsSlashes | utils/add_downsampling.py:15-16 | on POSIX the group name is the argument with its runs of `/` at both ends removed, interior separators kept |
| AddDownsampling.ParseElements | utils/add_downsampling.py:23 | succeeds iff every element converts with `int()`; then the list has one value per element |
| AddDownsampling.FirstNonInt | utils/add_downsampling.py:23 | the position where `int()` first fails on an element: every earlier element converts and the one there does not (the length when all convert) |
| AddDownsampling.ParseElementsFirstBad | utils/add_downsampling.py:23 | on failure the error is the ValueError of the first element that does not convert |
| AddDownsampling.ParseDownsampling | utils/add_downsampling.py:19-23 | `parse_downsampling(s)`; `ParseDownsamplingSucceeds`, `ParseDownsamplingShape`, `ParseDownsamplingFirstBad` and `ParseFormattedDownsampling` state its result |
| AddDownsampling.ParseDownsamplingShape | utils/add_downsampling.py:19-23 | a string without a comma parses to one integer; one with `k` commas to a list of `k + 1` integers, one per piece |
| AddDownsampling.ParseDownsamplingSucceeds | utils/add_downsampling.py:19-23 | parsing succeeds iff every comma-separated piece converts with `int()` |
| AddDownsampling.ParseDownsamplingFirstBad | utils/add_downsampling.py:19-23 | on failure the error is the ValueError of the first comma-separated piece that does not convert, for one piece as for several |
| AddDownsampling.ParseFormattedDownsampling | utils/add_downsampling.py:19-23 | comma-joined `str()` factors parse back to the factors: one as a uniform step, several as a per-axis step |
| AddDownsampling.ZipProduct | utils/add_downsampling.py:29 | the product list has the shorter length and element i is `a[i] * b[i]` |
| AddDownsampling.Expand | utils/add_downsampling.py:27-28 | an integer step is repeated once per axis; a list step is used as is |
| AddDownsampling.ZipMult | utils/add_downsampling.py:26-29 | `zip_mult(prev, new)`; `ZipMultAxes`, `ZipMultCompose`, `ZipMultComposeUniform` and `ZipMultByOne` state its result |
| AddDownsampling.ZipMultAxes | utils/add_downsampling.py:26-29 | a uniform step keeps the number of axes and multiplies each; a per-axis step truncates to the shorter list and multiplies element by element |
| AddDownsampling.ZipMultCompose | utils/add_downsampling.py:45 | cumulative factors compose: two per-axis steps give the same factors as their element-wise product step, for any lengths (`zip` truncates both sides alike) |
| AddDownsampling.ZipMultComposeUniform | utils/add_downsampling.py:26-29 | two uniform steps `a` then `b` give the same factors as the uniform step `a * b` |
| AddDownsampling.ZipMultByOne | utils/add_downsampling.py:26-29 | a step of 1 repeats the previous level's factors |
| AddDownsampling.PathDiv | utils/add_downsampling.py:81 | pathlib's `a / b`, where an empty component adds nothing |
| AddDownsampling.GroupAttrsPath | utils/add_downsampling.py:40 | `group_path / "attributes.json"` |
| AddDownsampling.ScaleAttrsPath | utils/add_downsampling.py:34 | `group_path / f"s{scale}/attributes.json"`; `AttrsPathsDistinct` and `ExamplePaths` state its values |
| AddDownsampling.NewLevel | utils/add_downsampling.py:45 | the new level's cumulative factors `zip_mult(dsf[-1], downscaling)` |
| AddDownsampling.AppendLevel | utils/add_downsampling.py:46 | the group attributes after `dsf.append(total_downscale)`: the factor list gains the new level at its end |
| AddDownsampling.AttrsPathsDistinct | utils/add_downsampling.py:34 | the group's attributes file differs from every level's, and different levels have different files |
| AddDownsampling.ExamplePaths | utils/add_downsampling.py:40 | the group file is `g/attributes.json` and level 1's is `g/s1/attributes.json` |
| AddDownsampling.FirstMissing | utils/add_downsampling.py:32-36 | returns nothing iff every level from `scale` to `newScale` has an attributes file, else the first level that has none |
| AddDownsampling.CheckArraysExist | utils/add_downsampling.py:32-36 | passes iff `s0 .. s<newscale>` all have attributes files; otherwise raises FileNotFound for the first missing one in increasing order; changes nothing |
| AddDownsampling.AddDownscaleAt | utils/add_downsampling.py:39-68 | `add_downscale` on given group and level files, with the dataset write as written or as intended; the `AddDownscale*` lemmas state its outcomes |
| AddDownsampling.AddDownscaleSpec | utils/add_downsampling.py:39-68 | `add_downscale(group_path, new_scale, downscaling)` on the group's own `attributes.json` and `s<new_scale>/attributes.json` |
| AddDownsampling.AddDownscale | utils/add_downsampling.py:39-68 | the outcome and files are those of `AddDownscaleSpec` as the code is written |
| AddDownsampling.AddDownscaleAppendsLevel | utils/add_downsampling.py:45-48 | when the group lists `newScale` levels, the group file gains exactly one level `zip_mult(dsf[-1], downscaling)`; earlier levels and other keys are unchanged |
| AddDownsampling.AddDownscaleTouchesTwoFiles | utils/add_downsampling.py:39-68 | no file other than the group's and the new level's changes |
| AddDownsampling.AddDownscaleCountsLevels | utils/add_downsampling.py:43-44 | RuntimeError with both counts iff the number of levels differs from the new scale, and then nothing is written |
| AddDownsampling.AddDownscaleEmptyLevels | utils/add_downsampling.py:42-45 | with new scale 0 and no level, `dsf[-1]` raises IndexError and nothing is written |
| AddDownsampling.AddDownscaleTwiceFails | utils/add_downsampling.py:43-46 | the same step run twice fails the second time with RuntimeError(newScale, newScale + 1) |
| AddDownsampling.AddDownscaleWithoutResolution | utils/add_downsampling.py:50-55 | a group without units or resolution gets its level and the call returns; the dataset file is untouched |
| AddDownsampling.AddDownscaleWritesGroupFirst | utils/add_downsampling.py:47-57 | the group file is written before the resolution is used: a malformed resolution fails after the level is stored |
| AddDownsampling.AddDownscaleKeepsDatasetResolution | utils/add_downsampling.py:61-63 | a dataset that already declares units or resolution is not rewritten |
| AddDownsampling.IntendedDatasetResolution | utils/add_downsampling.py:57-66 | with `ds_attrs` written, a changed dataset file keeps its keys and gains the group's units and the group's resolution times the new cumulative factors |
| AddDownsampling.IntendedDatasetWritten | utils/add_downsampling.py:57-68 | when the group has units and an integer resolution and the dataset declares neither, the intended write passes and the dataset file gains the units and the resolution scaled by the new cumulative factors |
| AddDownsampling.AsWrittenDatasetGetsGroupAttributes | utils/add_downsampling.py:67-68 | as written, a changed dataset file is a copy of the updated group attributes, with the unscaled group resolution |
| AddDownsampling.AsWrittenDatasetOverwritten | utils/add_downsampling.py:46-68 | under the same conditions, as written, the call passes and both the group file and the dataset file hold the group's attributes with the new level appended |
| AddDownsampling.DatasetResolutionExample | utils/add_downsampling.py:57-68 | concrete case: group `[[1,1,1]]`, resolution `[4,4,40]`, step 2: as written `s1` gets `[4,4,40]`; intended `[8,8,80]` |
| AddDownsampling.MainSpec | utils/add_downsampling.py:71-85 | `main`: argument conversion in order, then the level check, then `add_downscale`; `MainRejectsArguments`, `MainAfterArguments`, `MainChecksLevels` and `MainAddsLevel` state its result |
| AddDownsampling.LevelsChecked | utils/add_downsampling.py:83-85 | `check_arrays_exist` then `add_downscale`; `LevelCheckFails` and `LevelCheckPasses` state its result |
| AddDownsampling.AddDownsamplingLevel | utils/add_downsampling.py:71-85 | the outcome and files of `main` are those of `MainSpec` |
| AddDownsampling.MainRejectsArguments | utils/add_downsampling.py:74-79 | a `newscale` or `downsampling` that does not convert is refused and no file changes |
| AddDownsampling.MainAfterArguments | utils/add_downsampling.py:79-85 | once both arguments convert, `main` is the level check followed by `add_downscale` on `container / group` |
| AddDownsampling.MainChecksLevels | utils/add_downsampling.py:83 | a missing level `s0 .. s<newscale>` raises FileNotFound for a missing file before any write |
| AddDownsampling.MainAddsLevel | utils/add_downsampling.py:83-85 | with every level present, `main` is exactly `add_downscale` on `container / group` |
| AddDownsampling.LevelCheckFails | utils/add_downsampling.py:83 | the check after argument conversion fails without writing when some level is missing |
| AddDownsampling.LevelCheckPasses | utils/add_downsampling.py:83-85 | the check after argument conversion hands over to `add_downscale` when every level exists |
| Pipeline.ExportThenDownscale | utils/add_downsampling.py:42-48 | after the export's merges, adding level 1 leaves the group with `[[1,1,1], zip_mult([1,1,1], step)]` |
| Pipeline.MainTargetsExportedGroup | utils/add_downsampling.py:81 | `container / group_name(group)` is the directory the export wrote the group to under the same name (`os.path.join(root, name.strip("/"))`) |
| Pipeline.ExportedGroupTakesLevelOne | fibsem_registration.py:301-306 | the group the export writes is the one the tool extends: on the real paths, level 1 is appended to `[[1,1,1]]` |

## Left out

- Registration, optimisation, rendering, CLAHE and N5 block writing are left out. They happen inside library code that is not part of this model (`viewAligned`, `qualityControl`, `export8bitN5`, `setupImageLoader`, `loadMatrices`, `readFIBSEMdat`, `findFilePaths`). File sizes and the list of paths become parameters.
- The SIFT parameter setup is left out. It computes in floating point and fills a foreign parameter object.
- The configuration file and the clock are left out. The configuration values, including the timestamp string, are parameters.
- JSON numbers are integers. Floating-point resolutions are not modelled.
- JSON serialisation and the disk are not modelled. A file is the object it holds.
- `write_json` passes the path instead of the file handle to `json.dump`. It is modelled as the intended "the file at `path` now holds `d`" (`N5.FileSystem.Write`). As written the module does not compile under either Python. Python 2 (Jython) rejects the `**resolution` entries in the dict displays at fibsem_registration.py:304 and :312. Python 3 rejects the `print` statements at :141-142, :149 and :250. If it did compile, `open(path, "w")` at line 53 would empty the attributes file before `json.dump` raised at line 54.
- The `firstFile` trimming of the path list is left out. Its lookup key depends on the argument order of `os.path.join`.
- Prints and logging are left out. This includes the "corrupted images" count, which always reports 0 because every path is kept.
- `export_n5.py` and `view_alignment.py` are not part of this model. They orchestrate the same steps.
- `CroppedDimensions` only selects the ROI's width and height. It carries no contract beyond its definition.
- ImageJ's handling of a ROI with negative size (`getBounds` normalisation) is not modelled.
- `PyStr.ParseInt` skips only space, tab, newline, carriage return, vertical tab and form feed around the number (`PyStr.IsSpace`), then takes a sign and ASCII decimal digits. Python's `int()` also skips `\x1c`-`\x1f` and Unicode whitespace, and Python 3 accepts underscores between digits and non-ASCII digits. For such strings the model reports a ValueError where Python returns a number.
- `Path(s).resolve()` is not modelled. The container argument is taken as already resolved. Pathlib's normalisation of `//` and `.` inside joined paths is not modelled either.
- `AddDownsampling.MainSpec` takes exactly the four positional argument strings and models only one argparse error: `ArgumentError` when `newscale` or `downsampling` fails its conversion. The other argparse behaviour is not modelled: a missing or extra argument, `--help`, and the exit with status 2. Nor is argparse's reading of an argument that starts with `-` and is not a negative number (a `downsampling` of `-2,3`, a group `-g`) as an unknown option, which is a usage error that touches no file. The model converts such an argument and goes on.
- Worker threads and the thread count are left out.
- `AddDownsampling.AddDownscaleAt` lumps JSON values of the wrong type into one `TypeError`. Python may instead raise another error or carry on. The cases are:
  - a non-list `downsamplingFactors` (a dict, for example, raises KeyError on `dsf[-1]`);
  - a last level that is not a list of integers (a list of strings is repeated by `*` rather than refused);
  - a resolution that is not a list of integers.
- The group dictionary display with `**resolution` is read with its Python 3 meaning.
- `AddDownsampling.MainChecksLevels` does not state which missing level is reported. `AddDownsampling.CheckArraysExist` states that it is the first one.

## Findings

| source | as written | input that shows it | evidently intended | confidence | as-written member | corrected member |
|---|---|---|---|---|---|---|
| utils/add_downsampling.py:67 | the dataset file is written with `json.dumps(attrs)`, the group's attributes, so the scaled `ds_attrs["resolution"]` computed on lines 57-66 never reaches disk | group `{"downsamplingFactors": [[1,1,1]], "units": [...], "resolution": [4,4,40]}`, empty `s1`, step `2`: `s1` receives the group object with resolution `[4,4,40]` | `json.dumps(ds_attrs)`: `s1` keeps its own keys and gains the units and resolution `[8,8,80]` | not executed | AddDownsampling.AsWrittenDatasetGetsGroupAttributes | AddDownsampling.IntendedDatasetResolution |

`AddDownsampling.AddDownscaleAt` takes the dataset write as a parameter (`AsWritten` or `Intended`). `AddDownsampling.DatasetResolutionExample` evaluates both on the input above. The executable method `AddDownsampling.AddDownscale` follows the code as written. The pipeline lemmas hold for both.
