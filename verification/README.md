# Sentinel scene layout and file discovery (bdc-collectors), in Dafny

This project models the Sentinel part of the BDC collectors. It has three parts.

- **Scene identifiers.** `Sentinel2Scene` and `Sentinel1Scene` split an identifier on `_` and validate it against a fixed grammar. From the fragments they read the tile id, the satellite, the source, and the sensing and processing timestamps.
- **Version tag.** `entry_version` turns a collection version into a folder name.
- **Layout and discovery.** `SentinelCollection.path` and `compressed_file` place a scene on disk. `get_files` and `get_assets` turn the listing of a scene directory into a dictionary from band or asset names to files.

A path is its list of segments (`Path.parts`). A directory listing is an input: the sequence of entries found below the directory, each relative to it, in the order the filesystem yields them. Each glob is a predicate on such an entry. Discovery is therefore a fold over the listing into a `map<string, Path>`, using first-wins (`setdefault`) or last-wins (`d[k] = v`) insertion. Errors the Python code raises become `Err` values of one `Error` datatype.

| module | file | models |
|---|---|---|
| `Text` | text.dfy | `str.split`, `str.join`, `in`, `endswith`, `rfind`, `lower`, and `<=` on `str` |
| `Decimal` | decimal.dfy | `str(n)`, `'{:03d}'.format(n)`, and `int(text)` |
| `Timestamps` | timestamps.dfy | `%Y%m%dT%H%M%S` parsing and its rendering |
| `Scenes` | scenes.dfy | both scene parsers and their accessors |
| `Versions` | versions.dfy | `entry_version` |
| `Paths` | paths.dfy | `name`, `suffix`, `stem`, path ordering, and `sorted` |
| `Layout` | layout.dfy | `path` and `compressed_file` |
| `Folds` | folds.dfy | first-wins and last-wins dictionary building |
| `Globs` | globs.dfy | the glob patterns |
| `Discovery` | discovery.dfy | `get_files` |
| `Assets` | assets.dfy | `get_assets` |

## Model

| member | source | states |
|---|---|---|
| Scenes.Parse | bdc_collectors/scihub/parser.py:32-41 | A successful parse keeps the identifier and family, and its fragments are the `_`-split of the identifier. The fragments contain no `_` and join back into the identifier. A rejected identifier gives the invalid-scene error. |
| Scenes.Grammar | bdc_collectors/scihub/parser.py:36-39 | On the text alone, an identifier parses iff it has exactly one underscore fewer than the family's fragment count (7 for Sentinel-2, 9 for Sentinel-1) and starts with an admissible source (`S2A`/`S2B` or `S1A`/`S1B`) followed by `_`. |
| Scenes.NoSharedIdentifier | bdc_collectors/scihub/parser.py:75-78 | No identifier is accepted by both parsers. |
| Scenes.TileId | bdc_collectors/scihub/parser.py:43-45 | Sentinel-2: fragment 5 without its first character, so one character shorter, or empty when the fragment is empty. Sentinel-1: fragment 6 unchanged. The tile id never contains `_`. |
| Scenes.Source | bdc_collectors/scihub/parser.py:61-63 | The source is an admissible first fragment, and the identifier starts with it followed by `_`. |
| Scenes.Satellite | bdc_collectors/scihub/parser.py:55-59 | The satellite is in {`2A`,`2B`} for Sentinel-2 and {`1A`,`1B`} for Sentinel-1. `S` followed by the satellite is the source. |
| Scenes.ReadTimestamp | bdc_collectors/scihub/parser.py:47-53 | Reading a timestamp fragment succeeds iff the fragment parses, that is iff it is well formed with in-range fields, and the date is then those fields. The year is the value of the first four digits and the month that of the next two. The date renders back to the fragment, except that the separator is normalised to `T`. A malformed fragment is a date error that names the fragment. |
| Scenes.SensingDate | bdc_collectors/scihub/parser.py:47-49 | `sensing_date()` reads fragment 2 of a Sentinel-2 identifier and fragment 4 of a Sentinel-1 identifier (parser.py:86-88). |
| Scenes.ProcessingDate | bdc_collectors/scihub/parser.py:51-53 | `processing_date()` reads the last fragment (6) of a Sentinel-2 identifier and fragment 5 of a Sentinel-1 identifier (parser.py:90-92). |
| Timestamps.Parse | bdc_collectors/scihub/parser.py:86-92 | Text yields a date iff it is well formed (eight digits, `T` in either case, six digits) and its fields are in range. The date is then those fields, so the year and month are the values of the first four and next two digits. |
| Timestamps.ParseFormat | bdc_collectors/scihub/parser.py:47-53 | Parsing the rendering of any in-range date gives that date back. |
| Timestamps.FormatParse | bdc_collectors/scihub/parser.py:47-53 | A parsed timestamp renders back to the text it came from, except that the separator is normalised to `T`. |
| Text.Split | bdc_collectors/scihub/parser.py:36 | A split has one more piece than the text has separators. No piece contains the separator, and joining the pieces gives the text back. |
| Text.SplitJoin | bdc_collectors/scihub/parser.py:36 | Splitting the join of separator-free pieces gives the pieces back. |
| Versions.EntryVersion | bdc_collectors/utils.py:108-112 | A tag always starts with `v`. It contains a dot iff it is dotted text kept verbatim. The only error is dotless text that `int()` rejects, and that error names the text. |
| Versions.IntTag | bdc_collectors/utils.py:112 | An integer tag starts with `v`, and parsing the rest with `int()` gives the integer back. For `n >= 0` the rest is all digits, exactly three below 1000 and `str(n)`'s length from then on. For `n < 0` the rest is `-` then digits; the tag has four characters for -99..-1 and two more than the digit count from -100 down. |
| Versions.DottedVerbatim | bdc_collectors/utils.py:110-111 | Dotted text gives `v` followed by the text unchanged. |
| Versions.SmallTagWidth | bdc_collectors/utils.py:112 | Every integer from 0 to 999 gives a four-character tag. |
| Versions.LargeTagUntruncated | bdc_collectors/utils.py:112 | From 1000 on the tag is `v` followed by `str(n)`: padding never truncates. |
| Versions.IntTagRoundTrip | bdc_collectors/utils.py:112 | Dropping the `v` and parsing the rest recovers the integer, so distinct integers give distinct tags. |
| Versions.NumericTextAsInteger | bdc_collectors/utils.py:110-112 | Dotless digit text gives the same tag as its integer value. |
| Versions.NonNumericTextFails | bdc_collectors/utils.py:112 | Dotless text that `int()` rejects is an error. |
| Versions.ExampleFour | bdc_collectors/utils.py:112 | Version 4 gives `v004`. |
| Versions.ExampleTwelve | bdc_collectors/utils.py:112 | Version 12 gives `v012`. |
| Decimal.FormatInt | bdc_collectors/utils.py:112 | The zero-padded rendering is exactly as wide as asked, or as wide as the number needs when that is wider, with the sign counting towards the width. `int()` reads it back as the same number. It is all digits for a non-negative number, and `-` followed by digits otherwise. |
| Decimal.ToDecimalUnique | bdc_collectors/scihub/base.py:109 | `str(n)` is the only digit string without a leading zero that denotes `n`. |
| Layout.TileLevels | bdc_collectors/scihub/base.py:111 | A tile of at least three characters splits into levels of two characters, one character and the rest. The three concatenate back to the tile. |
| Layout.PathParts | bdc_collectors/scihub/base.py:107-113 | The parts of a scene directory exist iff the version tag, the sensing date and `tile[2]` all do. On failure the error is the first of these to fail, in that order. |
| Layout.ArchiveParts | bdc_collectors/scihub/base.py:86-91 | `compressed_file` computes the same parts as `path`, and succeeds exactly when `path` does. It checks the sensing date first, then the version tag, then `tile[2]`, and its error is the first of these to fail. |
| Layout.ScenePath | bdc_collectors/scihub/base.py:102-120 | Fails exactly when a part fails, with the error of the first failing part (version, then date, then tile). Otherwise the path is the root, then the collection name, the version tag, three tile levels that concatenate to the tile id, the decimal sensing year, the decimal month when asked for, and finally the scene id. |
| Layout.CompressedFile | bdc_collectors/scihub/base.py:81-100 | On failure the error is the first failing part, in the order date, then version, then tile. |
| Layout.CompressedFileInScenePath | bdc_collectors/scihub/base.py:97-100 | The archive exists exactly when the scene directory does, and is that directory plus `<scene id>.zip`. |
| Layout.MonthLevel | bdc_collectors/scihub/base.py:114-116 | Asking for the month inserts exactly one level, between the year and the scene id. That level is the unpadded month: one character below 10, never starting with `0`. |
| Layout.PrefixPrepended | bdc_collectors/scihub/base.py:118 | A prefix is prepended as given. The levels below it do not depend on it, and a missing prefix gives a relative path. |
| Layout.YearLevelFromFragment | bdc_collectors/scihub/base.py:109 | When the sensing fragment does not start with `0`, the year level is its first four characters. |
| Layout.ExampleTileLevels | bdc_collectors/scihub/base.py:111 | Tile `22KGA` is stored under `22`, `K`, `GA`. |
| Folds.FirstWins | bdc_collectors/scihub/base.py:54-59 | With `setdefault`, a key ends up in the dictionary iff it was already there or is offered. Keys already present keep their value. Every other key gets the value of its first offer. |
| Folds.LastWins | bdc_collectors/scihub/base.py:64-66 | With assignment, a key ends up in the dictionary iff it was already there or is offered. An offered key gets the value of its last offer. A key that is not offered keeps its value. |
| Discovery.ProcessorNames | bdc_collectors/scihub/base.py:48 | The list of lower-cased processor names exists iff every processor has a name, in which case it lists them in order. Otherwise the error is a missing processor name. |
| Discovery.UsesSen2cor | bdc_collectors/scihub/base.py:45-50 | Checking the processors fails iff one has no name. The Sen2cor branch is taken iff every processor has a name and one of them lower-cases to `sen2cor`. |
| Discovery.BandToken | bdc_collectors/scihub/base.py:55 | `split('_')[-2]` exists iff the name has an underscore, and it contains no underscore. |
| Discovery.BandTokenOfJoin | bdc_collectors/scihub/base.py:55 | A name built from underscore-free tokens offers its next-to-last token. |
| Discovery.LastTokenOfJoin | bdc_collectors/scihub/base.py:65 | A stem built from underscore-free tokens yields its last token. |
| Discovery.SceneFileKey | bdc_collectors/scihub/base.py:72-75 | A stem `<scene id>_<band>` contains the identifier minus its last fragment, and its key is exactly `<band>`. |
| Discovery.FirstMatch | bdc_collectors/scihub/base.py:129-141 | The first match is a matching entry that no earlier entry matches. There is none iff no entry matches. |
| Discovery.Select | bdc_collectors/scihub/base.py:52 | The selected files are exactly the directory joined with each matching entry. |
| Discovery.Jp2MapError | bdc_collectors/scihub/base.py:52-55 | The jp2 scan fails iff some jp2 below `IMG_DATA` has no underscore in its name, where `split('_')[-2]` raises. |
| Discovery.Jp2MapBands | bdc_collectors/scihub/base.py:52-59 | The jp2 scan keeps a band iff some jp2 offers it and it is neither `AOT` nor `WVP`. Its value is a jp2 that offers the band and that no other jp2 offering the band precedes in path order. |
| Discovery.Sen2corBands | bdc_collectors/scihub/base.py:52-66 | In the Sen2cor branch a band is present iff a jp2 offers it (other than `AOT` and `WVP`) or a tif does. The last tif offering it wins, overwriting any jp2. A band no tif offers keeps its least jp2 in path order. |
| Discovery.DefaultBands | bdc_collectors/scihub/base.py:71-77 | In the default branch a band is present iff a top-level scene file offers it, and the last such file wins. |
| Discovery.GetFiles | bdc_collectors/scihub/base.py:35-50 | Without a directory, `get_files` fails with the error of `path` when that fails. Once a directory is known, an unnamed processor is an error. The branch taken and the full failure condition are in GetFilesBranch, and where each value comes from is in GetFilesProvenance. |
| Discovery.GetFilesBranch | bdc_collectors/scihub/base.py:35-79 | `get_files` runs the Sen2cor scan exactly when the processors name Sen2cor, and the default scan otherwise. It fails iff the directory cannot be resolved, a processor has no name, or the Sen2cor scan meets a jp2 without an underscore. |
| Discovery.GetFilesProvenance | bdc_collectors/scihub/base.py:35-79 | Every returned file is the directory joined with a listing entry. In the Sen2cor branch that entry is an image below `IMG_DATA`. In the default branch it is a top-level scene file offering that band. |
| Assets.FixedAssets | bdc_collectors/scihub/base.py:135-156 | Each of `sr_aerosol`, `TCI`, `AOT`, `WVP` and `MTD_TL` is present iff its pattern matches some entry, and its value is the first match. No other key is present. |
| Assets.AssetMap | bdc_collectors/scihub/base.py:129-161 | The fixed keys follow the same rule, and so does the stem of the first `MTD_MSIL*.xml`. No other key appears, and an empty listing gives an empty map. |
| Assets.MetadataKeyDistinct | bdc_collectors/scihub/base.py:158-159 | The metadata stem starts with `MTD_MSIL`, so it never clashes with a fixed key. |
| Assets.GetAssets | bdc_collectors/scihub/base.py:122-127 | `get_assets` fails iff no directory is given and the scene path fails. Otherwise its result is the asset map of the given directory, or of the scene directory without the month level. Every value is that directory joined with a listing entry. |
| Paths.Sort | bdc_collectors/scihub/base.py:52 | `sorted` gives the same paths, as a multiset, in ascending path order. |
| Paths.PathLeUnderPrefix | bdc_collectors/scihub/base.py:52 | Paths below a common directory compare as their relative parts do. |
| Paths.Stem | bdc_collectors/scihub/base.py:74 | The stem followed by the suffix is the name. |
| Paths.Suffix | bdc_collectors/scihub/base.py:74 | The suffix is empty, or it is a dot and dot-free text ending the name, shorter than the name. |

## Left out

- `download_stream` and `working_directory` in utils.py are network, file and process-state plumbing, and are not part of this model.
- The Flask `DATA_DIR` default for a missing prefix is not modelled. The prefix is an explicit optional parameter, and a missing one is an empty root.
- The `float` branch of `entry_version` is not modelled, because it depends on Python's float `repr`. A version is an integer or text.
- Versions.EntryVersion: `int()` is modelled on an optional sign followed by ASCII digits only. Surrounding whitespace, underscores between digits and non-ASCII digits, all of which Python accepts, are left out.
- Timestamps.Parse is stricter than `strptime`. It demands exactly eight digits, the separator (either case) and six digits. `strptime` also accepts shorter fields, a space-padded day (` 5`), and non-ASCII decimal digits wherever its patterns use `\d` (all of the year and some digit positions of the day, hour, minute and second). The day is checked only to be in 1-31, not against the length of its month, and leap years are not considered.
- Paths are lists of segments. pathlib's normalisation of separators and `.` segments, and absolute-segment resets, are left out. Empty segments are not excluded.
- Layout.ScenePath keeps an empty tile level. For a three-character tile `tile[3:]` is `''`, which pathlib drops. The model keeps `""` as a level, so such a path has one segment more than pathlib's.
- Glob traversal order is an input (the listing order), and files and directories are not told apart. Neither is true of every filesystem, but pathlib exposes both only through I/O. A file that `rglob('IMG_DATA/**/*.jp2')` could reach twice appears once.
- Asset values are kept as paths. The `str()` rendering of a path is not modelled.
- Text.Lower lower-cases ASCII letters only. For the one test it feeds, equality with `sen2cor`, this agrees with Python's Unicode `lower()`. The only non-ASCII characters whose lower case contains ASCII letters are U+212A (giving `k`) and U+0130 (giving two characters), and neither can make a name equal `sen2cor`.
- sentinel2.py's choice of parser per collection is the `Family` tag of a scene. Nothing about it needs proof.
- `BaseCollection`, `SceneParser` and the collection model are not part of this model. Only the collection fields read here are kept: name, version and the `processors` list. An absent metadata object, an absent key and an empty list all become an empty list.
- The text of exception messages is not modelled. Each error value records the offending input.
- The jp2 files are sorted as pathlib sorts paths: segment by segment, each segment in code-point order. A sort of the joined path strings would differ when one segment is a prefix of another. The code sorts `Path` objects, so the model follows the code.
- The jp2 band comes from the file's `name` (`jp2.name.split('_')[-2]`), as in the code. For a `.jp2` file this is the same token as a split of its stem.
