# Wallpaper changer: candidate selection model

A Dafny model of the decision logic of a small Rust wallpaper changer. In each
cycle the program picks an image, either from local directories or from remote
URLs. It accepts the image only if it passes the orientation and resolution
tests, then hands it to the operating system's wallpaper facility.

The model has five modules:

- `Common` (common.dfy): `Option`, `Result` and Rust's `u32`.
- `Config` (config.dfy): the configuration structs of `src/config.rs`, written as datatypes. `f32` fields become `real`.
- `FileList` (file_list.dfy), for `src/file_list.rs`. It holds:
  - the blacklist predicate (`Allowed`) and the loop that decides it (`CheckBlackList`);
  - the two directory walks of `get_file_list`: a depth-3 folder collection, then an unbounded search of one root for `jpg`/`png` files;
  - the random pick of one image from the result.

  A walk is the sequence of `Entry(path, isDir, ext)` values it yields, in walk order. Random draws are index parameters.
- `Metadata` (metadata.dfy), for `src/metadata.rs`: the landscape test and the megapixel-range test on decoded pixel dimensions.
- `App` (main.dfy), for `src/main.rs`. It holds:
  - the argument loop and the default config path;
  - the startup check and the in-place clamping of the configuration;
  - the mode arbiter;
  - the `wallmode` and content-type mappings and the URL choice;
  - `setFromUrl` and `setFromFile` as functions from the answers of the outside world (`UrlEnv`, `FileEnv`) to a `Run`. A `Run` is the trace of outside calls plus how the routine exits (it returns `true`/`false`, or it panics on an `unwrap`);
  - one iteration of the endless loop (`Cycle`).

Several points of the code's behaviour are easy to misread. The model follows the code in each:

- `check_black_list` returns `true` when the name is allowed, not when it is blocked.
- A blacklist word is skipped when its UTF-8 byte length (`len()`) is at most 2. Its character count does not matter (`ByteLen`).
- The folder blacklist only filters which folders can be drawn as the search root. The second walk applies no blacklist, so a blacklisted sub-folder of the drawn root is still searched.
- The depth-3 walk yields the configured path itself first. So the "no folder collected" branch is taken only when that path is blacklisted or is not a directory (`RootAmongFolders`).
- A landscape coefficient of exactly 1.0 is kept: the accepted range is `[1.0, 3.0)`, closed below.
- No mode is disabled at startup because its directory or URL list is empty. `setFromFile` panics on an empty directory list, where drawing from the empty range fails. `setFromUrl` indexes the URL list only after creating the temporary directory, so when that creation fails it returns `false` even with an empty list.
- The mixed-mode draw is taken from `0..100`: `1..=50` picks the directory and `51..=99` picks a URL. The draw 0 invokes neither routine (`MixedModeOdds`).
- Only a routine whose wallpaper call succeeded sleeps. `setFromUrl` sleeps and can then still return `false` when closing the temporary directory fails. A cycle that stops before the wallpaper call, or in which that call fails, returns without waiting, so the loop starts the next cycle at once (`CycleWaits`). The same is true of the draw 0.
- Remote images are never passed through the acceptance tests.
- A status other than 200 is only logged; it never ends `setFromUrl` early (`StatusIgnored`).

## Model

| member | source | states |
|---|---|---|
| FileList.ByteLen | src/file_list.rs:102 | the byte length of a string is between its character count and four times it, and is 0 only for the empty string |
| FileList.Contains | src/file_list.rs:103 | `contains` holds iff the word is a prefix of some suffix of the name, i.e. occurs at some index |
| FileList.CheckBlackList | src/file_list.rs:100-113 | the loop with early return yields exactly `Allowed`: true iff no blacklist word longer than 2 bytes occurs in the name |
| FileList.AllowedMeansNoOccurrence | src/file_list.rs:100-113 | a name is refused iff some checked word of the list occurs in it at some index (both directions) |
| FileList.ShortWordIgnored | src/file_list.rs:102-109 | inserting a word of at most 2 bytes anywhere in the blacklist never changes the verdict, whatever the name |
| FileList.OnlyShortWordsAllowAll | src/file_list.rs:101-112 | an empty blacklist, or one of short words only, allows every name |
| FileList.ThreeCharactersChecked | src/file_list.rs:102-105 | a listed word of three or more characters that occurs in the name always refuses it |
| FileList.AllowedOrderIndependent | src/file_list.rs:101-112 | two blacklists with the same words give the same verdict, whatever the order or repetition |
| FileList.Folders | src/file_list.rs:36-45 | the collected folders are exactly the paths of the walk's directories, minus (when the folder blacklist is on) those the blacklist refuses; none of them is refused when it is on; never more than the walk's entries |
| FileList.FoldersConcat | src/file_list.rs:36-45 | folder collection distributes over concatenation of the walk, so folders keep walk order |
| FileList.FoldersIgnoreDisabledBlacklist | src/file_list.rs:38-43 | with the folder blacklist disabled the blacklist's contents have no influence: every directory is kept |
| FileList.RootAmongFolders | src/file_list.rs:36-45 | when the walk starts with the configured directory and it is not blacklisted, it is itself a collected folder |
| FileList.ImageFiles | src/file_list.rs:49-55 | the searcher keeps exactly the paths of non-directory entries whose extension is exactly `jpg` or `png` |
| FileList.SearchResult | src/file_list.rs:57-61 | the search fails with "File list is empty" iff the walk has no image file; on success the list is the image files and is non-empty |
| FileList.Searcher | src/file_list.rs:47-62 | the closure's loop returns exactly `SearchResult` of the walk it is given |
| FileList.SearchRoot | src/file_list.rs:64-78 | the search root is the configured path when no folder was collected, otherwise one of the collected folders |
| FileList.GetFileList | src/file_list.rs:31-85 | the result is the search of the unbounded walk of the chosen root; a success is never empty; a failure carries "File list is empty" |
| FileList.FileListIsTheImages | src/file_list.rs:47-84 | every path of a successful result names an image file of the searched walk, and each such file is in the result |
| FileList.RandImage | src/file_list.rs:88-98 | empty list gives the empty path, a one-element list its element, a longer list an element of the list at an in-bounds index |
| Metadata.Landscape | src/metadata.rs:16-26 | `!(height*coef > width)` holds iff `width >= height*coef` |
| Metadata.LandscapeNotTaller | src/metadata.rs:19 | for `coef >= 1` a landscape image is at least as wide as high |
| Metadata.SquareLandscape | src/metadata.rs:19 | a non-empty square image is landscape iff `coef <= 1` |
| Metadata.QualControl | src/metadata.rs:29-49 | accepted iff the megapixel count lies strictly between the smaller and the larger bound |
| Metadata.QualControlSymmetric | src/metadata.rs:30-37 | swapping the two bounds never changes the verdict |
| Metadata.QualControlBoundsExcluded | src/metadata.rs:42 | a pixel count exactly equal to either bound times 10^6 is rejected |
| Metadata.QualControlEmptyRange | src/metadata.rs:42 | equal bounds reject every image |
| Metadata.QualControlMonotone | src/metadata.rs:42 | widening the bounds never rejects an image that was accepted |
| Metadata.QualityScenario | src/metadata.rs:29-49 | with bounds 1 and 20 MP a 1920x1080 image passes, in either bound order, and a 100x100 image fails |
| App.ParseArgs | src/main.rs:13-35 | the argument loop yields exactly `ArgsOutcome`: help if `--help` occurs, an out-of-bounds panic for a trailing flag, else the value after the last flag or `./config.yaml` |
| App.NoFlagMeansDefault | src/main.rs:28-35 | with no `-c`/`--config` flag the config path is `./config.yaml` |
| App.LastFlagWins | src/main.rs:28-30 | the value kept is the argument right after the last flag that has a successor |
| App.LastFlagIsConfigPath | src/main.rs:14-35 | with no help flag and a non-empty value after the last flag, that value is the config path |
| App.TrailingFlagPanics | src/main.rs:28-29 | a flag in last position indexes past the end of the arguments |
| App.NormalisedCoef | src/main.rs:50-58 | the working landscape coefficient always lies in `[1.0, 3.0)` |
| App.NormalisedCoefCases | src/main.rs:50-58 | in-range coefficients are unchanged; out-of-range ones become exactly 1.2 |
| App.NormalisedInterval | src/main.rs:60-64 | the working interval is at least 10; values already at least 10 are unchanged, lower ones become 10 |
| App.Normalised | src/main.rs:50-64 | the corrected configuration has the coefficient in range and the interval at least 10; every other field is unchanged |
| App.NormalisedIdempotent | src/main.rs:50-64 | normalising twice is the same as normalising once |
| App.Startup | src/main.rs:44-64 | the process stops iff both modes are disabled; otherwise the in-place corrections produce exactly `Normalised` of the loaded configuration |
| App.Arbitrate | src/main.rs:68-83 | URL-only always takes the URL routine, directory-only the file routine; in mixed mode draws 1..50 pick file, 51..99 pick URL, 0 picks neither |
| App.MixedModeOdds | src/main.rs:74-82 | in mixed mode exactly 50 of the 100 draws pick the directory, 49 pick a URL, and only the draw 0 picks nothing |
| App.NeitherOnlyOnZeroDraw | src/main.rs:45-83 | once startup lets the loop run, no routine is invoked only in mixed mode on the draw 0 |
| App.WallMode | src/main.rs:161-171 | each of the six mode names maps to the mode of that name; any other string maps to Center (the copy at src/main.rs:220-230 is the same function) |
| App.WallModeRoundTrip | src/main.rs:220-230 | every mode is reached from its own name |
| App.ChooseUrl | src/main.rs:101-108 | the URL used is one of the configured URLs, and the only one when there is just one |
| App.ImageExtension | src/main.rs:128-134 | `image/png` gives `.png`, `image/jpeg` gives `.jpg`, and every other content type gives nothing |
| App.SetFromUrl | src/main.rs:88-185 | a temporary-directory failure returns false with no outside call and no use of the URL list; otherwise the calls made are a prefix, in order, of fetching the chosen URL, creating "img" plus the content type's extension, setting that file as wallpaper, setting the configured mode and sleeping; file creation is attempted iff the temp dir exists and the response declares an image type; the wallpaper is set only after creation and copy succeed; the mode is set iff it sleeps; it sleeps iff setting succeeded; true iff it slept and the temp dir closed; the panics on missing header or failed create |
| App.NonImageRejected | src/main.rs:124-134 | a non-image content type returns false before any file is created |
| App.StatusIgnored | src/main.rs:111-122 | the HTTP status code has no influence on the routine's behaviour |
| App.SetFromFile | src/main.rs:188-239 | the calls made are a prefix, in order, of scanning the drawn directory, setting the chosen image, setting the configured mode and sleeping; the mode is set iff it sleeps; the wallpaper is set iff the image decodes and passes every enabled test (landscape unless portraits allowed, quality when enabled); true and a sleep iff that and setting succeed |
| App.PortraitIgnoresCoef | src/main.rs:199-203 | with portraits allowed the landscape coefficient never affects the outcome |
| App.NoQualityControlIgnoresBounds | src/main.rs:204-208 | with quality control off the megapixel bounds never affect the outcome |
| App.Cycle | src/main.rs:67-84 | a loop iteration invokes no routine iff the arbiter chooses neither; a URL choice runs exactly `SetFromUrl` and a directory choice exactly `SetFromFile` |
| App.CycleWaits | src/main.rs:67-84 | after startup, a cycle that returns true has slept at least 10 seconds, and a cycle that sleeps has made a successful wallpaper call |

## Left out

- Directory traversal: the real `WalkDir` walk, symbolic links, the depth limit itself and `is_dir` probes are left out. They become the entry sequences `tree` and `walk(root)`. The panics of `entry.unwrap()` on walk errors and of `to_str().unwrap()` on non-UTF-8 paths are left out too.
- FileList.Searcher: the panic of `extension().unwrap()` on a file without an extension is a precondition (`ExtensionsPresent`), and so it is for FileList.GetFileList.
- Image decoding (`read_metadata`) is done by an external crate. `Image` carries the decoded dimensions, and `FileEnv.dims` is `None` when decoding fails.
- Metadata.Landscape: the `f32` casts and products are exact reals here, so rounding of dimensions or products above 2^24 is ignored.
- Metadata.QualControl: the same `f32` rounding of products above 2^24 is ignored. An `f32` NaN bound fails both comparisons, so the code rejects every image. Reals have no NaN, so the model does not capture this.
- App.NormalisedCoef: an `f32` NaN coefficient fails both comparisons and is kept as it is. Reals have no NaN.
- HTTP is ignored. So are the `tls` flag (the source never uses it), the temporary directory's location and lifetime, and the copied bytes. Only the outcomes these calls report enter, through `UrlEnv`. The temporary file is named by its relative name `img.png`/`img.jpg`.
- The wallpaper library's `set_from_path` and `set_mode` are external calls. They appear as `SetWallpaper` and `SetMode` effects. The result of `set_mode` is ignored by the source and by the model.
- Randomness: all five `thread_rng` draws are parameters with in-bounds preconditions. They are the folder draw of `get_file_list` (`pick` of `GetFileList`/`SearchRoot`), the draw of `get_rand_image` (`pick` of `RandImage`), the mode draw of `main` (`chance` of `Arbitrate`/`Cycle`), the URL draw of `setFromUrl` (`UrlEnv.pick`) and the directory draw of `setFromFile` (`FileEnv.dirPick`).
- The endless loop and `thread::sleep`: one iteration is modelled (`Cycle`), and a sleep is a `Sleep` effect.
- Logging, `println!`, the help text and the OS-dependent exit codes are left out. `--help` is the outcome `ShowHelp`, and the exit with status 1 is `Startup` returning `None`.
- Configuration loading (`File::open`, `serde_yaml`, and their `expect` panics) is left out. `Startup` takes the loaded `Config`.
- In `setFromFile`, the calls to `get_file_list`, `get_rand_image` and `read_metadata` do not match those functions' signatures. `SetFromFile` therefore takes the chosen image path and its dimensions as inputs, and the `FileList` functions are modelled as written.
- App.SetFromFile and App.SetFromUrl: an empty directory list (an empty draw range) or an empty URL list (indexing) panics. Non-emptiness is a precondition: `FileReady` always, `UrlReady` only once the temporary directory exists, because `setFromUrl` returns `false` before indexing when that creation fails.
- `enableFileBlacklist` and `blacklist_files` are never consulted by the source, so there is nothing to model.
- `str::contains` compares bytes; the model compares characters. For valid UTF-8 the two agree.
