# snapscreen in Dafny

A model of the three scripts of snapscreen:
- `screenshot.py` runs RetroArch once per game and shader to capture screenshots.
- `crop.py` crops those screenshots with ImageMagick and puts the crops of each game into a collage.
- `batch.py` runs both scripts for a list of window resolutions.

Everything is modelled over strings and sequences. What the file system answers is an input to the model:
- whether a file exists;
- the entries of a directory;
- the contents of a configuration file.

Running an external program is recorded as its command line in a trace.

Modules, in dependency order:

- `Base`: `Option`, `Result`, and the errors the scripts raise.
- `Strings`: the string operations the scripts use:
  - ASCII digit runs;
  - `int()` and `str()`;
  - `str.replace`, `str.partition` and `str.split`.
- `Ordering`: Python's string order and sorting by it.
- `Paths`: the parts of `pathlib` the scripts use:
  - `suffix`, `stem`, `with_suffix` and `with_stem`;
  - joining a directory and a name;
  - the final component of a path;
  - `relative_to`.
- `ConfigComposer` (screenshot.py) covers two things:
  - the temporary RetroArch configuration: the forced line, the save-state line, the window lines, the override files and the base file, in that order;
  - the `--window` parser and the first-occurrence-wins reader that makes that order a precedence.
- `ScreenshotProfiles` (screenshot.py): loading and checking the game list.
- `CaptureCommands` (screenshot.py): the RetroArch command line and the screenshot path.
- `CaptureDriver` (screenshot.py): the capture loops of `main`, including the bounded retry loop and the screenshot counter.
- `CropProfiles` (crop.py): loading and checking the game list, with the size and position formats.
- `CropCommands` (crop.py): the geometry, the crop command, the collage commands and the collage labels.
- `CropFiles` (crop.py): `collect_crop_files`, the collage order of a game's crop files.
- `CropDriver` (crop.py): the crop and collage loops of `main` and their two counters.
- `BatchDriver` (batch.py): the per-resolution loop that assembles and runs the two command lines.

Every loop of the scripts is a method whose `ensures` ties its result to a specification function. The lemmas state the scripts' guarantees about those functions.

Where the scripts and their description disagree, the model follows the code. For example, the collage command is built and run for a game that has no crop files (crop.py:350-363). The one exception is the crop file name of crop.py:238-239: the code as written is modelled and its defect shown (see "## Findings"), and the crop loop uses the intended name.

## Model

| member | source | states |
|---|---|---|
| Strings.NatToStringDigits | screenshot.py:377-379 | `str()` of a non-negative integer is a non-empty run of digits that denotes it, with no leading zero |
| Strings.ParseInt | screenshot.py:296-297 | `int()` as `getint` applies it accepts exactly an optional sign followed by digits, and gives the value of the numeral, negative after a '-' |
| Strings.ParseIntOfIntToString | screenshot.py:377-379 | the frames and slot written with `str()` read back as the same integers |
| Strings.ReplaceFree | screenshot.py:409 | `replace` leaves no occurrence of the pattern when the replacement has none, and changes nothing when the text has none |
| Strings.ReplaceAppend | screenshot.py:409 | replacing in a concatenation replaces in each part |
| Strings.ReplaceRoundTrip | screenshot.py:409 | replacing a character by an absent one and back restores the text |
| Strings.Before | crop.py:292 | the head of `partition` is a prefix with no earlier occurrence of the pattern, and is either the whole text or followed by the pattern |
| Strings.Split | batch.py:94 | `split` gives at least one piece and no piece contains the separator |
| Strings.JoinSplit | batch.py:94 | joining the pieces of a split with the separator gives the text back, untrimmed |
| Strings.SplitJoin | batch.py:94 | splitting a join of separator-free pieces gives the pieces back |
| Ordering.LexLeTotal | crop.py:192 | any two names are comparable |
| Ordering.LexLeTransitive | crop.py:192 | the string order is transitive |
| Ordering.LexLeAntisymmetric | crop.py:192 | names that are each at most the other are equal |
| Ordering.InsertSorted | crop.py:192 | inserting into a sorted list keeps it sorted and adds exactly the one name |
| Ordering.SortNamesCorrect | crop.py:192 | sorting returns a sorted permutation of the names |
| Ordering.HeadIsLeast | crop.py:192 | the first name of a sorted list is at most every name in it |
| Ordering.SortedUnique | crop.py:192 | two sorted permutations of the same names are equal, so any correct sort gives the modelled result |
| Paths.RFind | crop.py:184 | a position of the text, or -1 |
| Paths.RFindIsLast | crop.py:184 | the position found holds the character, and the character does not occur after it; -1 only when it does not occur at all |
| Paths.StemSuffix | crop.py:184-186 | a name is its stem followed by its suffix |
| Paths.StemSuffixOf | crop.py:184-186 | a non-empty stem followed by a dot-led, dot-free extension has that stem and that suffix |
| Paths.SuffixShape | crop.py:184 | a suffix is empty or a dot followed by dot-free text |
| Paths.NameSplit | screenshot.py:409 | a path is its directory part followed by a final component free of '/' |
| Paths.NameOfJoin | crop.py:238 | the final component of `dir/name` is `name` |
| Paths.BaseNameIsName | crop.py:238 | the final component collected from the end equals the text after the last '/' |
| Paths.PathStemOfJoin | crop.py:186 | the stem of a listed file `dir/name` is the stem of `name` |
| Paths.PathStemShape | crop.py:238 | the stem of a path starts its final component and contains no '/' |
| Paths.PathWithSuffixOfJoin | screenshot.py:409 | `with_suffix` on `dir/name` keeps the directory and changes only the name |
| Paths.RelativeToMeaning | screenshot.py:408 | a path below the root gives the non-empty rest, which joined to the root gives the path back; any other path is a NotRelative error |
| ConfigComposer.KeyOfSetting | screenshot.py:220-227 | the reader sees the key of every `key = "value"` line the script writes |
| ConfigComposer.Lookup | screenshot.py:232-235 | the reader takes a line with the key if there is one, and reports none only when no line has it |
| ConfigComposer.LookupFirst | screenshot.py:232-235 | the reader takes the first line with the key |
| ConfigComposer.LookupAppend | screenshot.py:232-235 | lines read earlier shadow lines read later |
| ConfigComposer.LookupFlatten | screenshot.py:258-260 | over files read in turn, the reader takes the line of the first file that defines the key |
| ConfigComposer.Reversed | screenshot.py:330-331 | `reversed` keeps the length and mirrors the positions |
| ConfigComposer.LookupReversed | screenshot.py:330-331 | reading files in reverse order takes the line of the last file that defines the key |
| ConfigComposer.AppendConfigOrder | screenshot.py:329-333 | the override files are the command-line list reversed, or "append.cfg" alone when none is given |
| ConfigComposer.LastAppendConfigWins | screenshot.py:329-333 | of the command-line override files, the last one that sets a key decides it |
| ConfigComposer.OverrideExample | screenshot.py:329-331 | with override files o1 then o2 on the command line, o2 decides a key both set and o1 a key only it sets, over the base file |
| ConfigComposer.ContentsOf | screenshot.py:258-260 | the contents of the files named, one per path, in order |
| ConfigComposer.DigitRun | screenshot.py:213 | the maximal run of digits starting at a position |
| ConfigComposer.SizeGroups | screenshot.py:213-215 | the two groups of a match are maximal digit runs around '+' or 'x' |
| ConfigComposer.FirstSizeMatch | screenshot.py:213 | `re.search` finds the leftmost position where `(\d+)[+x](\d+)` matches, or none |
| ConfigComposer.WindowSizeMeaning | screenshot.py:203-218 | a preset's size, else the groups of the leftmost match, else an InvalidWindow error exactly when neither exists |
| ConfigComposer.WindowPresets | screenshot.py:204-211 | 720p, 1080p, 1440p, 2160p and 4k stand for 1280x720, 1920x1080, 2560x1440 and 3840x2160 |
| ConfigComposer.WindowPlusAndTimes | screenshot.py:213-215 | "1920", then '+' or 'x', then "1080" gives 1920 by 1080 |
| ConfigComposer.WindowUnanchored | screenshot.py:213-215 | the match may lie anywhere: "ab12x34z" gives 12 by 34 |
| ConfigComposer.WindowRefused | screenshot.py:216-218 | "1920-1080" is refused with an InvalidWindow error |
| ConfigComposer.WindowKeysDistinct | screenshot.py:220-227 | the eight window keys are distinct keys |
| ConfigComposer.WindowLines | screenshot.py:220-227 | eight lines, one setting per window key in order |
| ConfigComposer.WindowLinesSettings | screenshot.py:220-227 | the four switches are "false", and width and height are each set twice |
| ConfigComposer.WindowConfig | screenshot.py:198-229 | no lines without a non-empty value; the InvalidWindow error of the parser exactly when the value is refused; otherwise exactly the eight lines of its size |
| ConfigComposer.FirstMissing | screenshot.py:258-261 | the first file that does not exist, or -1 when all do |
| ConfigComposer.OpenOrder | screenshot.py:258-262 | the override files are opened before the base file |
| ConfigComposer.ComposeConfigLines | screenshot.py:248-262 | when everything exists: forced line, save-state line, window lines, override files, base file, in that order |
| ConfigComposer.ForcedLineWins | screenshot.py:177-182 | the composed configuration starts with the forced line, so RetroArch never writes its own configuration on exit |
| ConfigComposer.ComposedLookup | screenshot.py:241-262 | a key is read from the forced line, else the save-state line, else the window lines, else the first override that has it, else the base file |
| ConfigComposer.ReservedLookups | screenshot.py:177-195 | the forced line and the save-state line set no key but their own |
| ConfigComposer.WindowLineFound | screenshot.py:248-262 | a key the window lines set, other than the forced and save-state keys, is read from the window lines |
| ConfigComposer.WindowLinesWin | screenshot.py:256-262 | an accepted `--window` value sets the window keys whatever the files say |
| ConfigComposer.WriteLines | screenshot.py:252-257 | writing lines one by one appends them in order |
| ConfigComposer.WriteOverrides | screenshot.py:258-260 | the override files are written in order; the first missing one ends the writing with FileNotFound |
| ConfigComposer.FillTempconfigContent | screenshot.py:241-264 | the lines written are the composed configuration, or its error |
| ScreenshotProfiles.GetIntOr | screenshot.py:296-297 | `getint` gives the fallback for a missing option, the integer for a numeral, and an error otherwise |
| ScreenshotProfiles.CheckProfile | screenshot.py:293-317 | a section is accepted exactly when game and core are given, slot and frames are integers, both files exist, slot is in 1..9, frames in 0..999 and sep is one character; the profile then holds the section's or the default values; each error arises exactly when its check is the first to fail, in the order game, core, slot and frames parsing, game file, core file, slot, frames, sep |
| ScreenshotProfiles.FirstRejected | screenshot.py:293-311 | the first section that fails, all sections before it passing |
| ScreenshotProfiles.GamesFromGamelist | screenshot.py:285-319 | all sections checked in order; the first failure aborts the load with its error, otherwise every profile is valid |
| ScreenshotProfiles.GamelistAccepted | screenshot.py:292-319 | a game list whose every section passes the checks loads without error |
| ScreenshotProfiles.DefaultsApply | screenshot.py:296-298 | a section without slot, frames and sep takes the command-line values |
| ScreenshotProfiles.CheckOrderExample | screenshot.py:294-303 | the game option is checked before the slot, and the game file before the core file |
| CaptureCommands.GameCommandNumbers | screenshot.py:372-384 | seven words; frames and slot read back as the profile's integers; core then game last |
| CaptureCommands.ScreenshotPathMeaning | screenshot.py:404-417 | `outputdir/title/name` for a shader below the shader root, with the relative path made a .png and '/' replaced by sep; a NotRelative error naming both paths otherwise |
| CaptureCommands.CaptureCommandLayout | screenshot.py:442-447 | the capture command is 18 words in a fixed layout with core and game last |
| CaptureCommands.ScreenshotNameIsFlat | screenshot.py:409 | with a separator other than '/', the screenshot name is a single file name |
| CaptureCommands.ScreenshotNameRoundTrip | screenshot.py:409 | when the separator does not occur in it, the shader's relative path can be read back from the name |
| CaptureCommands.PathWithPngSuffix | screenshot.py:409 | `dir/stem.ext` becomes `dir/stem.png`: only the suffix of the final component changes |
| CaptureCommands.ScreenshotNameOf | screenshot.py:408-414 | `d1/.../dn/stem.ext` below the shader root becomes `d1 sep ... sep dn sep stem.png` |
| CaptureDriver.FirstAppearanceIsFirst | screenshot.py:452-460 | the attempt found is the first one after which the screenshot exists |
| CaptureDriver.Attempts | screenshot.py:452 | never more runs than `tries`, and none when `tries` is not positive |
| CaptureDriver.AttemptsMeaning | screenshot.py:452-460 | no runs when tries is not positive or the file exists already (not forced); otherwise runs until the screenshot appears, and exactly tries runs if it never does |
| CaptureDriver.RepeatAll | screenshot.py:452-456 | every run of the retry loop runs the same command |
| CaptureDriver.Capture | screenshot.py:452-460 | the retry loop runs the command as often as Attempts says, and counts a screenshot exactly when it appeared after the last run |
| CaptureDriver.JobRunMeaning | screenshot.py:439-460 | a shader outside the shader root gives its NotRelative error and runs nothing; otherwise the capture command with the screenshot path runs as often as the retry loop says, and one screenshot counts exactly when it appeared after the last run |
| CaptureDriver.JobRunBounds | screenshot.py:452-460 | one game and shader create at most one screenshot and run RetroArch at most tries times |
| CaptureDriver.CaptureShader | screenshot.py:439-460 | one shader: the command is assembled and the retry loop run, or the path error ends the game |
| CaptureDriver.TitleRunStops | screenshot.py:439-441 | after a shader outside the shader root, nothing more runs for that game |
| CaptureDriver.AllRunStops | screenshot.py:432-441 | after an error, no later game runs |
| CaptureDriver.CaptureTitle | screenshot.py:439-460 | the shader loop of one game gives the run of its specification |
| CaptureDriver.CaptureAll | screenshot.py:431-460 | the game loop gives the run of its specification |
| CaptureDriver.TitleRunBounds | screenshot.py:452-460 | each shader adds at most one screenshot and at most tries runs |
| CaptureDriver.AllRunBounds | screenshot.py:431-460 | at most one screenshot per game and shader, and at most tries runs each |
| CaptureDriver.ScreenshotMain | screenshot.py:421-466 | a rejected game list ends the script with the first failing section's error; otherwise a configuration error ends it before anything runs; otherwise the configuration written is the composed one and the capture run is that of the loaded profiles |
| CropProfiles.SizeBodyMeaning | crop.py:126 | an accepted size is exactly two positive numerals without leading zeros joined by 'x' |
| CropProfiles.PosBodyMeaning | crop.py:127 | an accepted position is exactly two numerals joined by '+' |
| CropProfiles.SizeFormatOfNumbers | crop.py:126 | sizes written from two positive integers are accepted |
| CropProfiles.PosFormatOfNumbers | crop.py:127 | positions written from two integers are accepted |
| CropProfiles.SizeRefusesLeadingZero | crop.py:126 | a width with a leading zero is refused |
| CropProfiles.FormatsAllowFinalNewline | crop.py:142-145 | `$` also accepts a value followed by one final newline |
| CropProfiles.CheckCropProfile | crop.py:129-151 | a section is accepted exactly when game and core are given, both files exist, sep is one character and size and position have their formats; the profile then holds the section's or the default values; FileNotFound names the first missing file, and the sep, size and pos errors arise exactly when that check is the first to fail |
| CropProfiles.FirstRejected | crop.py:129-145 | the first section that fails, all sections before it passing |
| CropProfiles.GamesFromGamelist | crop.py:118-153 | all sections checked in order; the first failure aborts the load with its error, otherwise every profile is valid |
| CropProfiles.GamelistAccepted | crop.py:129-153 | a game list whose every section passes the checks loads without error |
| CropCommands.GeometrySize | crop.py:221-228 | the size is the text before the first '+' of the geometry and the position the text after it |
| CropCommands.BeforeFirst | crop.py:292 | `partition` stops at the first occurrence of the pattern |
| CropCommands.CropOutfileIsPng | crop.py:238-239 | the intended crop file lies in the game's crop directory and is named `<stem>-crop<geometry>.png` |
| CropCommands.CropOutfileAgrees | crop.py:238-239 | the crop file as written and as intended agree when the screenshot's stem has no suffix |
| CropCommands.CropOutfileKeepsStemSuffix | crop.py:238-239 | as written, a stem `base.ext` gives a crop file ending in `.png.ext` |
| CropCommands.CropOutfileCounterexample | crop.py:238-239 | as written, `a.b.png` gives the crop file `a.b-crop<geometry>.png.b`, whose suffix is ".b" |
| CropCommands.CropCommand | crop.py:233-248 | no command exactly when not forced and the crop file exists, otherwise `convert <infile> -crop <geometry> <outfile>`; the intended crop file either way |
| CropCommands.CollageBaseCommand | crop.py:255-269 | no command exactly when not forced and the collage exists, otherwise the `montage` base with size and title |
| CropCommands.Group | crop.py:184-191 | group 0 for stems starting "nearest" (checked first), 1 for "bilinear", 2 otherwise |
| CropCommands.CollageLabel | crop.py:292-298 | labels of the first two groups stay as they are; other labels lose every separator |
| CropCommands.CollageLabelOfCrop | crop.py:292-298 | the label of a crop file is the screenshot's stem, with the separator shown as " / " outside the first two groups |
| CropFiles.CollectCropFiles | crop.py:177-194 | the listing loop gives the first group, then the second, then the rest sorted |
| CropFiles.GroupsPartition | crop.py:183-191 | the three groups hold exactly the kept files |
| CropFiles.CropFileOrderPermutation | crop.py:177-194 | the result is a permutation of the regular .png files of the listing |
| CropFiles.CollectedGroup | crop.py:183-191 | every path of a group names a kept entry of that group |
| CropFiles.PathGroupOf | crop.py:186-188 | the group of a collected path can be read from its own stem |
| CropFiles.GroupMember | crop.py:186-191 | every element of a rearrangement of a group belongs to that group |
| CropFiles.SortedRestMember | crop.py:192 | sorting the last group keeps every crop in it |
| CropFiles.CropFileOrderGroupAt | crop.py:183-194 | the group of the crop at a position is decided by the sizes of the first two groups |
| CropFiles.CropFileOrderGroups | crop.py:183-194 | along the result the group never goes back: nearest crops, then bilinear crops, then the rest |
| CropFiles.CropFileOrderRestSorted | crop.py:192-194 | only the rest is sorted; the first two groups keep listing order |
| CropFiles.SameDirectoryOrder | crop.py:192 | a common prefix does not change the order of two texts |
| CropFiles.JoinOrder | crop.py:192 | sorting the paths of one directory sorts them by name |
| CropDriver.CropScreenshots | crop.py:323-335 | the crop loop of one game gives the tally of its specification |
| CropDriver.CollageGameCommands | crop.py:351-354 | the label loop gives the label options of the crop files in order |
| CropDriver.CollageStep | crop.py:338-365 | the collage part of one game gives the collage step of its specification |
| CropDriver.CropTitle | crop.py:316-365 | one game gives the crop tally followed by the collage step |
| CropDriver.CropMain | crop.py:305-381 | all games in order, then the WebP conversion when asked for; at most one collage per game, and the counters never exceed the commands run |
| CropDriver.CropsRunCounts | crop.py:323-335 | at most one command per screenshot and at most one counted crop per command; no collage |
| CropDriver.CropIndicesMeaning | crop.py:328-329 | the screenshots cropped are, in screenshot order, exactly those that are forced or whose crop file did not exist before |
| CropDriver.CropsRunCommands | crop.py:323-333 | one command per cropped screenshot, in order: the i-th command crops the i-th cropped screenshot into its intended crop file with the game's geometry |
| CropDriver.CropsRunSkipsExisting | crop.py:328-331 | per screenshot: it gets its crop command exactly when forced or when its crop file did not exist before |
| CropDriver.CropsRunNeedsOutput | crop.py:330-335 | the crop counter is the number of screenshots that were cropped and whose crop file exists afterwards |
| CropDriver.CropsRunForced | crop.py:323-333 | forced, every screenshot is cropped once, in order |
| CropDriver.LabelCommandsLayout | crop.py:289-301 | one `-label <label> <crop file>` triple per crop, in collage order |
| CropDriver.CollageCommandLayout | crop.py:350-359 | montage base, then the label triples, then the collage path; it runs even without crop files |
| CropDriver.CollageSkipped | crop.py:338-348 | no collage command exactly when collages are off, or the collage exists and is not forced |
| CropDriver.TitleRunCollages | crop.py:363-365 | at most one collage per game, counted exactly when its command ran and the collage exists afterwards |
| CropDriver.TitleRunCounts | crop.py:333-365 | a game's counters never exceed the commands it ran |
| CropDriver.MainRunWebp | crop.py:367-374 | the WebP conversion is one `mogrify` command over the PNG files after every game, and changes neither counter |
| BatchDriver.JoinPathName | batch.py:96-97 | the directory of a plain resolution name is the root, '/', and the name, and ends in the name |
| BatchDriver.ConfigOptionsLayout | batch.py:101-103 | `--appendconfig <file>` for each override, in order |
| BatchDriver.BuildScreenshotCommand | batch.py:99-111 | the loop that appends the words gives the screenshot command of the specification |
| BatchDriver.BuildCropCommand | batch.py:113-122 | the appends give the crop command of the specification |
| BatchDriver.ScreenshotArgvLayout | batch.py:89-111 | script, overrides ("append.cfg" when none is given), window, game list, shader list and output directory; 9 + 2n words |
| BatchDriver.CropArgvLayout | batch.py:113-122 | script, `--webp` right after it exactly when asked for, then game list, input and output directories |
| BatchDriver.CropArgvWebp | batch.py:115-116 | `--webp` occurs in the crop command exactly when asked for, unless another argument reads "--webp" |
| BatchDriver.DirectoryLinkage | batch.py:96-122 | the crop script's input directory is the screenshot script's output directory; crops go to the crop directory of the resolution |
| BatchDriver.BatchRunLength | batch.py:124-128 | four steps per resolution |
| BatchDriver.BatchRunAt | batch.py:94-128 | the steps of the k-th resolution are the four steps made from it, at positions 4k to 4k+3 |
| BatchDriver.BatchRunOrder | batch.py:124-128 | resolutions in list order; for each, make the screenshot directory, run the screenshot script, make the crop directory, run the crop script |
| BatchDriver.BatchResolutions | batch.py:94 | one iteration per comma-separated piece of the option; the pieces joined with commas give the option back |
| BatchDriver.BatchMain | batch.py:83-130 | the loops give the steps of the specification, and the exit status is 0 |

## Left out

- Argument parsing (`parse_arguments` in all three scripts) and `path()`:
  - environment and home expansion and `resolve` are not modelled;
  - every path arrives as a resolved string.
- `pathlib`:
  - The path is a plain string.
  - Joining is `dir + "/" + name`, and `relative_to` is prefix stripping.
  - The suffix starts at the last '.' of the final component unless that dot is its first or last character.
  - Normalisation of repeated or trailing '/' and of "." components is not modelled.
- `BatchDriver.JoinPath`: a root of "/" alone would give "//piece" where pathlib gives "/piece"; the resolved working directory is taken to be below "/".
- File reading:
  - configparser's INI parsing, its DEFAULT section and its interpolation are not modelled;
  - a game list is a sequence of sections, each a map of raw option strings;
  - a configuration file is a sequence of lines, each ending in a newline;
  - the shader list is a sequence of resolved shader paths;
  - the existence check of shaders (screenshot.py:273-275) is not modelled.
- `Strings.ParseInt`: does not accept the surrounding whitespace and digit-group underscores that Python's `int()` accepts.
- Regular expressions: `\d` is ASCII digits only; Python's Unicode digits are not modelled.
- `create_tempconfig` and its cleanup at exit are operating-system resource handling.
- `subprocess.run` and `time.sleep`:
  - a run of an external program is recorded as its command line;
  - its exit status is ignored, as the scripts ignore it;
  - the delays are not modelled.
- File system queries (`exists`, `is_file`, `iterdir`, `glob`, `mkdir`) are inputs:
  - the existence of a file before and after a command;
  - the entries of the crop directory;
  - the screenshots of a game (`collect_screenshot_files`);
  - the PNG files for the WebP conversion (`collect_files`).
- `CaptureDriver.Attempts`: the existence test at the top of a later attempt is taken to give the same answer as the test after the attempt before it. The model has no gap between the two tests.
- `CropCommands.CropCommand`: the crop file is the intended `<stem>-crop<geometry>.png`, not the `with_stem` name crop.py:238-239 builds; the two agree whenever the screenshot's stem has no suffix of its own (`CropCommands.CropOutfileAgrees`). The defect is recorded under "## Findings".
- `CropDriver.CropsRunCommands`: states the commands with the intended crop file, for the reason given for `CropCommands.CropCommand`.
- `Paths.RelativeTo`: a path equal to the root gives "." in pathlib, and the ValueError then comes from `with_suffix` (screenshot.py:408-409); the model reports it as NotRelative. The script stops with a ValueError either way.
- `CropCommands.CollageLabel`: the separator is one character, as the profile check guarantees (crop.py:140-141).
- `Ordering.SortNames`: `list.sort` is modelled as an insertion sort. `Ordering.SortedUnique` shows that any sort giving a sorted permutation gives the same list.
- Path comparison: pathlib compares paths component by component. The crop files of one directory share every component but the last, so this order is the string order of their names (`CropFiles.JoinOrder`).
- Console output: every `print`, and the `--quiet` and `--verbose` options, including the path printed by `build_statesdirconfig`.
- The counters printed at the end of `main` are modelled as values and never printed.

## Findings

| source | as written | input that shows it | evidently intended | confidence | as-written member | corrected member |
|---|---|---|---|---|---|---|
| crop.py:238-239 | the crop file is `outgamedir/<stem>` renamed with `with_stem(<stem>-crop<geometry>.png)`, which keeps any suffix pathlib finds in the stem itself | a screenshot `a.b.png` (stem `a.b`) gives `a.b-crop<geometry>.png.b`, whose suffix is ".b"; `collect_crop_files` then leaves it out of the collage | `outgamedir/<stem>-crop<geometry>.png` for every stem | not executed | CropCommands.CropOutfileCounterexample | CropCommands.CropOutfileIsPng |
