/**
 * The effective RetroArch configuration the capture script writes before any
 * capture: a forced line, the save-state directory line, the window lines,
 * every override file and then the base file. RetroArch keeps the first line
 * it reads for a key, so this order is the precedence order; `Lookup` models
 * that reader.
 */
module ConfigComposer {
  import opened Base
  import opened Strings

  /** A RetroArch configuration line `key = "value"`. */
  function Setting(key: string, value: string): string {
    key + " = \"" + value + "\""
  }

  /** A configuration key: non-empty, without blanks or '='. */
  predicate IsKey(k: string) {
    |k| > 0 && ' ' !in k && '=' !in k
  }

  /** The key a RetroArch reader sees on a line: the text before the first blank or '='. */
  function KeyOf(line: string): (k: string)
    decreases |line|
  {
    if |line| == 0 || line[0] == ' ' || line[0] == '=' then [] else [line[0]] + KeyOf(line[1..])
  }

  lemma {:induction false} KeyOfSetting(k: string, v: string)
    requires IsKey(k)
    ensures KeyOf(Setting(k, v)) == k
  {
    KeyOfPrefix(k, " = \"" + v + "\"");
    assert Setting(k, v) == k + (" = \"" + v + "\"");
  }

  lemma {:induction false} KeyOfPrefix(k: string, rest: string)
    requires ' ' !in k && '=' !in k
    requires |rest| > 0 && rest[0] == ' '
    ensures KeyOf(k + rest) == k
    decreases |k|
  {
    if |k| > 0 {
      assert (k + rest)[1..] == k[1..] + rest;
      KeyOfPrefix(k[1..], rest);
      assert k == [k[0]] + k[1..];
    } else {
      assert k + rest == rest;
    }
  }

  /** The line a first-occurrence-wins reader takes for `key`, if any. */
  function Lookup(lines: seq<string>, key: string): (r: Option<string>)
    ensures r.Some? ==> r.value in lines && KeyOf(r.value) == key
    ensures r.None? ==> forall i :: 0 <= i < |lines| ==> KeyOf(lines[i]) != key
    decreases |lines|
  {
    if |lines| == 0 then None
    else if KeyOf(lines[0]) == key then Some(lines[0])
    else Lookup(lines[1..], key)
  }

  /** The first of two lookups that finds a line. */
  function Either(a: Option<string>, b: Option<string>): Option<string> {
    if a.Some? then a else b
  }

  /** Lines read earlier shadow lines read later. */
  lemma {:induction false} LookupAppend(a: seq<string>, b: seq<string>, key: string)
    ensures Lookup(a + b, key) == Either(Lookup(a, key), Lookup(b, key))
    decreases |a|
  {
    if |a| == 0 {
      assert a + b == b;
    } else {
      assert (a + b)[1..] == a[1..] + b;
      LookupAppend(a[1..], b, key);
    }
  }

  /** The lines of several files read one after the other. */
  function Flatten(files: seq<seq<string>>): seq<string>
    decreases |files|
  {
    if |files| == 0 then [] else files[0] + Flatten(files[1..])
  }

  lemma {:induction false} FlattenAppend(a: seq<seq<string>>, b: seq<seq<string>>)
    ensures Flatten(a + b) == Flatten(a) + Flatten(b)
    decreases |a|
  {
    if |a| == 0 {
      assert a + b == b;
    } else {
      assert (a + b)[1..] == a[1..] + b;
      FlattenAppend(a[1..], b);
    }
  }

  /** The line of the first file (in reading order) that defines `key`. */
  function FirstDefining(files: seq<seq<string>>, key: string): Option<string>
    decreases |files|
  {
    if |files| == 0 then None else Either(Lookup(files[0], key), FirstDefining(files[1..], key))
  }

  /** The line of the last file (in the given order) that defines `key`. */
  function LastDefining(files: seq<seq<string>>, key: string): Option<string>
    decreases |files|
  {
    if |files| == 0 then None
    else Either(Lookup(files[|files| - 1], key), LastDefining(files[..|files| - 1], key))
  }

  lemma {:induction false} LookupFlatten(files: seq<seq<string>>, key: string)
    ensures Lookup(Flatten(files), key) == FirstDefining(files, key)
    decreases |files|
  {
    if |files| > 0 {
      LookupAppend(files[0], Flatten(files[1..]), key);
      LookupFlatten(files[1..], key);
    }
  }

  /** The list in reverse order. */
  function Reversed<T>(s: seq<T>): (r: seq<T>)
    ensures |r| == |s|
    ensures forall i :: 0 <= i < |s| ==> r[i] == s[|s| - 1 - i]
    decreases |s|
  {
    if |s| == 0 then [] else [s[|s| - 1]] + Reversed(s[..|s| - 1])
  }

  /** Reading files in reverse order finds the line of the last file that defines the key. */
  lemma {:induction false} LookupReversed(files: seq<seq<string>>, key: string)
    ensures Lookup(Flatten(Reversed(files)), key) == LastDefining(files, key)
    decreases |files|
  {
    if |files| > 0 {
      var n := |files|;
      assert Reversed(files)[1..] == Reversed(files[..n - 1]);
      LookupAppend(files[n - 1], Flatten(Reversed(files[..n - 1])), key);
      LookupReversed(files[..n - 1], key);
    }
  }

  /**
   * The override files in the order they are composed: the command-line list
   * reversed, so that a later --appendconfig is read first, or the single
   * default "append.cfg" when none is given.
   */
  function AppendConfigOrder(cli: seq<string>): (r: seq<string>)
    ensures cli == [] ==> r == ["append.cfg"]
    ensures cli != [] ==> |r| == |cli| && forall i :: 0 <= i < |r| ==> r[i] == cli[|cli| - 1 - i]
  {
    if cli == [] then ["append.cfg"] else Reversed(cli)
  }

  /** Every path names an existing file. */
  predicate AllPresent(paths: seq<string>, files: map<string, seq<string>>) {
    forall i :: 0 <= i < |paths| ==> paths[i] in files
  }

  /** The contents of the files at `paths`, in order. */
  function ContentsOf(paths: seq<string>, files: map<string, seq<string>>): (r: seq<seq<string>>)
    requires AllPresent(paths, files)
    ensures |r| == |paths|
    ensures forall i :: 0 <= i < |paths| ==> r[i] == files[paths[i]]
  {
    seq(|paths|, i requires 0 <= i < |paths| => files[paths[i]])
  }

  /** Reading one more file appends its lines. */
  lemma ContentsSnoc(paths: seq<string>, files: map<string, seq<string>>, i: nat)
    requires i < |paths| && AllPresent(paths[..i + 1], files)
    ensures AllPresent(paths[..i], files)
    ensures Flatten(ContentsOf(paths[..i + 1], files)) == Flatten(ContentsOf(paths[..i], files)) + files[paths[i]]
  {
    assert paths[..i + 1][..i] == paths[..i];
    assert ContentsOf(paths[..i + 1], files) == ContentsOf(paths[..i], files) + [files[paths[i]]];
    FlattenAppend(ContentsOf(paths[..i], files), [files[paths[i]]]);
    assert Flatten([files[paths[i]]]) == files[paths[i]];
  }

  /**
   * With the command-line override files composed in AppendConfigOrder, a
   * setting is taken from the last file on the command line that has it.
   */
  lemma LastAppendConfigWins(cli: seq<string>, files: map<string, seq<string>>, key: string)
    requires cli != []
    requires forall i :: 0 <= i < |cli| ==> cli[i] in files
    ensures Lookup(Flatten(ContentsOf(AppendConfigOrder(cli), files)), key)
         == LastDefining(ContentsOf(cli, files), key)
  {
    assert ContentsOf(AppendConfigOrder(cli), files) == Reversed(ContentsOf(cli, files));
    LookupReversed(ContentsOf(cli, files), key);
  }

  /** The forced lines: never write RetroArch's own configuration on exit. */
  function ForceConfig(): seq<string> {
    [Setting("config_save_on_exit", "false")]
  }

  /** The save-state directory line, present only when that directory exists. */
  function StatesDirConfig(statesdir: string, present: bool): seq<string> {
    if present then [Setting("savestate_directory", statesdir)] else []
  }

  /** The length of the run of ASCII digits in s that starts at i. */
  function DigitRun(s: string, i: nat): (n: nat)
    requires i <= |s|
    ensures i + n <= |s|
    ensures forall k :: i <= k < i + n ==> IsDigit(s[k])
    ensures i + n == |s| || !IsDigit(s[i + n])
    decreases |s| - i
  {
    if i < |s| && IsDigit(s[i]) then 1 + DigitRun(s, i + 1) else 0
  }

  /** The pattern `(\d+)[+x](\d+)` matches s at position p. */
  predicate SizeMatchAt(s: string, p: nat) {
    p <= |s| &&
    var w := DigitRun(s, p);
    w > 0 && p + w < |s| && (s[p + w] == '+' || s[p + w] == 'x') && DigitRun(s, p + w + 1) > 0
  }

  /**
   * The two groups of the match at p: each a maximal run of digits, the
   * first followed by '+' or 'x' and then the second.
   */
  function SizeGroups(s: string, p: nat): (g: (string, string))
    requires SizeMatchAt(s, p)
    ensures IsDigits(g.0) && IsDigits(g.1)
    ensures OccursAt(s, g.0, p)
    ensures s[p + |g.0|] == '+' || s[p + |g.0|] == 'x'
    ensures OccursAt(s, g.1, p + |g.0| + 1)
    ensures p + |g.0| + 1 + |g.1| == |s| || !IsDigit(s[p + |g.0| + 1 + |g.1|])
  {
    var w := DigitRun(s, p);
    var h := DigitRun(s, p + w + 1);
    (s[p..p + w], s[p + w + 1..p + w + 1 + h])
  }

  /** The leftmost position at or after `from` where the pattern matches, or -1: re.search. */
  function FirstSizeMatch(s: string, from: nat): (p: int)
    requires from <= |s|
    ensures p == -1 || (from <= p < |s| && SizeMatchAt(s, p))
    ensures forall q :: from <= q < |s| && (p == -1 || q < p) ==> !SizeMatchAt(s, q)
    decreases |s| - from
  {
    if from == |s| then -1
    else if SizeMatchAt(s, from) then from
    else FirstSizeMatch(s, from + 1)
  }

  /** The named window presets. */
  function Preset(spec: string): Option<(string, string)> {
    if spec == "720p" then Some(("1280", "720"))
    else if spec == "1080p" then Some(("1920", "1080"))
    else if spec == "1440p" then Some(("2560", "1440"))
    else if spec == "2160p" || spec == "4k" then Some(("3840", "2160"))
    else None
  }

  /**
   * Width and height for a --window value: a preset, else the groups of the
   * leftmost `(\d+)[+x](\d+)` match, else a ValueError.
   */
  function WindowSize(spec: string): Result<(string, string), Error> {
    if Preset(spec).Some? then Success(Preset(spec).value)
    else
      var p := FirstSizeMatch(spec, 0);
      if p == -1 then Failure(InvalidWindow(spec)) else Success(SizeGroups(spec, p))
  }

  /**
   * A --window value is refused exactly when it is no preset and the pattern
   * matches nowhere; an accepted one gives two digit strings, those of the
   * leftmost match when it is no preset.
   */
  lemma WindowSizeMeaning(spec: string)
    ensures var r := WindowSize(spec);
      (r.Failure? <==> Preset(spec).None? && forall q :: 0 <= q < |spec| ==> !SizeMatchAt(spec, q))
      && (r.Failure? ==> r.error == InvalidWindow(spec))
      && (r.Success? ==> IsDigits(r.value.0) && IsDigits(r.value.1))
      && (r.Success? && Preset(spec).None? ==>
            exists p :: 0 <= p < |spec| && SizeMatchAt(spec, p) && r.value == SizeGroups(spec, p)
              && forall q :: 0 <= q < p ==> !SizeMatchAt(spec, q))
  {
    if Preset(spec).None? {
      var p := FirstSizeMatch(spec, 0);
      if p != -1 {
        assert forall q :: 0 <= q < p ==> !SizeMatchAt(spec, q);
      }
    }
  }

  /** The keys of the window lines, in the order they are written. */
  function WindowKeys(): seq<string> {
    [ "video_fullscreen", "video_windowed_fullscreen", "video_window_show_decorations",
      "video_window_custom_size_enable", "video_window_auto_width_max", "video_window_auto_height_max",
      "video_windowed_position_width", "video_windowed_position_height" ]
  }

  lemma WindowKeysDistinct()
    ensures forall i, j :: 0 <= i < j < 8 ==> WindowKeys()[i] != WindowKeys()[j]
    ensures forall i :: 0 <= i < 8 ==> IsKey(WindowKeys()[i])
  {
    var k := WindowKeys();
    assert |k[0]| == 16 && |k[1]| == 25 && |k[2]| == 29 && |k[3]| == 31;
    assert |k[4]| == 27 && |k[5]| == 28 && |k[6]| == 29 && |k[7]| == 30;
    assert k[2][13] != k[6][13];
    forall i | 0 <= i < 8 ensures IsKey(k[i]) {
      WindowKeyIsKey(i);
    }
  }

  lemma WindowKeyIsKey(i: nat)
    requires i < 8
    ensures IsKey(WindowKeys()[i])
  {
  }

  /** The values of the window lines: windowed, undecorated, fixed size width x height. */
  function WindowValues(width: string, height: string): seq<string> {
    ["false", "false", "false", "false", width, height, width, height]
  }

  /** The window lines, one setting per window key. */
  function WindowLines(width: string, height: string): (lines: seq<string>)
    ensures |lines| == 8
    ensures forall i :: 0 <= i < 8 ==> lines[i] == Setting(WindowKeys()[i], WindowValues(width, height)[i])
  {
    var k := WindowKeys();
    var v := WindowValues(width, height);
    [ Setting(k[0], v[0]), Setting(k[1], v[1]), Setting(k[2], v[2]), Setting(k[3], v[3]),
      Setting(k[4], v[4]), Setting(k[5], v[5]), Setting(k[6], v[6]), Setting(k[7], v[7]) ]
  }

  /** build_windowconfig: no lines without a (non-empty) --window value. */
  function WindowConfig(window: Option<string>): (r: Result<seq<string>, Error>)
    ensures window.None? || window.value == [] ==> r == Success([])
    ensures r.Failure? <==> window.Some? && window.value != [] && WindowSize(window.value).Failure?
    ensures r.Failure? ==> r.error == WindowSize(window.value).error
    ensures window.Some? && window.value != [] && WindowSize(window.value).Success? ==>
      r == Success(WindowLines(WindowSize(window.value).value.0, WindowSize(window.value).value.1))
  {
    if window.None? || window.value == [] then Success([])
    else
      match WindowSize(window.value)
      case Failure(e) => Failure(e)
      case Success(size) => Success(WindowLines(size.0, size.1))
  }

  /** The named presets and the sizes they stand for. */
  lemma WindowPresets()
    ensures WindowSize("720p") == Success(("1280", "720"))
    ensures WindowSize("1080p") == Success(("1920", "1080"))
    ensures WindowSize("1440p") == Success(("2560", "1440"))
    ensures WindowSize("2160p") == Success(("3840", "2160"))
    ensures WindowSize("4k") == Success(("3840", "2160"))
  {
  }

  /** The documented form `width+height`, and an `x` between the numbers, give the same size. */
  lemma WindowPlusAndTimes(sep: char)
    requires sep == '+' || sep == 'x'
    ensures WindowSize("1920" + [sep] + "1080") == Success(("1920", "1080"))
  {
    var s := "1920" + [sep] + "1080";
    assert DigitRun(s, 9) == 0;
    assert DigitRun(s, 8) == 1;
    assert DigitRun(s, 7) == 2;
    assert DigitRun(s, 6) == 3;
    assert DigitRun(s, 5) == 4;
    assert DigitRun(s, 4) == 0;
    assert DigitRun(s, 3) == 1;
    assert DigitRun(s, 2) == 2;
    assert DigitRun(s, 1) == 3;
    assert DigitRun(s, 0) == 4;
    assert s[0..4] == "1920" && s[5..9] == "1080";
  }

  /** The search is not anchored: the first match anywhere in the value is taken. */
  lemma WindowUnanchored()
    ensures WindowSize("ab12x34z") == Success(("12", "34"))
  {
    var s := "ab12x34z";
    assert DigitRun(s, 7) == 0;
    assert DigitRun(s, 6) == 1;
    assert DigitRun(s, 5) == 2;
    assert DigitRun(s, 4) == 0;
    assert DigitRun(s, 3) == 1;
    assert DigitRun(s, 2) == 2;
    assert DigitRun(s, 1) == 0;
    assert DigitRun(s, 0) == 0;
    assert FirstSizeMatch(s, 2) == 2;
    assert FirstSizeMatch(s, 0) == 2;
    assert s[2..4] == "12" && s[5..7] == "34";
  }

  /** A value with no preset and no digits-separator-digits run is refused. */
  lemma WindowRefused()
    ensures WindowConfig(Some("1920-1080")) == Failure(InvalidWindow("1920-1080"))
  {
    var s := "1920-1080";
    forall q | 0 <= q < |s| ensures !SizeMatchAt(s, q) {
      var w := DigitRun(s, q);
      if w > 0 && q + w < |s| {
        assert !IsDigit(s[q + w]);
        assert q + w == 4;
      }
    }
  }

  /** The line a first-occurrence-wins reader takes is the first one with the key. */
  lemma {:induction false} LookupFirst(lines: seq<string>, key: string, i: nat)
    requires i < |lines| && KeyOf(lines[i]) == key
    requires forall j :: 0 <= j < i ==> KeyOf(lines[j]) != key
    ensures Lookup(lines, key) == Some(lines[i])
    decreases i
  {
    if i > 0 {
      LookupFirst(lines[1..], key, i - 1);
    }
  }

  /**
   * The window lines: eight lines, one per window key, the four switches
   * "false" and the width and height each set in two places.
   */
  lemma WindowLinesSettings(width: string, height: string)
    ensures |WindowLines(width, height)| == 8
    ensures forall i :: 0 <= i < 8 ==>
      Lookup(WindowLines(width, height), WindowKeys()[i]) == Some(Setting(WindowKeys()[i], WindowValues(width, height)[i]))
    ensures WindowValues(width, height) == ["false", "false", "false", "false", width, height, width, height]
  {
    var lines := WindowLines(width, height);
    var keys := WindowKeys();
    var values := WindowValues(width, height);
    WindowKeysDistinct();
    forall i | 0 <= i < 8 ensures KeyOf(lines[i]) == keys[i] {
      KeyOfSetting(keys[i], values[i]);
    }
    forall i | 0 <= i < 8 ensures Lookup(lines, keys[i]) == Some(lines[i]) {
      LookupFirst(lines, keys[i], i);
    }
  }

  /** The position of the first path that `files` lacks, or -1. */
  function FirstMissing(paths: seq<string>, files: map<string, seq<string>>): (i: int)
    ensures -1 <= i < |paths|
    ensures i >= 0 ==> paths[i] !in files
    ensures forall k :: 0 <= k < |paths| && (i == -1 || k < i) ==> paths[k] in files
    decreases |paths|
  {
    if |paths| == 0 then -1
    else if paths[0] !in files then 0
    else
      var j := FirstMissing(paths[1..], files);
      if j == -1 then -1 else j + 1
  }

  /** The files of `appendfiles` and then `basefile`, the order in which they are opened. */
  lemma OpenOrder(appendfiles: seq<string>, basefile: string, files: map<string, seq<string>>)
    ensures AllPresent(appendfiles + [basefile], files) <==> AllPresent(appendfiles, files) && basefile in files
    ensures FirstMissing(appendfiles + [basefile], files) == -1 <==> AllPresent(appendfiles + [basefile], files)
    ensures forall i :: 0 <= i < |appendfiles| ==> (appendfiles + [basefile])[i] == appendfiles[i]
    ensures (appendfiles + [basefile])[|appendfiles|] == basefile
  {
    var all := appendfiles + [basefile];
    assert forall i :: 0 <= i < |appendfiles| ==> all[i] == appendfiles[i];
    if FirstMissing(all, files) == -1 {
      assert forall k :: 0 <= k < |all| ==> all[k] in files;
    }
  }

  /**
   * What fill_tempconfig_content writes into the temporary configuration, or
   * the exception it raises: a bad window value before any file is opened,
   * then the first override or base file that does not exist.
   */
  function ComposeConfig(basefile: string, appendfiles: seq<string>, window: Option<string>,
                         statesdir: string, statesExists: bool, files: map<string, seq<string>>)
    : Result<seq<string>, Error>
  {
    match WindowConfig(window)
    case Failure(e) => Failure(e)
    case Success(windowLines) =>
      var missing := FirstMissing(appendfiles + [basefile], files);
      if missing >= 0 then Failure(FileNotFound((appendfiles + [basefile])[missing]))
      else
        OpenOrder(appendfiles, basefile, files);
        Success(ForceConfig() + StatesDirConfig(statesdir, statesExists) + windowLines
                + Flatten(ContentsOf(appendfiles, files)) + files[basefile])
  }

  /** The first missing file among the override files and then the base file. */
  lemma {:induction false} FirstMissingSnoc(paths: seq<string>, last: string, files: map<string, seq<string>>)
    ensures FirstMissing(paths + [last], files)
         == if FirstMissing(paths, files) >= 0 then FirstMissing(paths, files)
            else if last in files then -1 else |paths|
    decreases |paths|
  {
    if |paths| > 0 {
      assert (paths + [last])[1..] == paths[1..] + [last];
      FirstMissingSnoc(paths[1..], last, files);
    }
  }

  /** When the window value is accepted and every file exists, the lines of all sections in order. */
  lemma ComposeConfigLines(basefile: string, appendfiles: seq<string>, window: Option<string>,
                           statesdir: string, statesExists: bool, files: map<string, seq<string>>)
    requires WindowConfig(window).Success?
    requires AllPresent(appendfiles, files) && basefile in files
    ensures ComposeConfig(basefile, appendfiles, window, statesdir, statesExists, files)
         == Success(ForceConfig() + StatesDirConfig(statesdir, statesExists) + WindowConfig(window).value
                    + Flatten(ContentsOf(appendfiles, files)) + files[basefile])
  {
    OpenOrder(appendfiles, basefile, files);
  }

  /** The composed configuration starts with the forced line, so it always wins. */
  lemma ForcedLineWins(basefile: string, appendfiles: seq<string>, window: Option<string>,
                       statesdir: string, statesExists: bool, files: map<string, seq<string>>)
    requires ComposeConfig(basefile, appendfiles, window, statesdir, statesExists, files).Success?
    ensures var lines := ComposeConfig(basefile, appendfiles, window, statesdir, statesExists, files).value;
      |lines| > 0 && lines[0] == Setting("config_save_on_exit", "false")
      && Lookup(lines, "config_save_on_exit") == Some(Setting("config_save_on_exit", "false"))
  {
    KeyOfSetting("config_save_on_exit", "false");
  }

  /**
   * Precedence: a key is read from the forced line, else the save-state line,
   * else the window lines, else the first override file that has it, else the
   * base file.
   */
  lemma ComposedLookup(basefile: string, appendfiles: seq<string>, window: Option<string>,
                       statesdir: string, statesExists: bool, files: map<string, seq<string>>, key: string)
    requires ComposeConfig(basefile, appendfiles, window, statesdir, statesExists, files).Success?
    ensures WindowConfig(window).Success?
    ensures AllPresent(appendfiles, files) && basefile in files
    ensures Lookup(ComposeConfig(basefile, appendfiles, window, statesdir, statesExists, files).value, key)
         == Either(Lookup(ForceConfig(), key),
            Either(Lookup(StatesDirConfig(statesdir, statesExists), key),
            Either(Lookup(WindowConfig(window).value, key),
            Either(FirstDefining(ContentsOf(appendfiles, files), key),
                   Lookup(files[basefile], key)))))
  {
    OpenOrder(appendfiles, basefile, files);
    var force := ForceConfig();
    var states := StatesDirConfig(statesdir, statesExists);
    var windowLines := WindowConfig(window).value;
    var overrides := Flatten(ContentsOf(appendfiles, files));
    var base := files[basefile];
    LookupAppend(force + states + windowLines + overrides, base, key);
    LookupAppend(force + states + windowLines, overrides, key);
    LookupAppend(force + states, windowLines, key);
    LookupAppend(force, states, key);
    LookupFlatten(ContentsOf(appendfiles, files), key);
  }

  /** Writes `lines` one by one after `out`. */
  method WriteLines(out: seq<string>, lines: seq<string>) returns (written: seq<string>)
    ensures written == out + lines
  {
    written := out;
    for j := 0 to |lines|
      invariant written == out + lines[..j]
    {
      written := written + [lines[j]];
    }
    assert lines[..|lines|] == lines;
  }

  /**
   * The override files written one after the other after `out`, stopping at
   * the first one that does not exist.
   */
  method WriteOverrides(out: seq<string>, appendfiles: seq<string>, files: map<string, seq<string>>)
    returns (r: Result<seq<string>, Error>)
    ensures r.Failure? <==> FirstMissing(appendfiles, files) >= 0
    ensures r.Failure? ==> r.error == FileNotFound(appendfiles[FirstMissing(appendfiles, files)])
    ensures r.Success? ==>
      AllPresent(appendfiles, files) && r.value == out + Flatten(ContentsOf(appendfiles, files))
  {
    var written := out;
    for i := 0 to |appendfiles|
      invariant AllPresent(appendfiles[..i], files)
      invariant written == out + Flatten(ContentsOf(appendfiles[..i], files))
    {
      var file := appendfiles[i];
      if file !in files {
        assert FirstMissing(appendfiles, files) == i;
        return Failure(FileNotFound(file));
      }
      written := WriteLines(written, files[file]);
      assert AllPresent(appendfiles[..i + 1], files);
      ContentsSnoc(appendfiles, files, i);
    }
    assert appendfiles[..|appendfiles|] == appendfiles;
    return Success(written);
  }

  /** No window key is the forced key or the save-state key. */
  lemma WindowKeysReserved(i: nat)
    requires i < 8
    ensures WindowKeys()[i] != "config_save_on_exit" && WindowKeys()[i] != "savestate_directory"
  {
  }

  /** A single setting of another key gives nothing for `key`. */
  lemma LookupOtherKey(k: string, v: string, key: string)
    requires IsKey(k) && k != key
    ensures Lookup([Setting(k, v)], key) == None
  {
    KeyOfSetting(k, v);
  }

  /** The forced line and the save-state line give nothing for any other key. */
  lemma ReservedLookups(statesdir: string, statesExists: bool, key: string)
    requires key != "config_save_on_exit" && key != "savestate_directory"
    ensures Lookup(ForceConfig(), key) == None && Lookup(StatesDirConfig(statesdir, statesExists), key) == None
  {
    LookupOtherKey("config_save_on_exit", "false", key);
    LookupOtherKey("savestate_directory", statesdir, key);
  }

  /** A key the window lines set, other than the forced and save-state keys, is read from them. */
  lemma WindowLineFound(basefile: string, appendfiles: seq<string>, window: Option<string>,
                        statesdir: string, statesExists: bool, files: map<string, seq<string>>, key: string)
    requires ComposeConfig(basefile, appendfiles, window, statesdir, statesExists, files).Success?
    requires key != "config_save_on_exit" && key != "savestate_directory"
    requires WindowConfig(window).Success? && Lookup(WindowConfig(window).value, key).Some?
    ensures Lookup(ComposeConfig(basefile, appendfiles, window, statesdir, statesExists, files).value, key)
         == Lookup(WindowConfig(window).value, key)
  {
    ComposedLookup(basefile, appendfiles, window, statesdir, statesExists, files, key);
    ReservedLookups(statesdir, statesExists, key);
  }

  /**
   * An accepted --window value sets the window keys whatever the override and
   * base files say.
   */
  lemma WindowLinesWin(basefile: string, appendfiles: seq<string>, spec: string,
                       statesdir: string, statesExists: bool, files: map<string, seq<string>>, i: nat)
    requires ComposeConfig(basefile, appendfiles, Some(spec), statesdir, statesExists, files).Success?
    requires spec != [] && i < 8
    ensures WindowSize(spec).Success?
    ensures Lookup(ComposeConfig(basefile, appendfiles, Some(spec), statesdir, statesExists, files).value, WindowKeys()[i])
         == Some(Setting(WindowKeys()[i], WindowValues(WindowSize(spec).value.0, WindowSize(spec).value.1)[i]))
  {
    var size := WindowSize(spec).value;
    WindowLinesSettings(size.0, size.1);
    WindowKeysReserved(i);
    WindowLineFound(basefile, appendfiles, Some(spec), statesdir, statesExists, files, WindowKeys()[i]);
  }

  /**
   * Two override files on the command line, o1 then o2, over a base file: o2
   * is read first, so it decides "b"; "a" falls through to o1.
   */
  lemma OverrideExample(files: map<string, seq<string>>, basefile: string, o1: string, o2: string)
    requires basefile in files && o1 in files && o2 in files
    requires files[basefile] == [Setting("a", "1")]
    requires files[o1] == [Setting("a", "2"), Setting("b", "3")] && files[o2] == [Setting("b", "4")]
    ensures var r := ComposeConfig(basefile, AppendConfigOrder([o1, o2]), None, "states", false, files);
      r.Success? && Lookup(r.value, "a") == Some(Setting("a", "2")) && Lookup(r.value, "b") == Some(Setting("b", "4"))
  {
    var order := AppendConfigOrder([o1, o2]);
    assert order == [o2, o1];
    ComposeConfigLines(basefile, order, None, "states", false, files);
    ComposedLookup(basefile, order, None, "states", false, files, "a");
    ComposedLookup(basefile, order, None, "states", false, files, "b");
    ReservedLookups("states", false, "a");
    ReservedLookups("states", false, "b");
    KeyOfSetting("a", "2");
    KeyOfSetting("b", "4");
    LookupOtherKey("b", "4", "a");
    var contents := ContentsOf(order, files);
    assert contents == [files[o2], files[o1]];
    assert contents[1..][1..] == [];
  }

  /**
   * fill_tempconfig_content: the lines written one by one, section by
   * section, into the temporary configuration.
   */
  method FillTempconfigContent(basefile: string, appendfiles: seq<string>, window: Option<string>,
                               statesdir: string, statesExists: bool, files: map<string, seq<string>>)
    returns (r: Result<seq<string>, Error>)
    ensures r == ComposeConfig(basefile, appendfiles, window, statesdir, statesExists, files)
  {
    var windowconfig := WindowConfig(window);
    if windowconfig.Failure? {
      return Failure(windowconfig.error);
    }
    var out := WriteLines([], ForceConfig());
    out := WriteLines(out, StatesDirConfig(statesdir, statesExists));
    out := WriteLines(out, windowconfig.value);
    FirstMissingSnoc(appendfiles, basefile, files);
    OpenOrder(appendfiles, basefile, files);
    var overrides := WriteOverrides(out, appendfiles, files);
    if overrides.Failure? {
      return overrides;
    }
    if basefile !in files {
      return Failure(FileNotFound(basefile));
    }
    out := WriteLines(overrides.value, files[basefile]);
    ComposeConfigLines(basefile, appendfiles, window, statesdir, statesExists, files);
    assert [] + ForceConfig() == ForceConfig();
    return Success(out);
  }
}
