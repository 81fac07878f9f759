/**
 * The batch script: for every resolution of a comma-separated list it makes
 * the screenshot directory, runs the screenshot script into it, makes the crop
 * directory and runs the crop script from the one into the other. Creating a
 * directory and running a script are recorded as steps. The two script paths
 * and the override files arrive already resolved; the game list and the shader
 * list are passed on exactly as given on the command line.
 */
module BatchDriver {
  import opened Strings
  import Paths

  /**
   * The options of the batch script: the script paths and override files
   * resolved, the game list and shader list as given.
   */
  datatype Options = Options(screenshot: string, crop: string, gamelist: string, shaderlist: string,
                             appendconfig: seq<string>, resolution: string, webp: bool)

  /** The resolved `./screenshots` and `./crops` directories. */
  datatype Roots = Roots(screenshots: string, crops: string)

  /** One action of the batch script. */
  datatype Step = MakeDir(dir: string) | Run(argv: seq<string>)

  /**
   * pathlib's joinpath with one piece: an empty piece leaves the path as it
   * is, an absolute piece replaces it, any other piece is appended after '/'.
   */
  function JoinPath(root: string, piece: string): string {
    if piece == [] then root else if piece[0] == '/' then piece else Paths.Join(root, piece)
  }

  /** A plain resolution name is the last component of the directory made for it. */
  lemma JoinPathName(root: string, piece: string)
    requires piece != [] && '/' !in piece
    ensures JoinPath(root, piece) == root + "/" + piece
    ensures Paths.Name(JoinPath(root, piece)) == piece
  {
    assert piece[0] in piece;
    Paths.NameOfJoin(root, piece);
  }

  /** The configuration overrides passed on: those given, or "append.cfg" when none is. */
  function AppendConfigs(o: Options): seq<string> {
    if |o.appendconfig| > 0 then o.appendconfig else ["append.cfg"]
  }

  /** `--appendconfig <file>` for each of the first n files, in order. */
  function ConfigOptions(files: seq<string>, n: nat): seq<string>
    requires n <= |files|
  {
    if n == 0 then [] else ConfigOptions(files, n - 1) + ["--appendconfig", files[n - 1]]
  }

  /** The command line of the screenshot script for one resolution. */
  function ScreenshotArgv(o: Options, roots: Roots, resolution: string): seq<string> {
    var files := AppendConfigs(o);
    [o.screenshot] + ConfigOptions(files, |files|)
    + ["--window", resolution, "--gamelist", o.gamelist, "--shaderlist", o.shaderlist,
       "--outputdir", JoinPath(roots.screenshots, resolution)]
  }

  /** The command line of the crop script for one resolution. */
  function CropArgv(o: Options, roots: Roots, resolution: string): seq<string> {
    [o.crop] + (if o.webp then ["--webp"] else [])
    + ["--gamelist", o.gamelist, "--inputdir", JoinPath(roots.screenshots, resolution),
       "--outputdir", JoinPath(roots.crops, resolution)]
  }

  /** The steps for the first m resolutions: per resolution, a directory and a script, twice. */
  function BatchRun(o: Options, roots: Roots, resolutions: seq<string>, m: nat): seq<Step>
    requires m <= |resolutions|
  {
    if m == 0 then []
    else
      var resolution := resolutions[m - 1];
      BatchRun(o, roots, resolutions, m - 1)
      + [MakeDir(JoinPath(roots.screenshots, resolution)), Run(ScreenshotArgv(o, roots, resolution)),
         MakeDir(JoinPath(roots.crops, resolution)), Run(CropArgv(o, roots, resolution))]
  }

  /** The screenshot command of one resolution, word by word. */
  method BuildScreenshotCommand(o: Options, roots: Roots, resolution: string, appendconfig: seq<string>)
    returns (sCommand: seq<string>)
    requires appendconfig == AppendConfigs(o)
    ensures sCommand == ScreenshotArgv(o, roots, resolution)
  {
    sCommand := [o.screenshot];
    for k := 0 to |appendconfig|
      invariant sCommand == [o.screenshot] + ConfigOptions(appendconfig, k)
    {
      sCommand := sCommand + ["--appendconfig"];
      sCommand := sCommand + [appendconfig[k]];
    }
    sCommand := sCommand + ["--window", resolution];
    sCommand := sCommand + ["--gamelist", o.gamelist];
    sCommand := sCommand + ["--shaderlist", o.shaderlist];
    sCommand := sCommand + ["--outputdir", JoinPath(roots.screenshots, resolution)];
  }

  /** The crop command of one resolution, word by word. */
  method BuildCropCommand(o: Options, roots: Roots, resolution: string) returns (cCommand: seq<string>)
    ensures cCommand == CropArgv(o, roots, resolution)
  {
    cCommand := [o.crop];
    if o.webp {
      cCommand := cCommand + ["--webp"];
    }
    cCommand := cCommand + ["--gamelist", o.gamelist];
    cCommand := cCommand + ["--inputdir", JoinPath(roots.screenshots, resolution)];
    cCommand := cCommand + ["--outputdir", JoinPath(roots.crops, resolution)];
  }

  /** main: the steps of the whole batch, and the exit status. */
  method BatchMain(o: Options, roots: Roots) returns (steps: seq<Step>, status: int)
    ensures steps == BatchRun(o, roots, Split(o.resolution, ','), |Split(o.resolution, ',')|)
    ensures status == 0
  {
    var appendconfig: seq<string>;
    if |o.appendconfig| > 0 {
      appendconfig := o.appendconfig;
    } else {
      appendconfig := ["append.cfg"];
    }
    var resolutions := Split(o.resolution, ',');
    steps := [];
    for i := 0 to |resolutions|
      invariant steps == BatchRun(o, roots, resolutions, i)
    {
      var resolution := resolutions[i];
      var screenshotsDir := JoinPath(roots.screenshots, resolution);
      var cropsDir := JoinPath(roots.crops, resolution);
      var sCommand := BuildScreenshotCommand(o, roots, resolution, appendconfig);
      var cCommand := BuildCropCommand(o, roots, resolution);

      steps := steps + [MakeDir(screenshotsDir), Run(sCommand)];
      steps := steps + [MakeDir(cropsDir), Run(cCommand)];
    }
    status := 0;
  }

  /** The override options alternate between the flag and the files, in the order given. */
  lemma {:induction false} ConfigOptionsLayout(files: seq<string>, n: nat)
    requires n <= |files|
    ensures var r := ConfigOptions(files, n);
      |r| == 2 * n && forall k :: 0 <= k < n ==> r[2 * k] == "--appendconfig" && r[2 * k + 1] == files[k]
    decreases n
  {
    if n > 0 {
      ConfigOptionsLayout(files, n - 1);
      var prev := ConfigOptions(files, n - 1);
      var r := ConfigOptions(files, n);
      assert r == prev + ["--appendconfig", files[n - 1]];
      forall k | 0 <= k < n ensures r[2 * k] == "--appendconfig" && r[2 * k + 1] == files[k] {
        if k < n - 1 {
          assert r[2 * k] == prev[2 * k] && r[2 * k + 1] == prev[2 * k + 1];
        }
      }
    }
  }

  /**
   * The screenshot command: the script, `--appendconfig <file>` per override
   * in command-line order ("append.cfg" when none is given), then the window,
   * the game list, the shader list and the output directory of the resolution.
   */
  lemma ScreenshotArgvLayout(o: Options, roots: Roots, resolution: string)
    ensures var s := ScreenshotArgv(o, roots, resolution);
      var files := if |o.appendconfig| > 0 then o.appendconfig else ["append.cfg"];
      var n := |files|;
      |s| == 9 + 2 * n && s[0] == o.screenshot
      && (forall k :: 0 <= k < n ==> s[2 * k + 1] == "--appendconfig" && s[2 * k + 2] == files[k])
      && s[2 * n + 1..] == ["--window", resolution, "--gamelist", o.gamelist, "--shaderlist", o.shaderlist,
                            "--outputdir", JoinPath(roots.screenshots, resolution)]
  {
    var files := AppendConfigs(o);
    var n := |files|;
    ConfigOptionsLayout(files, n);
    var s := ScreenshotArgv(o, roots, resolution);
    var options := ConfigOptions(files, n);
    forall k | 0 <= k < n ensures s[2 * k + 1] == "--appendconfig" && s[2 * k + 2] == files[k] {
      assert s[2 * k + 1] == options[2 * k] && s[2 * k + 2] == options[2 * k + 1];
    }
  }

  /**
   * The crop command: the script, `--webp` right after it exactly when WebP
   * output is asked for, then the game list, the input directory and the
   * output directory of the resolution.
   */
  lemma CropArgvLayout(o: Options, roots: Roots, resolution: string)
    ensures var c := CropArgv(o, roots, resolution);
      var w := if o.webp then 1 else 0;
      |c| == 7 + w && c[0] == o.crop && (c[1] == "--webp" <==> o.webp)
      && c[1 + w..] == ["--gamelist", o.gamelist, "--inputdir", JoinPath(roots.screenshots, resolution),
                        "--outputdir", JoinPath(roots.crops, resolution)]
  {
  }

  /** Unless an argument happens to read "--webp" itself, the flag appears only when it is set. */
  lemma CropArgvWebp(o: Options, roots: Roots, resolution: string)
    requires o.crop != "--webp" && o.gamelist != "--webp"
    requires JoinPath(roots.screenshots, resolution) != "--webp" && JoinPath(roots.crops, resolution) != "--webp"
    ensures "--webp" in CropArgv(o, roots, resolution) <==> o.webp
  {
    var c := CropArgv(o, roots, resolution);
    if !o.webp {
      assert c == [o.crop, "--gamelist", o.gamelist, "--inputdir", JoinPath(roots.screenshots, resolution),
                   "--outputdir", JoinPath(roots.crops, resolution)];
    } else {
      assert c[1] == "--webp";
    }
  }

  /**
   * The crop script reads the directory the screenshot script writes, and
   * writes into the crop directory of the same resolution.
   */
  lemma DirectoryLinkage(o: Options, roots: Roots, resolution: string)
    ensures var s, c := ScreenshotArgv(o, roots, resolution), CropArgv(o, roots, resolution);
      |s| >= 2 && |c| >= 4
      && s[|s| - 2] == "--outputdir" && c[|c| - 4] == "--inputdir" && c[|c| - 2] == "--outputdir"
      && c[|c| - 3] == s[|s| - 1] == JoinPath(roots.screenshots, resolution)
      && c[|c| - 1] == JoinPath(roots.crops, resolution)
  {
    ScreenshotArgvLayout(o, roots, resolution);
    CropArgvLayout(o, roots, resolution);
  }

  /** Four steps per resolution. */
  lemma {:induction false} BatchRunLength(o: Options, roots: Roots, resolutions: seq<string>, m: nat)
    requires m <= |resolutions|
    ensures |BatchRun(o, roots, resolutions, m)| == 4 * m
    decreases m
  {
    if m > 0 {
      BatchRunLength(o, roots, resolutions, m - 1);
    }
  }

  /** The four steps of the resolution at position k, once the first m resolutions have run. */
  lemma {:induction false} BatchRunAt(o: Options, roots: Roots, resolutions: seq<string>, m: nat, k: nat)
    requires k < m <= |resolutions|
    ensures var r := BatchRun(o, roots, resolutions, m);
      4 * k + 3 < |r|
      && r[4 * k] == MakeDir(JoinPath(roots.screenshots, resolutions[k]))
      && r[4 * k + 1] == Run(ScreenshotArgv(o, roots, resolutions[k]))
      && r[4 * k + 2] == MakeDir(JoinPath(roots.crops, resolutions[k]))
      && r[4 * k + 3] == Run(CropArgv(o, roots, resolutions[k]))
    decreases m
  {
    BatchRunLength(o, roots, resolutions, m - 1);
    if k < m - 1 {
      BatchRunAt(o, roots, resolutions, m - 1, k);
    }
  }

  /**
   * The resolutions run one after the other, in list order; for each, its
   * screenshot directory is made, the screenshot script runs, its crop
   * directory is made and the crop script runs, in that order.
   */
  lemma BatchRunOrder(o: Options, roots: Roots, resolutions: seq<string>, m: nat)
    requires m <= |resolutions|
    ensures var r := BatchRun(o, roots, resolutions, m);
      |r| == 4 * m
      && forall k :: 0 <= k < m ==>
           r[4 * k] == MakeDir(JoinPath(roots.screenshots, resolutions[k]))
           && r[4 * k + 1] == Run(ScreenshotArgv(o, roots, resolutions[k]))
           && r[4 * k + 2] == MakeDir(JoinPath(roots.crops, resolutions[k]))
           && r[4 * k + 3] == Run(CropArgv(o, roots, resolutions[k]))
  {
    BatchRunLength(o, roots, resolutions, m);
    forall k | 0 <= k < m {
      BatchRunAt(o, roots, resolutions, m, k);
    }
  }

  /**
   * One iteration per comma-separated piece of the resolution option: the
   * pieces contain no comma and, joined with commas, give the option back
   * untrimmed.
   */
  lemma BatchResolutions(o: Options, roots: Roots)
    ensures var pieces := Split(o.resolution, ',');
      |BatchRun(o, roots, pieces, |pieces|)| == 4 * |pieces|
      && Join(pieces, ',') == o.resolution
      && forall k :: 0 <= k < |pieces| ==> ',' !in pieces[k]
  {
    var pieces := Split(o.resolution, ',');
    BatchRunOrder(o, roots, pieces, |pieces|);
    JoinSplit(o.resolution, ',');
  }
}
