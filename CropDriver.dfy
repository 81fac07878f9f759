/**
 * The main loop of the crop script: for every game, every screenshot is
 * cropped unless its crop file exists (and is not forced), then the crop files
 * of the game are put into one collage; at the end the PNG files of the output
 * directory may be converted to WebP. Running ImageMagick is recorded in a
 * trace of command lines; what exists on disk is an input.
 */
module CropDriver {
  import opened Strings
  import Paths
  import opened CropProfiles
  import opened CropCommands
  import opened CropFiles

  /** Whether an output file exists before its command would run and after it ran. */
  datatype Existence = Existence(before: bool, after: bool)

  /**
   * What the file system shows while one game is processed: its screenshot
   * files, the existence of the crop file of each of them (absent past the
   * end), the listing of the game's crop directory when the collage is
   * built, and the existence of the collage.
   */
  datatype TitleWorld = TitleWorld(screenshots: seq<string>, crops: seq<Existence>, listing: seq<Entry>,
                                   collage: Existence)

  function CropExistence(w: TitleWorld, k: nat): Existence {
    if k < |w.crops| then w.crops[k] else Existence(false, false)
  }

  /** The settings the main loop reads. */
  datatype Settings = Settings(outputdir: string, force: bool, nocollage: bool, webp: bool)

  /** The commands run so far and the two counters. */
  datatype Tally = Tally(trace: seq<seq<string>>, crops: nat, collages: nat)

  function Add(a: Tally, b: Tally): Tally {
    Tally(a.trace + b.trace, a.crops + b.crops, a.collages + b.collages)
  }

  /** The directory of a game's crops. */
  function OutGameDir(s: Settings, p: CropProfile): string {
    Paths.Join(s.outputdir, p.title)
  }

  /** The collage of a game lies next to its crop directory. */
  function CollagePath(s: Settings, p: CropProfile): string {
    s.outputdir + "/" + p.title + "-crop-collage.png"
  }

  /** One screenshot: a crop command that is not empty runs, and counts if its file exists afterwards. */
  function CropStep(s: Settings, p: CropProfile, infile: string, ex: Existence): Tally {
    var command := CropCommand(s.force, ex.before, OutGameDir(s, p), infile, Geometry(p.size, p.pos)).0;
    if command == [] then Tally([], 0, 0) else Tally([command], if ex.after then 1 else 0, 0)
  }

  /** The first n screenshots of a game. */
  function CropsRun(s: Settings, p: CropProfile, w: TitleWorld, n: nat): Tally
    requires n <= |w.screenshots|
  {
    if n == 0 then Tally([], 0, 0)
    else Add(CropsRun(s, p, w, n - 1), CropStep(s, p, w.screenshots[n - 1], CropExistence(w, n - 1)))
  }

  /** The label options of the collage: one `-label <label> <file>` triple per crop, in order. */
  function LabelCommands(crops: seq<string>, sep: char, n: nat): seq<string>
    requires n <= |crops|
  {
    if n == 0 then [] else LabelCommands(crops, sep, n - 1) + CollageGameCommand(crops[n - 1], sep)
  }

  /** The collage command of a game, if one runs. */
  function CollageCommand(s: Settings, p: CropProfile, w: TitleWorld): seq<string>
    requires |p.sep| == 1
  {
    var base := CollageBaseCommand(s.force, w.collage.before, p.size, p.title);
    if s.nocollage || base == [] then []
    else base + LabelCommands(CropFileOrder(OutGameDir(s, p), w.listing), p.sep[0], |CropFileOrder(OutGameDir(s, p), w.listing)|) + [CollagePath(s, p)]
  }

  /** The collage step: its command runs when there is one, and counts if the collage exists afterwards. */
  function CollageRun(s: Settings, p: CropProfile, w: TitleWorld): Tally
    requires |p.sep| == 1
  {
    var command := CollageCommand(s, p, w);
    if command == [] then Tally([], 0, 0) else Tally([command], 0, if w.collage.after then 1 else 0)
  }

  /** One game: its crops, then its collage. */
  function TitleRun(s: Settings, p: CropProfile, w: TitleWorld): Tally
    requires |p.sep| == 1
  {
    Add(CropsRun(s, p, w, |w.screenshots|), CollageRun(s, p, w))
  }

  /** The first m games. */
  function AllRun(s: Settings, games: seq<CropProfile>, world: nat -> TitleWorld, m: nat): Tally
    requires m <= |games| && forall i :: 0 <= i < |games| ==> |games[i].sep| == 1
  {
    if m == 0 then Tally([], 0, 0)
    else Add(AllRun(s, games, world, m - 1), TitleRun(s, games[m - 1], world(m - 1)))
  }

  /** The whole run: all games, then the WebP conversion of the given PNG files when asked for. */
  function MainRun(s: Settings, games: seq<CropProfile>, world: nat -> TitleWorld, pngfiles: seq<string>): Tally
    requires forall i :: 0 <= i < |games| ==> |games[i].sep| == 1
  {
    var run := AllRun(s, games, world, |games|);
    if s.webp then Add(run, Tally([TowebpBaseCommand() + pngfiles], 0, 0)) else run
  }

  /** The crop loop of main for one game. */
  method CropScreenshots(s: Settings, p: CropProfile, w: TitleWorld) returns (t: Tally)
    ensures t == CropsRun(s, p, w, |w.screenshots|)
  {
    t := Tally([], 0, 0);
    var geometry := Geometry(p.size, p.pos);
    var outgamedir := Paths.Join(s.outputdir, p.title);
    for k := 0 to |w.screenshots|
      invariant t == CropsRun(s, p, w, k)
    {
      var infile := w.screenshots[k];
      var ex := CropExistence(w, k);
      var command := CropCommand(s.force, ex.before, outgamedir, infile, geometry).0;
      if command == [] {
        continue;
      }
      t := Tally(t.trace + [command], t.crops, t.collages);
      if ex.after {
        t := Tally(t.trace, t.crops + 1, t.collages);
      }
    }
  }

  /** The loop of main that extends the collage's game part, crop by crop. */
  method CollageGameCommands(crops: seq<string>, sep: char) returns (command: seq<string>)
    ensures command == LabelCommands(crops, sep, |crops|)
  {
    command := [];
    for i := 0 to |crops|
      invariant command == LabelCommands(crops, sep, i)
    {
      command := command + CollageGameCommand(crops[i], sep);
    }
  }

  /** The collage step of one game: nothing when collages are off or the collage exists, otherwise montage. */
  method CollageStep(s: Settings, p: CropProfile, w: TitleWorld) returns (c: Tally)
    requires |p.sep| == 1
    ensures c == CollageRun(s, p, w)
  {
    c := Tally([], 0, 0);
    if s.nocollage {
      return;
    }
    var collagePath := s.outputdir + "/" + p.title + "-crop-collage.png";
    var base := CollageBaseCommand(s.force, w.collage.before, p.size, p.title);
    if base == [] {
      return;
    }
    var crops := CollectCropFiles(Paths.Join(s.outputdir, p.title), w.listing);
    var gameCommand := CollageGameCommands(crops, p.sep[0]);
    var collageCommand := base + gameCommand + [collagePath];
    c := Tally([collageCommand], 0, 0);
    if w.collage.after {
      c := Tally(c.trace, 0, 1);
    }
  }

  /** One iteration of main's game loop: the crops, then the collage unless it is switched off or exists. */
  method CropTitle(s: Settings, p: CropProfile, w: TitleWorld) returns (t: Tally)
    requires |p.sep| == 1
    ensures t == TitleRun(s, p, w)
  {
    t := CropScreenshots(s, p, w);
    var collage := CollageStep(s, p, w);
    t := Tally(t.trace + collage.trace, t.crops + collage.crops, t.collages + collage.collages);
  }

  /** main: every game in order, then the WebP conversion when asked for. */
  method CropMain(s: Settings, games: seq<CropProfile>, world: nat -> TitleWorld, pngfiles: seq<string>)
    returns (t: Tally)
    requires forall i :: 0 <= i < |games| ==> |games[i].sep| == 1
    ensures t == MainRun(s, games, world, pngfiles)
    ensures Counted(t, |games|)
  {
    t := Tally([], 0, 0);
    for i := 0 to |games|
      invariant t == AllRun(s, games, world, i)
      invariant Counted(t, i)
    {
      var titleTally := CropTitle(s, games[i], world(i));
      TitleRunCounts(s, games[i], world(i));
      AddCounted(t, titleTally, i, 1);
      t := Add(t, titleTally);
    }
    if s.webp {
      var towebp := TowebpBaseCommand();
      t := Tally(t.trace + [towebp + pngfiles], t.crops, t.collages);
    }
  }

  /** The crop loop runs at most one command per screenshot and counts at most one crop per command. */
  lemma {:induction false} CropsRunCounts(s: Settings, p: CropProfile, w: TitleWorld, n: nat)
    requires n <= |w.screenshots|
    ensures var t := CropsRun(s, p, w, n);
      t.crops <= |t.trace| <= n && t.collages == 0
    decreases n
  {
    if n > 0 {
      CropsRunCounts(s, p, w, n - 1);
    }
  }

  /** Screenshot k is cropped when forced, or when its crop file did not exist before. */
  predicate Cropped(s: Settings, w: TitleWorld, k: nat) {
    s.force || !CropExistence(w, k).before
  }

  /** The positions of the screenshots among the first n that are cropped, in order. */
  function CropIndices(s: Settings, w: TitleWorld, n: nat): seq<nat>
    decreases n
  {
    if n == 0 then [] else CropIndices(s, w, n - 1) + if Cropped(s, w, n - 1) then [n - 1] else []
  }

  /** How many of the first n screenshots are cropped and have their crop file afterwards. */
  function CountedCrops(s: Settings, w: TitleWorld, n: nat): nat
    decreases n
  {
    if n == 0 then 0 else CountedCrops(s, w, n - 1) + if Cropped(s, w, n - 1) && CropExistence(w, n - 1).after then 1 else 0
  }

  /**
   * The cropped positions are increasing and below n, and a position below n
   * is among them exactly when that screenshot is cropped.
   */
  lemma {:induction false} CropIndicesMeaning(s: Settings, w: TitleWorld, n: nat)
    ensures var ks := CropIndices(s, w, n);
      (forall i, j :: 0 <= i < j < |ks| ==> ks[i] < ks[j])
      && (forall i :: 0 <= i < |ks| ==> ks[i] < n)
      && (forall k :: 0 <= k < n ==> (k in ks <==> Cropped(s, w, k)))
    decreases n
  {
    if n > 0 {
      CropIndicesMeaning(s, w, n - 1);
      var prev := CropIndices(s, w, n - 1);
      var ks := CropIndices(s, w, n);
      forall k | 0 <= k < n ensures k in ks <==> Cropped(s, w, k) {
        if k < n - 1 {
          assert k in prev <==> k in ks;
        }
      }
    }
  }

  /** The crop command of a screenshot: `convert <infile> -crop <geometry> <crop file>`. */
  function CropCommandOf(s: Settings, p: CropProfile, infile: string): seq<string> {
    var g := Geometry(p.size, p.pos);
    ["convert", infile, "-crop", g, CropOutfile(OutGameDir(s, p), infile, g)]
  }

  /**
   * The crop loop runs one command per cropped screenshot, in screenshot
   * order: the i-th command crops the i-th cropped screenshot into its crop
   * file with the game's geometry.
   */
  lemma {:induction false} CropsRunCommands(s: Settings, p: CropProfile, w: TitleWorld, n: nat)
    requires n <= |w.screenshots|
    ensures var t, ks := CropsRun(s, p, w, n), CropIndices(s, w, n);
      |t.trace| == |ks|
      && forall i :: 0 <= i < |ks| ==> ks[i] < n && t.trace[i] == CropCommandOf(s, p, w.screenshots[ks[i]])
    decreases n
  {
    if n > 0 {
      CropsRunCommands(s, p, w, n - 1);
      var prev, pks := CropsRun(s, p, w, n - 1), CropIndices(s, w, n - 1);
      var t, ks := CropsRun(s, p, w, n), CropIndices(s, w, n);
      var infile, ex := w.screenshots[n - 1], CropExistence(w, n - 1);
      var cc := CropCommand(s.force, ex.before, OutGameDir(s, p), infile, Geometry(p.size, p.pos)).0;
      if Cropped(s, w, n - 1) {
        assert cc == CropCommandOf(s, p, infile);
        assert t.trace == prev.trace + [cc] && ks == pks + [n - 1];
        forall i | 0 <= i < |ks| ensures ks[i] < n && t.trace[i] == CropCommandOf(s, p, w.screenshots[ks[i]]) {
          if i < |pks| {
            assert ks[i] == pks[i] && t.trace[i] == prev.trace[i];
          }
        }
      } else {
        assert t.trace == prev.trace && ks == pks;
      }
    }
  }

  /**
   * Per screenshot: screenshot k gets its crop command exactly when forced or
   * when its crop file did not exist before; an existing crop file is skipped.
   */
  lemma CropsRunSkipsExisting(s: Settings, p: CropProfile, w: TitleWorld, n: nat, k: nat)
    requires k < n <= |w.screenshots|
    ensures var t, ks := CropsRun(s, p, w, n), CropIndices(s, w, n);
      |t.trace| == |ks|
      && (Cropped(s, w, k) ==> exists i :: 0 <= i < |ks| && ks[i] == k && t.trace[i] == CropCommandOf(s, p, w.screenshots[k]))
      && (!Cropped(s, w, k) ==> forall i :: 0 <= i < |ks| ==> ks[i] != k)
  {
    CropIndicesMeaning(s, w, n);
    CropsRunCommands(s, p, w, n);
    var ks := CropIndices(s, w, n);
    if Cropped(s, w, k) {
      var i :| 0 <= i < |ks| && ks[i] == k;
    }
  }

  /** The crop counter counts exactly the cropped screenshots whose crop file exists afterwards. */
  lemma {:induction false} CropsRunNeedsOutput(s: Settings, p: CropProfile, w: TitleWorld, n: nat)
    requires n <= |w.screenshots|
    ensures CropsRun(s, p, w, n).crops == CountedCrops(s, w, n)
    decreases n
  {
    if n > 0 {
      CropsRunNeedsOutput(s, p, w, n - 1);
    }
  }

  /** Forced, every screenshot is cropped, one command each, in order. */
  lemma {:induction false} CropsRunForced(s: Settings, p: CropProfile, w: TitleWorld, n: nat)
    requires n <= |w.screenshots| && s.force
    ensures |CropsRun(s, p, w, n).trace| == n
    ensures forall k :: 0 <= k < n ==> |CropsRun(s, p, w, n).trace[k]| == 5 && CropsRun(s, p, w, n).trace[k][1] == w.screenshots[k]
    decreases n
  {
    if n > 0 {
      CropsRunForced(s, p, w, n - 1);
    }
  }

  /**
   * The label options hold one triple per crop, in collage order: "-label",
   * the crop's label, and the crop file.
   */
  lemma {:induction false} LabelCommandsLayout(crops: seq<string>, sep: char, n: nat)
    requires n <= |crops|
    ensures var l := LabelCommands(crops, sep, n);
      |l| == 3 * n
      && forall i :: 0 <= i < n ==>
        l[3 * i] == "-label" && l[3 * i + 1] == CollageLabel(Paths.PathStem(crops[i]), sep)
        && l[3 * i + 2] == crops[i]
    decreases n
  {
    if n > 0 {
      LabelCommandsLayout(crops, sep, n - 1);
      var prev := LabelCommands(crops, sep, n - 1);
      var last := CollageGameCommand(crops[n - 1], sep);
      var l := LabelCommands(crops, sep, n);
      assert l == prev + last;
      forall i | 0 <= i < n
        ensures l[3 * i] == "-label" && l[3 * i + 1] == CollageLabel(Paths.PathStem(crops[i]), sep)
        ensures l[3 * i + 2] == crops[i]
      {
        if i < n - 1 {
          assert l[3 * i] == prev[3 * i] && l[3 * i + 1] == prev[3 * i + 1] && l[3 * i + 2] == prev[3 * i + 2];
        } else {
          assert 3 * i == |prev|;
          assert l[3 * i] == last[0] && l[3 * i + 1] == last[1] && l[3 * i + 2] == last[2];
        }
      }
    }
  }

  /**
   * The collage command is the montage base, then the label triples of the
   * crop files in collage order, then the collage file last. It runs even
   * when the game has no crop files.
   */
  lemma CollageCommandLayout(s: Settings, p: CropProfile, w: TitleWorld)
    requires |p.sep| == 1
    requires !s.nocollage && (s.force || !w.collage.before)
    ensures var c := CollageCommand(s, p, w);
      var crops := CropFileOrder(OutGameDir(s, p), w.listing);
      |c| == 8 + 3 * |crops|
      && c[..7] == ["montage", "-frame", "8x8", "-geometry", p.size, "-title", p.title]
      && c[7..|c| - 1] == LabelCommands(crops, p.sep[0], |crops|)
      && c[|c| - 1] == CollagePath(s, p)
      && CollageRun(s, p, w).trace == [c]
    ensures CropFileOrder(OutGameDir(s, p), w.listing) == [] ==>
      CollageCommand(s, p, w) == ["montage", "-frame", "8x8", "-geometry", p.size, "-title", p.title, CollagePath(s, p)]
  {
    var crops := CropFileOrder(OutGameDir(s, p), w.listing);
    LabelCommandsLayout(crops, p.sep[0], |crops|);
    var c := CollageCommand(s, p, w);
    assert c[7..|c| - 1] == LabelCommands(crops, p.sep[0], |crops|);
  }

  /** No collage command runs when collages are switched off, or when the collage exists and is not forced. */
  lemma CollageSkipped(s: Settings, p: CropProfile, w: TitleWorld)
    requires |p.sep| == 1
    ensures s.nocollage || (!s.force && w.collage.before) <==> CollageRun(s, p, w) == Tally([], 0, 0)
  {
  }

  /** Each game adds at most one collage, and only one that exists after its command ran. */
  lemma TitleRunCollages(s: Settings, p: CropProfile, w: TitleWorld)
    requires |p.sep| == 1
    ensures TitleRun(s, p, w).collages <= 1
    ensures TitleRun(s, p, w).collages == 1 <==> CollageCommand(s, p, w) != [] && w.collage.after
    ensures TitleRun(s, p, w).crops <= |w.screenshots|
  {
    CropsRunCounts(s, p, w, |w.screenshots|);
  }

  /** At most `games` collages, and the counters never exceed the commands run. */
  predicate Counted(t: Tally, games: nat) {
    t.collages <= games && t.crops + t.collages <= |t.trace|
  }

  /** A game's counters never exceed the commands it ran. */
  lemma TitleRunCounts(s: Settings, p: CropProfile, w: TitleWorld)
    requires |p.sep| == 1
    ensures Counted(TitleRun(s, p, w), 1)
  {
    CropsRunCounts(s, p, w, |w.screenshots|);
    var crops, collage := CropsRun(s, p, w, |w.screenshots|), CollageRun(s, p, w);
    assert collage.crops == 0 && collage.collages <= |collage.trace|;
    assert TitleRun(s, p, w) == Add(crops, collage);
  }

  lemma AddCounted(a: Tally, b: Tally, i: nat, j: nat)
    requires Counted(a, i) && Counted(b, j)
    ensures Counted(Add(a, b), i + j)
  {
  }

  /**
   * The WebP conversion, when asked for, is one `mogrify` command over the
   * given PNG files after every game; it changes neither counter.
   */
  lemma MainRunWebp(s: Settings, games: seq<CropProfile>, world: nat -> TitleWorld, pngfiles: seq<string>)
    requires forall i :: 0 <= i < |games| ==> |games[i].sep| == 1
    ensures var r, a := MainRun(s, games, world, pngfiles), AllRun(s, games, world, |games|);
      r.crops == a.crops && r.collages == a.collages
      && |a.trace| <= |r.trace| && r.trace[..|a.trace|] == a.trace
      && (|r.trace| == |a.trace| + 1 <==> s.webp)
      && (s.webp ==> r.trace[|a.trace|]
                     == ["mogrify", "-quality", "100%", "-format", "webp", "-define", "webp:lossless=true"] + pngfiles)
  {
    var r, a := MainRun(s, games, world, pngfiles), AllRun(s, games, world, |games|);
    if s.webp {
      assert r.trace == a.trace + [TowebpBaseCommand() + pngfiles];
      assert r.trace[..|a.trace|] == a.trace;
    } else {
      assert r.trace[..|a.trace|] == a.trace;
    }
  }
}
