/**
 * The RetroArch command line of one capture and the file it writes: a fixed
 * base, the shader to apply, the screenshot path, and the game part built from
 * the game's profile.
 */
module CaptureCommands {
  import opened Base
  import opened Strings
  import Paths
  import opened ScreenshotProfiles

  /** build_base_command: the part shared by every capture. */
  function BaseCommand(tempconfig: string): seq<string> {
    ["retroarch", "--config", tempconfig, "--sram-mode", "noload-nosave", "--max-frames-ss", "--eof-exit"]
  }

  /** build_game_command: frames and slot as decimal text, then the core and the game last. */
  function GameCommand(p: Profile): seq<string> {
    ["--max-frames", IntToString(p.frames), "--entryslot", IntToString(p.slot), "--libretro", p.core, p.game]
  }

  /** The game part: frames and slot read back as the profile's integers, then the core and the game last. */
  lemma GameCommandNumbers(p: Profile)
    ensures var command := GameCommand(p);
      |command| == 7 && command[5] == p.core && command[6] == p.game
      && ParseInt(command[1]) == Some(p.frames) && ParseInt(command[3]) == Some(p.slot)
  {
    ParseIntOfIntToString(p.frames);
    ParseIntOfIntToString(p.slot);
  }

  /** The file name of a screenshot: the shader path below the shader root, as a .png, with `sep` for '/'. */
  function ScreenshotName(relative: string, sep: string): string {
    Replace(Paths.PathWithSuffix(relative, ".png"), '/', sep)
  }

  /**
   * build_screenshot_path: `outputdir/title/name`, where name is the shader's
   * path below `shaderdir` made a .png with every '/' replaced by `sep`; a
   * shader outside `shaderdir` is an error.
   */
  function ScreenshotPath(shaderfile: string, shaderdir: string, outputdir: string, title: string, sep: string)
    : Result<string, Error>
  {
    match Paths.RelativeTo(shaderfile, shaderdir)
    case Failure(e) => Failure(e)
    case Success(relative) => Success(outputdir + "/" + title + "/" + ScreenshotName(relative, sep))
  }

  /**
   * The screenshot path exists exactly for a shader below the shader root; it
   * is then the name built from the shader's path below the root, inside the
   * title's directory, and otherwise the error is NotRelative.
   */
  lemma ScreenshotPathMeaning(shaderfile: string, shaderdir: string, outputdir: string, title: string, sep: string)
    ensures var r := ScreenshotPath(shaderfile, shaderdir, outputdir, title, sep);
      (r.Failure? <==> !(shaderdir + "/" <= shaderfile && |shaderfile| > |shaderdir| + 1))
      && (r.Failure? ==> r.error == NotRelative(shaderfile, shaderdir))
      && (r.Success? ==>
            var relative := Paths.RelativeTo(shaderfile, shaderdir).value;
            Paths.Join(shaderdir, relative) == shaderfile
            && r.value == Paths.Join(Paths.Join(outputdir, title), ScreenshotName(relative, sep)))
  {
  }

  /** build_screenshot_command: the path option and the path it names. */
  function ScreenshotCommand(shaderfile: string, shaderdir: string, outputdir: string, title: string, sep: string)
    : Result<(seq<string>, string), Error>
  {
    match ScreenshotPath(shaderfile, shaderdir, outputdir, title, sep)
    case Failure(e) => Failure(e)
    case Success(path) => Success((["--max-frames-ss-path", path], path))
  }

  /** The full command of one capture, assembled as in main. */
  function CaptureCommand(tempconfig: string, shaderfile: string, screenshot: string, p: Profile): seq<string> {
    BaseCommand(tempconfig) + ["--set-shader", shaderfile] + ["--max-frames-ss-path", screenshot] + GameCommand(p)
  }

  /**
   * The capture command has 18 words in a fixed layout: the base, the shader,
   * the screenshot path, frames and slot that read back as the profile's
   * integers, and the core and then the game last.
   */
  lemma CaptureCommandLayout(tempconfig: string, shaderfile: string, screenshot: string, p: Profile)
    ensures var c := CaptureCommand(tempconfig, shaderfile, screenshot, p);
      |c| == 18
      && c[..7] == ["retroarch", "--config", tempconfig, "--sram-mode", "noload-nosave", "--max-frames-ss", "--eof-exit"]
      && c[7..11] == ["--set-shader", shaderfile, "--max-frames-ss-path", screenshot]
      && c[11] == "--max-frames" && ParseInt(c[12]) == Some(p.frames)
      && c[13] == "--entryslot" && ParseInt(c[14]) == Some(p.slot)
      && c[15] == "--libretro" && c[16] == p.core && c[17] == p.game
  {
    var c := CaptureCommand(tempconfig, shaderfile, screenshot, p);
    var g := GameCommand(p);
    GameCommandNumbers(p);
    assert c[11..] == g;
  }

  /** With a separator other than '/', the screenshot name is a single file name. */
  lemma ScreenshotNameIsFlat(relative: string, sep: string)
    requires '/' !in sep
    ensures '/' !in ScreenshotName(relative, sep)
  {
    Strings.ReplaceFree(Paths.PathWithSuffix(relative, ".png"), '/', sep);
  }

  /**
   * The shader's relative path can be read back from the screenshot name when
   * the separator character does not occur in it.
   */
  lemma ScreenshotNameRoundTrip(relative: string, sep: char)
    requires sep !in Paths.PathWithSuffix(relative, ".png")
    ensures Replace(ScreenshotName(relative, [sep]), sep, "/") == Paths.PathWithSuffix(relative, ".png")
  {
    ReplaceRoundTrip(Paths.PathWithSuffix(relative, ".png"), '/', sep);
  }

  /** Only the suffix of the final component changes: `dir/name.ext` becomes `dir/name.png`. */
  lemma PathWithPngSuffix(dir: string, stem: string, ext: string)
    requires '/' !in stem && '/' !in ext && |stem| > 0 && Paths.IsSuffix(ext)
    ensures Paths.PathWithSuffix(Paths.Join(dir, stem + ext), ".png") == Paths.Join(dir, stem + ".png")
  {
    assert '/' !in stem + ext;
    Paths.PathWithSuffixOfJoin(dir, stem + ext, ".png");
    Paths.StemSuffixOf(stem, ext);
  }

  /** Joining one more piece appends the separator and the piece. */
  lemma {:induction false} JoinSnoc(pieces: seq<string>, last: string, d: char)
    requires |pieces| > 0
    ensures Join(pieces + [last], d) == Join(pieces, d) + [d] + last
    decreases |pieces|
  {
    if |pieces| > 1 {
      assert (pieces + [last])[1..] == pieces[1..] + [last];
      JoinSnoc(pieces[1..], last, d);
    } else {
      assert (pieces + [last])[1..] == [last];
    }
  }

  /** Replacing '/' in a '/'-joined path gives the same pieces joined with `sep`. */
  lemma {:induction false} ReplaceJoin(pieces: seq<string>, sep: char)
    requires |pieces| > 0
    requires forall i :: 0 <= i < |pieces| ==> '/' !in pieces[i]
    ensures Replace(Join(pieces, '/'), '/', [sep]) == Join(pieces, sep)
    decreases |pieces|
  {
    if |pieces| > 1 {
      ReplaceJoin(pieces[1..], sep);
      ReplaceAppend(pieces[0] + ['/'], Join(pieces[1..], '/'), '/', [sep]);
      ReplaceAppend(pieces[0], ['/'], '/', [sep]);
    }
    ReplaceFree(pieces[0], '/', [sep]);
  }

  /**
   * The screenshot name of a shader at `d1/.../dn/stem.ext` below the shader
   * root is `d1 sep ... sep dn sep stem.png`; with sep '／', `a/b/c.slangp`
   * becomes `a／b／c.png`. A shader directly below the root and a shader
   * name without a suffix are outside this lemma's scope; the name is still
   * flat and reversible for them (ScreenshotNameIsFlat, ScreenshotNameRoundTrip).
   */
  lemma ScreenshotNameOf(dirs: seq<string>, stem: string, ext: string, sep: char)
    requires |dirs| > 0 && forall i :: 0 <= i < |dirs| ==> '/' !in dirs[i]
    requires '/' !in stem && '/' !in ext && |stem| > 0 && Paths.IsSuffix(ext)
    ensures ScreenshotName(Paths.Join(Join(dirs, '/'), stem + ext), [sep]) == Join(dirs + [stem + ".png"], sep)
  {
    PathWithPngSuffix(Join(dirs, '/'), stem, ext);
    JoinSnoc(dirs, stem + ".png", '/');
    var pieces := dirs + [stem + ".png"];
    assert forall i :: 0 <= i < |pieces| ==> '/' !in pieces[i];
    ReplaceJoin(pieces, sep);
  }
}
