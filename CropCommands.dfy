/**
 * The commands of the crop script: the crop geometry, the ImageMagick
 * `convert` command that crops one screenshot, the `montage` command that
 * puts a game's crops into a collage, the per-image label of the collage, and
 * the order in which the crops enter the collage.
 */
module CropCommands {
  import opened Strings
  import opened Ordering
  import Paths

  /** build_geometry: the size and the position as one `convert -crop` argument. */
  function Geometry(size: string, pos: string): string {
    size + "+" + pos
  }

  /** The size can be read back from the geometry: it is the text before the first '+'. */
  lemma GeometrySize(size: string, pos: string)
    requires '+' !in size
    ensures Before(Geometry(size, pos), "+") == size
    ensures Geometry(size, pos)[|size| + 1..] == pos
  {
    var g := Geometry(size, pos);
    assert OccursAt(g, "+", |size|);
    forall i | 0 <= i < |size| ensures !OccursAt(g, "+", i) {
      assert g[i..i + 1] == [size[i]];
    }
    BeforeFirst(g, "+", |size|);
  }

  /** str.partition stops at the first occurrence of the pattern. */
  lemma BeforeFirst(s: string, pat: string, k: nat)
    requires |pat| > 0 && OccursAt(s, pat, k)
    requires forall i :: 0 <= i < k ==> !OccursAt(s, pat, i)
    ensures Before(s, pat) == s[..k]
  {
    var r := Before(s, pat);
    assert |r| == k;
  }

  /**
   * The crop file name as build_crop_command writes it: the path
   * `outgamedir/stem` renamed with with_stem to `stem-crop<geometry>.png`,
   * which keeps whatever suffix pathlib sees in `stem` itself.
   */
  function CropOutfileAsWritten(outgamedir: string, infile: string, geometry: string): string {
    var stem := Paths.PathStem(infile);
    Paths.Join(outgamedir, Paths.WithStem(stem, stem + "-crop" + geometry + ".png"))
  }

  /** The crop file name the script means: `outgamedir/<stem>-crop<geometry>.png`. */
  function CropOutfile(outgamedir: string, infile: string, geometry: string): string {
    Paths.Join(outgamedir, Paths.PathStem(infile) + "-crop" + geometry + ".png")
  }

  /**
   * The intended crop file is a .png in `outgamedir` whose stem is the
   * screenshot's stem followed by "-crop" and the geometry.
   */
  lemma CropOutfileIsPng(outgamedir: string, infile: string, geometry: string)
    requires '/' !in geometry && '.' !in geometry
    ensures var stem := Paths.PathStem(infile);
      var name := stem + "-crop" + geometry + ".png";
      CropOutfile(outgamedir, infile, geometry) == Paths.Join(outgamedir, name)
      && Paths.Name(Paths.Join(outgamedir, name)) == name
      && Paths.Suffix(name) == ".png" && Paths.Stem(name) == stem + "-crop" + geometry
  {
    var stem := Paths.PathStem(infile);
    var name := stem + "-crop" + geometry + ".png";
    assert name == (stem + "-crop" + geometry) + ".png";
    assert Paths.IsSuffix(".png");
    Paths.StemSuffixOf(stem + "-crop" + geometry, ".png");
    Paths.PathStemShape(infile);
    assert forall k :: 0 <= k < |name| ==> name[k] != '/' by {
      forall k | 0 <= k < |name| ensures name[k] != '/' {
        if k < |stem| { assert name[k] == stem[k]; }
      }
    }
    Paths.NameOfJoin(outgamedir, name);
  }

  /** When the screenshot's stem has no suffix of its own, the two names agree. */
  lemma CropOutfileAgrees(outgamedir: string, infile: string, geometry: string)
    requires Paths.Suffix(Paths.PathStem(infile)) == []
    ensures CropOutfileAsWritten(outgamedir, infile, geometry) == CropOutfile(outgamedir, infile, geometry)
  {
  }

  /**
   * A screenshot whose stem has a suffix of its own (`a.b.png`, stem `a.b`)
   * gets a crop file whose name ends in that suffix (`a.b-crop<geometry>.png.b`),
   * so its suffix is not ".png".
   */
  lemma CropOutfileKeepsStemSuffix(outgamedir: string, base: string, ext: string, geometry: string)
    requires |base| > 0 && '/' !in base && Paths.IsSuffix(ext) && '/' !in ext && ext != ".png"
    ensures var infile := outgamedir + "/" + base + ext + ".png";
      var name := base + ext + "-crop" + geometry + ".png" + ext;
      CropOutfileAsWritten(outgamedir, infile, geometry) == Paths.Join(outgamedir, name)
      && Paths.Suffix(name) == ext
  {
    var infile := outgamedir + "/" + base + ext + ".png";
    assert infile == Paths.Join(outgamedir, base + ext + ".png");
    Paths.PathStemOfJoin(outgamedir, base + ext + ".png");
    assert |base + ext| > 0 && Paths.IsSuffix(".png");
    Paths.StemSuffixOf(base + ext, ".png");
    Paths.StemSuffixOf(base, ext);
    var name := base + ext + "-crop" + geometry + ".png" + ext;
    assert name == (base + ext + "-crop" + geometry + ".png") + ext;
    Paths.StemSuffixOf(base + ext + "-crop" + geometry + ".png", ext);
  }

  /**
   * A concrete screenshot that shows the difference: `a.b.png` gives the crop
   * file `a.b-crop<geometry>.png.b`, whose suffix is ".b" and not ".png".
   */
  lemma CropOutfileCounterexample(outgamedir: string, geometry: string)
    ensures var infile := outgamedir + "/" + "a" + ".b" + ".png";
      var name := "a" + ".b" + "-crop" + geometry + ".png" + ".b";
      CropOutfileAsWritten(outgamedir, infile, geometry) == Paths.Join(outgamedir, name)
      && Paths.Suffix(name) == ".b"
  {
    CropOutfileKeepsStemSuffix(outgamedir, "a", ".b", geometry);
  }

  /**
   * build_crop_command: nothing to run when the crop file exists and is not
   * forced, otherwise `convert <infile> -crop <geometry> <outfile>`; the crop
   * file is returned either way. The crop file is the intended one; it is the
   * one the script writes whenever the screenshot's stem has no suffix of its
   * own (CropOutfileAgrees).
   */
  function CropCommand(force: bool, outfileExists: bool, outgamedir: string, infile: string, geometry: string)
    : (r: (seq<string>, string))
    ensures r.1 == CropOutfile(outgamedir, infile, geometry)
    ensures r.0 == [] <==> !force && outfileExists
    ensures r.0 != [] ==> r.0 == ["convert", infile, "-crop", geometry, r.1]
  {
    var outfile := CropOutfile(outgamedir, infile, geometry);
    if !force && outfileExists then ([], outfile) else (["convert", infile, "-crop", geometry, outfile], outfile)
  }

  /**
   * build_collage_base_command: nothing to run when the collage exists and is
   * not forced, otherwise `montage -frame 8x8 -geometry <size> -title <title>`.
   */
  function CollageBaseCommand(force: bool, collageExists: bool, size: string, title: string): (command: seq<string>)
    ensures command == [] <==> !force && collageExists
    ensures command != [] ==> command == ["montage", "-frame", "8x8", "-geometry", size, "-title", title]
  {
    if !force && collageExists then [] else ["montage", "-frame", "8x8", "-geometry", size, "-title", title]
  }

  /** build_towebp_base_command: lossless WebP conversion of the files appended to it. */
  function TowebpBaseCommand(): seq<string> {
    ["mogrify", "-quality", "100%", "-format", "webp", "-define", "webp:lossless=true"]
  }

  /** The collage groups: crops of "nearest" shaders, then of "bilinear" shaders, then the rest. */
  function Group(stem: string): (g: nat)
    ensures g <= 2
    ensures g == 0 <==> "nearest" <= stem
    ensures g == 1 <==> !("nearest" <= stem) && "bilinear" <= stem
  {
    if "nearest" <= stem then 0 else if "bilinear" <= stem then 1 else 2
  }

  /**
   * The label of a crop in the collage: the stem up to the first "-crop";
   * labels of the nearest and bilinear groups as they are, other labels with
   * every separator shown as " / ".
   */
  function CollageLabel(stem: string, sep: char): (text: string)
    ensures Group(Before(stem, "-crop")) < 2 ==> text == Before(stem, "-crop")
    ensures Group(Before(stem, "-crop")) == 2 && sep != ' ' && sep != '/' ==> sep !in text
  {
    var head := Before(stem, "-crop");
    if "nearest" <= head || "bilinear" <= head then head
    else
      ReplaceFree(head, sep, " / ");
      Replace(head, sep, " / ")
  }

  /** build_collage_game_command: the label option and the crop file. */
  function CollageGameCommand(infile: string, sep: char): seq<string> {
    ["-label", CollageLabel(Paths.PathStem(infile), sep), infile]
  }

  /**
   * The label of a crop made from a screenshot with the base name `base`:
   * the base name, with the separator shown as " / " unless it belongs to
   * the nearest or bilinear group.
   */
  lemma CollageLabelOfCrop(base: string, geometry: string, sep: char)
    requires forall i :: 0 <= i < |base| ==> !OccursAt(base + "-crop", "-crop", i)
    ensures var stem := base + "-crop" + geometry;
      CollageLabel(stem, sep) == if "nearest" <= base || "bilinear" <= base then base else Replace(base, sep, " / ")
  {
    var stem := base + "-crop" + geometry;
    assert stem == (base + "-crop") + geometry;
    assert stem[|base|..|base| + 5] == "-crop";
    forall i | 0 <= i < |base| ensures !OccursAt(stem, "-crop", i) {
      assert !OccursAt(base + "-crop", "-crop", i);
      assert stem[i..i + 5] == (base + "-crop")[i..i + 5];
    }
    BeforeFirst(stem, "-crop", |base|);
    assert stem[..|base|] == base;
  }

}
