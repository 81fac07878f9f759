/**
 * Loading the game profiles of the crop script: every section of the game
 * list names a game and a core file, and may override the path separator, the
 * crop size `WIDTHxHEIGHT` and the crop position `X+Y`. A section that fails a
 * check aborts the whole load.
 */
module CropProfiles {
  import opened Base
  import opened Strings
  import ScreenshotProfiles

  /** The command-line values that stand in for options a section leaves out. */
  datatype Defaults = Defaults(sep: string, size: string, pos: string)

  /** A loaded profile: the raw options of the section with the checked values stored over them. */
  datatype CropProfile = CropProfile(title: string, game: string, core: string, sep: string, size: string,
                                     pos: string, options: map<string, string>)

  /** `[1-9]\d*`: a decimal numeral without a leading zero. */
  predicate PositiveNumeral(t: string) {
    IsDigits(t) && t[0] != '0'
  }

  /** The body of `^[1-9]\d*x[1-9]\d*$`: two positive numerals around one 'x'. */
  predicate SizeBody(s: string) {
    var pieces := Split(s, 'x');
    |pieces| == 2 && PositiveNumeral(pieces[0]) && PositiveNumeral(pieces[1])
  }

  /** The body of `^\d+[+]\d+$`: two numerals around one '+'. */
  predicate PosBody(s: string) {
    var pieces := Split(s, '+');
    |pieces| == 2 && IsDigits(pieces[0]) && IsDigits(pieces[1])
  }

  /** Python's `$` also matches just before a newline that ends the string. */
  predicate FullMatch(body: string -> bool, s: string) {
    body(s) || (|s| > 0 && s[|s| - 1] == '\n' && body(s[..|s| - 1]))
  }

  predicate SizeFormat(s: string) {
    FullMatch(SizeBody, s)
  }

  predicate PosFormat(s: string) {
    FullMatch(PosBody, s)
  }

  /** A size the format accepts is exactly two positive numerals joined by 'x'. */
  lemma SizeBodyMeaning(s: string)
    ensures SizeBody(s) <==> exists w, h :: PositiveNumeral(w) && PositiveNumeral(h) && s == w + "x" + h
  {
    if SizeBody(s) {
      var pieces := Split(s, 'x');
      JoinSplit(s, 'x');
      assert s == pieces[0] + "x" + pieces[1];
    }
    if exists w, h :: PositiveNumeral(w) && PositiveNumeral(h) && s == w + "x" + h {
      var w, h :| PositiveNumeral(w) && PositiveNumeral(h) && s == w + "x" + h;
      NumeralSplit(w, h, 'x');
    }
  }

  /** A position the format accepts is exactly two numerals joined by '+'. */
  lemma PosBodyMeaning(s: string)
    ensures PosBody(s) <==> exists x, y :: IsDigits(x) && IsDigits(y) && s == x + "+" + y
  {
    if PosBody(s) {
      var pieces := Split(s, '+');
      JoinSplit(s, '+');
      assert s == pieces[0] + "+" + pieces[1];
    }
    if exists x, y :: IsDigits(x) && IsDigits(y) && s == x + "+" + y {
      var x, y :| IsDigits(x) && IsDigits(y) && s == x + "+" + y;
      NumeralSplit(x, y, '+');
    }
  }

  /** Splitting two numerals joined by a non-digit gives the two numerals. */
  lemma NumeralSplit(a: string, b: string, d: char)
    requires IsDigits(a) && IsDigits(b) && !IsDigit(d)
    ensures Split(a + [d] + b, d) == [a, b]
  {
    assert d !in a && d !in b;
    SplitJoin([a, b], d);
    assert Join([a, b], d) == a + [d] + Join([b], d);
  }

  /** Sizes written from two positive integers are accepted. */
  lemma SizeFormatOfNumbers(w: nat, h: nat)
    requires w > 0 && h > 0
    ensures SizeFormat(NatToString(w) + "x" + NatToString(h))
  {
    var a, b := NatToString(w), NatToString(h);
    NatToStringDigits(w);
    NatToStringDigits(h);
    NumeralSplit(a, b, 'x');
  }

  /** Positions written from two integers are accepted. */
  lemma PosFormatOfNumbers(x: nat, y: nat)
    ensures PosFormat(NatToString(x) + "+" + NatToString(y))
  {
    NatToStringDigits(x);
    NatToStringDigits(y);
    NumeralSplit(NatToString(x), NatToString(y), '+');
  }

  /** A leading zero in the width is refused. */
  lemma SizeRefusesLeadingZero(w: string, h: string)
    requires IsDigits(w) && IsDigits(h) && w[0] == '0'
    ensures !SizeBody(w + "x" + h)
  {
    NumeralSplit(w, h, 'x');
  }

  /** Like Python's `$`, the formats accept a value followed by one final newline. */
  lemma FormatsAllowFinalNewline(s: string)
    ensures SizeBody(s) ==> SizeFormat(s + "\n")
    ensures PosBody(s) ==> PosFormat(s + "\n")
  {
    assert (s + "\n")[..|s|] == s;
  }

  /** configparser.get with a fallback. */
  function GetOr(options: map<string, string>, key: string, fallback: string): string {
    if key in options then options[key] else fallback
  }

  /** What a loaded profile guarantees to the rest of the crop script. */
  predicate ValidCropProfile(p: CropProfile, existing: set<string>) {
    p.game in existing && p.core in existing && |p.sep| == 1 && SizeFormat(p.size) && PosFormat(p.pos)
  }

  /** The section names a game and a core, and both files exist. */
  predicate FilesFound(sec: ScreenshotProfiles.Section, existing: set<string>) {
    "game" in sec.options && "core" in sec.options
    && sec.options["game"] in existing && sec.options["core"] in existing
  }

  /**
   * The checks on one section, in the order the loader makes them: the game
   * and core options must be present, the game and core files must exist, the
   * separator must be one character, and size and position must have their
   * formats.
   */
  function CheckCropProfile(sec: ScreenshotProfiles.Section, defaults: Defaults, existing: set<string>)
    : (r: Result<CropProfile, Error>)
    ensures r.Success? <==>
      FilesFound(sec, existing) && |GetOr(sec.options, "sep", defaults.sep)| == 1
      && SizeFormat(GetOr(sec.options, "size", defaults.size)) && PosFormat(GetOr(sec.options, "pos", defaults.pos))
    ensures r.Success? ==> ValidCropProfile(r.value, existing)
    ensures r.Success? ==>
      r.value == CropProfile(sec.title, sec.options["game"], sec.options["core"],
                             GetOr(sec.options, "sep", defaults.sep), GetOr(sec.options, "size", defaults.size),
                             GetOr(sec.options, "pos", defaults.pos), sec.options)
    ensures "game" !in sec.options ==> r == Failure(NoOption(sec.title, "game"))
    ensures "game" in sec.options && "core" !in sec.options ==> r == Failure(NoOption(sec.title, "core"))
    ensures r.Failure? && r.error.FileNotFound? <==>
      "game" in sec.options && "core" in sec.options && !FilesFound(sec, existing)
    ensures r.Failure? && r.error.FileNotFound? ==>
      r.error.path == if sec.options["game"] !in existing then sec.options["game"] else sec.options["core"]
    ensures r.Failure? && r.error.InvalidValue? ==> FilesFound(sec, existing) && r.error.section == sec.title
    ensures FilesFound(sec, existing) ==>
      var sep, size, pos := GetOr(sec.options, "sep", defaults.sep), GetOr(sec.options, "size", defaults.size),
                            GetOr(sec.options, "pos", defaults.pos);
      (r == Failure(InvalidValue(sec.title, "sep", sep)) <==> |sep| != 1)
      && (r == Failure(InvalidValue(sec.title, "size", size)) <==> |sep| == 1 && !SizeFormat(size))
      && (r == Failure(InvalidValue(sec.title, "pos", pos)) <==> |sep| == 1 && SizeFormat(size) && !PosFormat(pos))
  {
    if "game" !in sec.options then Failure(NoOption(sec.title, "game"))
    else if "core" !in sec.options then Failure(NoOption(sec.title, "core"))
    else
      var game := sec.options["game"];
      var core := sec.options["core"];
      var sep := GetOr(sec.options, "sep", defaults.sep);
      var size := GetOr(sec.options, "size", defaults.size);
      var pos := GetOr(sec.options, "pos", defaults.pos);
      if game !in existing then Failure(FileNotFound(game))
      else if core !in existing then Failure(FileNotFound(core))
      else if |sep| != 1 then Failure(InvalidValue(sec.title, "sep", sep))
      else if !SizeFormat(size) then Failure(InvalidValue(sec.title, "size", size))
      else if !PosFormat(pos) then Failure(InvalidValue(sec.title, "pos", pos))
      else Success(CropProfile(sec.title, game, core, sep, size, pos, sec.options))
  }

  /** The position of the first section that fails its checks, or -1. */
  function FirstRejected(sections: seq<ScreenshotProfiles.Section>, defaults: Defaults, existing: set<string>): (i: int)
    ensures -1 <= i < |sections|
    ensures i >= 0 ==> CheckCropProfile(sections[i], defaults, existing).Failure?
    ensures forall k :: 0 <= k < |sections| && (i == -1 || k < i) ==>
      CheckCropProfile(sections[k], defaults, existing).Success?
    decreases |sections|
  {
    if |sections| == 0 then -1
    else if CheckCropProfile(sections[0], defaults, existing).Failure? then 0
    else
      var j := FirstRejected(sections[1..], defaults, existing);
      if j == -1 then -1 else j + 1
  }

  /**
   * games_from_gamelist of the crop script: every section checked in order,
   * its entry overwritten with the checked values; the first failing
   * section's error ends the load.
   */
  method GamesFromGamelist(sections: seq<ScreenshotProfiles.Section>, defaults: Defaults, existing: set<string>)
    returns (r: Result<seq<CropProfile>, Error>)
    ensures r.Failure? <==> FirstRejected(sections, defaults, existing) >= 0
    ensures r.Failure? ==>
      Failure(r.error) == CheckCropProfile(sections[FirstRejected(sections, defaults, existing)], defaults, existing)
    ensures r.Success? ==>
      |r.value| == |sections|
      && forall i :: 0 <= i < |sections| ==> Success(r.value[i]) == CheckCropProfile(sections[i], defaults, existing)
    ensures r.Success? ==>
      forall i :: 0 <= i < |r.value| ==> ValidCropProfile(r.value[i], existing) && r.value[i].title == sections[i].title
  {
    var games: seq<CropProfile> := [];
    for i := 0 to |sections|
      invariant |games| == i
      invariant forall k :: 0 <= k < i ==> Success(games[k]) == CheckCropProfile(sections[k], defaults, existing)
      invariant forall k :: 0 <= k < i ==> ValidCropProfile(games[k], existing) && games[k].title == sections[k].title
    {
      var checked := CheckCropProfile(sections[i], defaults, existing);
      if checked.Failure? {
        assert FirstRejected(sections, defaults, existing) == i;
        return Failure(checked.error);
      }
      games := games + [checked.value];
    }
    return Success(games);
  }

  /** A game list whose every section passes the checks loads without error. */
  lemma GamelistAccepted(sections: seq<ScreenshotProfiles.Section>, defaults: Defaults, existing: set<string>)
    requires forall i :: 0 <= i < |sections| ==>
      FilesFound(sections[i], existing) && |GetOr(sections[i].options, "sep", defaults.sep)| == 1
      && SizeFormat(GetOr(sections[i].options, "size", defaults.size))
      && PosFormat(GetOr(sections[i].options, "pos", defaults.pos))
    ensures FirstRejected(sections, defaults, existing) == -1
  {
  }
}
