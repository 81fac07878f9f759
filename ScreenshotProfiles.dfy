/**
 * Loading the game profiles of the capture script: every section of the game
 * list names a game and a core file, and may override the save-state slot,
 * the number of frames to run and the path separator. A section that fails a
 * check aborts the whole load.
 */
module ScreenshotProfiles {
  import opened Base
  import opened Strings

  /** One section of the game list: its title and its raw options. */
  datatype Section = Section(title: string, options: map<string, string>)

  /** The command-line values that stand in for options a section leaves out. */
  datatype Defaults = Defaults(slot: int, frames: int, sep: string)

  /**
   * A loaded profile: the raw options of the section with the five checked
   * values stored over them.
   */
  datatype Profile = Profile(title: string, game: string, core: string, slot: int, frames: int,
                             sep: string, options: map<string, string>)

  /** configparser.get with a fallback. */
  function GetOr(options: map<string, string>, key: string, fallback: string): string {
    if key in options then options[key] else fallback
  }

  /** configparser.getint with a fallback: the fallback, the parsed value, or a ValueError. */
  function GetIntOr(sec: Section, key: string, fallback: int): (r: Result<int, Error>)
    ensures key !in sec.options ==> r == Success(fallback)
    ensures key in sec.options ==>
      (r.Success? <==> ParseInt(sec.options[key]).Some?)
      && (r.Success? ==> r.value == ParseInt(sec.options[key]).value)
      && (r.Failure? ==> r.error == NotAnInteger(sec.title, key, sec.options[key]))
  {
    if key !in sec.options then Success(fallback)
    else match ParseInt(sec.options[key])
      case None => Failure(NotAnInteger(sec.title, key, sec.options[key]))
      case Some(v) => Success(v)
  }

  /** What a loaded profile guarantees to the rest of the script. */
  predicate ValidProfile(p: Profile, existing: set<string>) {
    p.game in existing && p.core in existing
    && 1 <= p.slot <= 9 && 0 <= p.frames <= 999 && |p.sep| == 1
  }

  /** The section names a game and a core, and its slot and frames (or their defaults) are integers. */
  predicate Parsed(sec: Section, defaults: Defaults) {
    "game" in sec.options && "core" in sec.options
    && GetIntOr(sec, "slot", defaults.slot).Success? && GetIntOr(sec, "frames", defaults.frames).Success?
  }

  /** The section parses and the game and core files exist. */
  predicate FilesFound(sec: Section, defaults: Defaults, existing: set<string>) {
    Parsed(sec, defaults) && sec.options["game"] in existing && sec.options["core"] in existing
  }

  /** The slot of a parsed section lies in 1..9. */
  predicate SlotInRange(sec: Section, defaults: Defaults)
    requires Parsed(sec, defaults)
  {
    1 <= GetIntOr(sec, "slot", defaults.slot).value <= 9
  }

  /** The frame count of a parsed section lies in 0..999. */
  predicate FramesInRange(sec: Section, defaults: Defaults)
    requires Parsed(sec, defaults)
  {
    0 <= GetIntOr(sec, "frames", defaults.frames).value <= 999
  }

  /**
   * The checks on one section, in the order the loader makes them: the game
   * and core options must be present, slot and frames must be integers, the
   * game and core files must exist, the slot must lie in 1..9, the frame count
   * in 0..999, and the separator must be one character.
   */
  function CheckProfile(sec: Section, defaults: Defaults, existing: set<string>): (r: Result<Profile, Error>)
    ensures r.Success? <==>
      FilesFound(sec, defaults, existing) && SlotInRange(sec, defaults) && FramesInRange(sec, defaults)
      && |GetOr(sec.options, "sep", defaults.sep)| == 1
    ensures r.Success? ==> ValidProfile(r.value, existing)
    ensures r.Success? ==>
      r.value.title == sec.title && r.value.options == sec.options
      && r.value.game == sec.options["game"] && r.value.core == sec.options["core"]
      && Success(r.value.slot) == GetIntOr(sec, "slot", defaults.slot)
      && Success(r.value.frames) == GetIntOr(sec, "frames", defaults.frames)
      && r.value.sep == GetOr(sec.options, "sep", defaults.sep)
    ensures "game" !in sec.options ==> r == Failure(NoOption(sec.title, "game"))
    ensures "game" in sec.options && "core" !in sec.options ==> r == Failure(NoOption(sec.title, "core"))
    ensures r.Failure? && r.error.NotAnInteger? <==>
      "game" in sec.options && "core" in sec.options && !Parsed(sec, defaults)
    ensures "game" in sec.options && "core" in sec.options && GetIntOr(sec, "slot", defaults.slot).Failure? ==>
      r == Failure(NotAnInteger(sec.title, "slot", sec.options["slot"]))
    ensures "game" in sec.options && "core" in sec.options && GetIntOr(sec, "slot", defaults.slot).Success?
            && GetIntOr(sec, "frames", defaults.frames).Failure? ==>
      r == Failure(NotAnInteger(sec.title, "frames", sec.options["frames"]))
    ensures r.Failure? && r.error.FileNotFound? <==>
      Parsed(sec, defaults) && !FilesFound(sec, defaults, existing)
    ensures r.Failure? && r.error.FileNotFound? ==>
      r.error.path == if sec.options["game"] !in existing then sec.options["game"] else sec.options["core"]
    ensures r.Failure? && r.error.InvalidValue? ==> FilesFound(sec, defaults, existing)
    ensures FilesFound(sec, defaults, existing) ==>
      (r.Failure? && r.error.InvalidValue? && r.error.option == "slot" <==> !SlotInRange(sec, defaults))
      && (r.Failure? && r.error.InvalidValue? && r.error.option == "frames" <==>
            SlotInRange(sec, defaults) && !FramesInRange(sec, defaults))
      && (r.Failure? && r.error.InvalidValue? && r.error.option == "sep" <==>
            SlotInRange(sec, defaults) && FramesInRange(sec, defaults) && |GetOr(sec.options, "sep", defaults.sep)| != 1)
    ensures r.Failure? && r.error.InvalidValue? ==> r.error.section == sec.title
  {
    if "game" !in sec.options then Failure(NoOption(sec.title, "game"))
    else if "core" !in sec.options then Failure(NoOption(sec.title, "core"))
    else
      var game := sec.options["game"];
      var core := sec.options["core"];
      match GetIntOr(sec, "slot", defaults.slot)
      case Failure(e) => Failure(e)
      case Success(slot) =>
        match GetIntOr(sec, "frames", defaults.frames)
        case Failure(e) => Failure(e)
        case Success(frames) =>
          var sep := GetOr(sec.options, "sep", defaults.sep);
          if game !in existing then Failure(FileNotFound(game))
          else if core !in existing then Failure(FileNotFound(core))
          else if !(1 <= slot <= 9) then Failure(InvalidValue(sec.title, "slot", IntToString(slot)))
          else if !(0 <= frames <= 999) then Failure(InvalidValue(sec.title, "frames", IntToString(frames)))
          else if |sep| != 1 then Failure(InvalidValue(sec.title, "sep", sep))
          else Success(Profile(sec.title, game, core, slot, frames, sep, sec.options))
  }

  /** The position of the first section that fails its checks, or -1. */
  function FirstRejected(sections: seq<Section>, defaults: Defaults, existing: set<string>): (i: int)
    ensures -1 <= i < |sections|
    ensures i >= 0 ==> CheckProfile(sections[i], defaults, existing).Failure?
    ensures forall k :: 0 <= k < |sections| && (i == -1 || k < i) ==>
      CheckProfile(sections[k], defaults, existing).Success?
    decreases |sections|
  {
    if |sections| == 0 then -1
    else if CheckProfile(sections[0], defaults, existing).Failure? then 0
    else
      var j := FirstRejected(sections[1..], defaults, existing);
      if j == -1 then -1 else j + 1
  }

  /**
   * games_from_gamelist: every section checked in order, its entry overwritten
   * with the checked values; the first failing section's error ends the load.
   */
  method GamesFromGamelist(sections: seq<Section>, defaults: Defaults, existing: set<string>)
    returns (r: Result<seq<Profile>, Error>)
    ensures r.Failure? <==> FirstRejected(sections, defaults, existing) >= 0
    ensures r.Failure? ==>
      Failure(r.error) == CheckProfile(sections[FirstRejected(sections, defaults, existing)], defaults, existing)
    ensures r.Success? ==>
      |r.value| == |sections|
      && forall i :: 0 <= i < |sections| ==> Success(r.value[i]) == CheckProfile(sections[i], defaults, existing)
    ensures r.Success? ==>
      forall i :: 0 <= i < |r.value| ==> ValidProfile(r.value[i], existing) && r.value[i].title == sections[i].title
  {
    var games: seq<Profile> := [];
    for i := 0 to |sections|
      invariant |games| == i
      invariant forall k :: 0 <= k < i ==> Success(games[k]) == CheckProfile(sections[k], defaults, existing)
    {
      var checked := CheckProfile(sections[i], defaults, existing);
      if checked.Failure? {
        assert FirstRejected(sections, defaults, existing) == i;
        return Failure(checked.error);
      }
      games := games + [checked.value];
    }
    return Success(games);
  }

  /** A game list whose every section passes the checks loads without error. */
  lemma GamelistAccepted(sections: seq<Section>, defaults: Defaults, existing: set<string>)
    requires forall i :: 0 <= i < |sections| ==>
      FilesFound(sections[i], defaults, existing) && SlotInRange(sections[i], defaults)
      && FramesInRange(sections[i], defaults) && |GetOr(sections[i].options, "sep", defaults.sep)| == 1
    ensures FirstRejected(sections, defaults, existing) == -1
  {
  }

  /** A section without slot, frames and sep takes the command-line values. */
  lemma DefaultsApply(sec: Section, defaults: Defaults, existing: set<string>)
    requires "slot" !in sec.options && "frames" !in sec.options && "sep" !in sec.options
    requires CheckProfile(sec, defaults, existing).Success?
    ensures var p := CheckProfile(sec, defaults, existing).value;
      p.slot == defaults.slot && p.frames == defaults.frames && p.sep == defaults.sep
  {
  }

  /** The game option is checked before everything else, the game file before the core file. */
  lemma CheckOrderExample(existing: set<string>)
    requires "g" !in existing && "c" !in existing
    ensures CheckProfile(Section("T", map["core" := "c", "slot" := "x"]), Defaults(1, 5, "/"), existing)
         == Failure(NoOption("T", "game"))
    ensures CheckProfile(Section("T", map["game" := "g", "core" := "c", "slot" := "0"]), Defaults(1, 5, "/"), existing)
         == Failure(FileNotFound("g"))
  {
  }
}
