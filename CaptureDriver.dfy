/**
 * The capture loop of the capture script: for every game and every shader,
 * RetroArch is run until the screenshot exists, at most `tries` times, and
 * the screenshots that appear are counted. Running RetroArch is recorded in a
 * trace of command lines; whether the screenshot exists is an input.
 */
module CaptureDriver {
  import opened Base
  import opened ScreenshotProfiles
  import opened CaptureCommands
  import ConfigComposer

  /**
   * The answers of the screenshot's existence test for one capture: before
   * the first attempt, and after each attempt in turn (false past the end).
   */
  datatype Observation = Observation(atEntry: bool, after: seq<bool>)

  /** The screenshot exists after attempt k. */
  predicate Appeared(obs: Observation, k: nat) {
    k < |obs.after| && obs.after[k]
  }

  /** The first attempt at or after `from` and below n after which the screenshot exists, or n. */
  function FirstAppearance(obs: Observation, from: nat, n: nat): (k: nat)
    requires from <= n
    ensures from <= k <= n
    decreases n - from
  {
    if from == n then n
    else if Appeared(obs, from) then from
    else FirstAppearance(obs, from + 1, n)
  }

  /** The attempt found is one after which the screenshot exists, and it does after none before it. */
  lemma {:induction false} FirstAppearanceIsFirst(obs: Observation, from: nat, n: nat)
    requires from <= n
    ensures var k := FirstAppearance(obs, from, n);
      (k < n ==> Appeared(obs, k)) && forall j :: from <= j < k ==> !Appeared(obs, j)
    decreases n - from
  {
    if from < n && !Appeared(obs, from) {
      FirstAppearanceIsFirst(obs, from + 1, n);
    }
  }

  /**
   * How many times one capture runs RetroArch: none when `tries` is not
   * positive or the screenshot exists already (and is not forced); otherwise
   * until the screenshot appears, and `tries` times if it never does.
   */
  function Attempts(tries: int, force: bool, obs: Observation): (n: nat)
    ensures n <= if tries <= 0 then 0 else tries
  {
    if tries <= 0 || (!force && obs.atEntry) then 0
    else
      var k := FirstAppearance(obs, 0, tries);
      if k < tries then k + 1 else tries
  }

  /**
   * No run unless tries is positive and the screenshot is missing or forced;
   * otherwise the runs stop right after the first one after which the
   * screenshot exists, and all `tries` runs happen if it never does.
   */
  lemma AttemptsMeaning(tries: int, force: bool, obs: Observation)
    ensures var n := Attempts(tries, force, obs);
      (tries <= 0 || (!force && obs.atEntry) ==> n == 0)
      && (forall k :: 0 <= k < n - 1 ==> !Appeared(obs, k))
      && (tries > 0 && (force || !obs.atEntry) ==> n > 0 && (n == tries || Appeared(obs, n - 1)))
      && (tries > 0 && (force || !obs.atEntry) && (forall k :: 0 <= k < tries ==> !Appeared(obs, k)) ==> n == tries)
  {
    if tries > 0 {
      FirstAppearanceIsFirst(obs, 0, tries);
    }
  }

  /** One capture counts exactly when it ran RetroArch and the screenshot existed after the last run. */
  predicate Captured(tries: int, force: bool, obs: Observation) {
    var n := Attempts(tries, force, obs);
    n > 0 && Appeared(obs, n - 1)
  }

  /** The same command n times. */
  function Repeat(command: seq<string>, n: nat): (r: seq<seq<string>>)
    ensures |r| == n
  {
    if n == 0 then [] else Repeat(command, n - 1) + [command]
  }

  /** Every entry of the repetition is the command. */
  lemma {:induction false} RepeatAll(command: seq<string>, n: nat)
    ensures forall i :: 0 <= i < n ==> Repeat(command, n)[i] == command
  {
    if n > 0 {
      RepeatAll(command, n - 1);
    }
  }

  /**
   * The retry loop of one capture: stop when the screenshot exists (unless
   * forced), otherwise run RetroArch and stop as soon as the screenshot
   * exists afterwards.
   */
  method Capture(command: seq<string>, tries: int, force: bool, obs: Observation)
    returns (invocations: seq<seq<string>>, created: bool)
    ensures invocations == Repeat(command, Attempts(tries, force, obs))
    ensures created == Captured(tries, force, obs)
  {
    invocations := [];
    var k := 0;
    while k < tries
      invariant 0 <= k <= (if tries > 0 then tries else 0)
      invariant invocations == Repeat(command, k)
      invariant !force && obs.atEntry ==> k == 0
      invariant forall j :: 0 <= j < k ==> !Appeared(obs, j)
    {
      var present := if k == 0 then obs.atEntry else Appeared(obs, k - 1);
      if !force && present {
        return invocations, false;
      }
      invocations := invocations + [command];
      if Appeared(obs, k) {
        FirstAppearanceIsFirst(obs, 0, tries);
        assert FirstAppearance(obs, 0, tries) == k;
        return invocations, true;
      }
      k := k + 1;
    }
    if tries > 0 {
      assert k == tries;
      FirstAppearanceIsFirst(obs, 0, tries);
      assert FirstAppearance(obs, 0, tries) == tries;
      assert Attempts(tries, force, obs) == k;
    }
    return invocations, false;
  }

  /** The settings the capture loop reads. */
  datatype Settings = Settings(tempconfig: string, shaderdir: string, outputdir: string, tries: int, force: bool)

  /** A run so far: the commands run, the screenshots created, and the error that ended it, if any. */
  datatype Run = Run(trace: seq<seq<string>>, created: nat, failure: Option<Error>)

  /** A run followed by another, unless the first one ended in an error. */
  function Then(a: Run, b: Run): Run {
    if a.failure.Some? then a else Run(a.trace + b.trace, a.created + b.created, b.failure)
  }

  /** One game and one shader: a path outside the shader root aborts, otherwise the retry loop runs. */
  function JobRun(s: Settings, p: Profile, shader: string, obs: Observation): Run {
    match ScreenshotCommand(shader, s.shaderdir, s.outputdir, p.title, p.sep)
    case Failure(e) => Run([], 0, Some(e))
    case Success(sc) =>
      var command := CaptureCommand(s.tempconfig, shader, sc.1, p);
      Run(Repeat(command, Attempts(s.tries, s.force, obs)), if Captured(s.tries, s.force, obs) then 1 else 0, None)
  }

  /**
   * One game and one shader: a shader outside the shader root gives its
   * NotRelative error and runs nothing; otherwise RetroArch runs as often as
   * the retry loop says, every time with the capture command for the
   * screenshot path, and at most one screenshot counts, exactly when it
   * appeared after the last run.
   */
  lemma JobRunMeaning(s: Settings, p: Profile, shader: string, obs: Observation)
    ensures var r := JobRun(s, p, shader, obs);
      (r.failure.Some? <==> !(s.shaderdir + "/" <= shader && |shader| > |s.shaderdir| + 1))
      && (r.failure.Some? ==> r == Run([], 0, Some(NotRelative(shader, s.shaderdir))))
      && (r.failure.None? ==>
            var path := ScreenshotPath(shader, s.shaderdir, s.outputdir, p.title, p.sep).value;
            var n := Attempts(s.tries, s.force, obs);
            |r.trace| == n && r.created <= 1
            && (r.created == 1 <==> n > 0 && Appeared(obs, n - 1))
            && forall i :: 0 <= i < n ==> r.trace[i] == CaptureCommand(s.tempconfig, shader, path, p))
  {
    ScreenshotPathMeaning(shader, s.shaderdir, s.outputdir, p.title, p.sep);
    var sc := ScreenshotCommand(shader, s.shaderdir, s.outputdir, p.title, p.sep);
    if sc.Success? {
      RepeatAll(CaptureCommand(s.tempconfig, shader, sc.value.1, p), Attempts(s.tries, s.force, obs));
    }
  }

  /** A capture whose screenshot path could be built runs its command as the retry loop says. */
  lemma JobRunCaptures(s: Settings, p: Profile, shader: string, obs: Observation, path: string,
                       invocations: seq<seq<string>>, created: bool)
    requires ScreenshotCommand(shader, s.shaderdir, s.outputdir, p.title, p.sep).Success?
    requires path == ScreenshotCommand(shader, s.shaderdir, s.outputdir, p.title, p.sep).value.1
    requires invocations == Repeat(CaptureCommand(s.tempconfig, shader, path, p), Attempts(s.tries, s.force, obs))
    requires created == Captured(s.tries, s.force, obs)
    ensures JobRun(s, p, shader, obs) == Run(invocations, if created then 1 else 0, None)
  {
  }

  /** The first n shaders for the game at position g. */
  function TitleRun(s: Settings, p: Profile, g: nat, shaders: seq<string>, world: (nat, nat) -> Observation, n: nat): Run
    requires n <= |shaders|
  {
    if n == 0 then Run([], 0, None)
    else Then(TitleRun(s, p, g, shaders, world, n - 1), JobRun(s, p, shaders[n - 1], world(g, n - 1)))
  }

  /** The first m games, each with every shader. */
  function AllRun(s: Settings, games: seq<Profile>, shaders: seq<string>, world: (nat, nat) -> Observation, m: nat): Run
    requires m <= |games|
  {
    if m == 0 then Run([], 0, None)
    else Then(AllRun(s, games, shaders, world, m - 1), TitleRun(s, games[m - 1], m - 1, shaders, world, |shaders|))
  }

  /** After an error nothing more runs. */
  lemma {:induction false} TitleRunStops(s: Settings, p: Profile, g: nat, shaders: seq<string>,
                                         world: (nat, nat) -> Observation, n: nat, m: nat)
    requires n <= m <= |shaders| && TitleRun(s, p, g, shaders, world, n).failure.Some?
    ensures TitleRun(s, p, g, shaders, world, m) == TitleRun(s, p, g, shaders, world, n)
    decreases m
  {
    if m > n {
      TitleRunStops(s, p, g, shaders, world, n, m - 1);
    }
  }

  lemma {:induction false} AllRunStops(s: Settings, games: seq<Profile>, shaders: seq<string>,
                                       world: (nat, nat) -> Observation, n: nat, m: nat)
    requires n <= m <= |games| && AllRun(s, games, shaders, world, n).failure.Some?
    ensures AllRun(s, games, shaders, world, m) == AllRun(s, games, shaders, world, n)
    decreases m
  {
    if m > n {
      AllRunStops(s, games, shaders, world, n, m - 1);
    }
  }

  /**
   * The body of the shader loop: build the screenshot path and the command
   * from the base and game parts, and run the retry loop; a shader outside
   * the shader root gives the error instead.
   */
  method CaptureShader(s: Settings, p: Profile, shader: string, obs: Observation,
                       base: seq<string>, gameCommand: seq<string>) returns (job: Run)
    requires base == BaseCommand(s.tempconfig) && gameCommand == GameCommand(p)
    ensures job == JobRun(s, p, shader, obs)
  {
    var screenshot := ScreenshotCommand(shader, s.shaderdir, s.outputdir, p.title, p.sep);
    if screenshot.Failure? {
      return Run([], 0, Some(screenshot.error));
    }
    var path := screenshot.value.1;
    var command := base + ["--set-shader", shader] + screenshot.value.0 + gameCommand;
    assert command == CaptureCommand(s.tempconfig, shader, path, p);
    var invocations, created := Capture(command, s.tries, s.force, obs);
    JobRunCaptures(s, p, shader, obs, path, invocations, created);
    job := Run(invocations, if created then 1 else 0, None);
  }

  /**
   * The inner loop of main for one game: every shader in order, building the
   * screenshot path and the command and running the retry loop; a shader
   * outside the shader root ends the run.
   */
  method CaptureTitle(s: Settings, p: Profile, g: nat, shaders: seq<string>, world: (nat, nat) -> Observation)
    returns (run: Run)
    ensures run == TitleRun(s, p, g, shaders, world, |shaders|)
  {
    run := Run([], 0, None);
    var base := BaseCommand(s.tempconfig);
    var gameCommand := GameCommand(p);
    for j := 0 to |shaders|
      invariant run == TitleRun(s, p, g, shaders, world, j) && run.failure.None?
    {
      var job := CaptureShader(s, p, shaders[j], world(g, j), base, gameCommand);
      run := Then(run, job);
      if job.failure.Some? {
        TitleRunStops(s, p, g, shaders, world, j + 1, |shaders|);
        return;
      }
    }
  }

  /**
   * main's loops: every game in order, each with every shader, counting the
   * screenshots created; the first error ends the run.
   */
  method CaptureAll(s: Settings, games: seq<Profile>, shaders: seq<string>, world: (nat, nat) -> Observation)
    returns (run: Run)
    ensures run == AllRun(s, games, shaders, world, |games|)
  {
    run := Run([], 0, None);
    for i := 0 to |games|
      invariant run == AllRun(s, games, shaders, world, i) && run.failure.None?
    {
      var titleRun := CaptureTitle(s, games[i], i, shaders, world);
      run := Then(run, titleRun);
      if titleRun.failure.Some? {
        AllRunStops(s, games, shaders, world, i + 1, |games|);
        return;
      }
    }
  }

  /** Bounds on two runs add up over the run of both. */
  lemma ThenBounds(a: Run, b: Run, ca: int, cb: int, ta: int, tb: int)
    requires a.created <= ca && b.created <= cb && |a.trace| <= ta && |b.trace| <= tb
    requires 0 <= cb && 0 <= tb
    ensures Then(a, b).created <= ca + cb && |Then(a, b).trace| <= ta + tb
  {
  }

  lemma MulStep(m: nat, x: nat)
    requires m > 0
    ensures m * x == (m - 1) * x + x
  {
  }

  /** One game and one shader create at most one screenshot and run RetroArch at most `tries` times. */
  lemma JobRunBounds(s: Settings, p: Profile, shader: string, obs: Observation)
    ensures JobRun(s, p, shader, obs).created <= 1
    ensures |JobRun(s, p, shader, obs).trace| <= if s.tries <= 0 then 0 else s.tries
  {
    JobRunMeaning(s, p, shader, obs);
  }

  /** Each game and shader adds at most one screenshot and at most `tries` runs of RetroArch. */
  lemma {:induction false} TitleRunBounds(s: Settings, p: Profile, g: nat, shaders: seq<string>,
                                          world: (nat, nat) -> Observation, n: nat)
    requires n <= |shaders|
    ensures TitleRun(s, p, g, shaders, world, n).created <= n
    ensures |TitleRun(s, p, g, shaders, world, n).trace| <= n * (if s.tries <= 0 then 0 else s.tries)
    decreases n
  {
    if n > 0 {
      TitleRunBounds(s, p, g, shaders, world, n - 1);
      var t := if s.tries <= 0 then 0 else s.tries;
      JobRunBounds(s, p, shaders[n - 1], world(g, n - 1));
      ThenBounds(TitleRun(s, p, g, shaders, world, n - 1), JobRun(s, p, shaders[n - 1], world(g, n - 1)),
                 n - 1, 1, (n - 1) * t, t);
      MulStep(n, t);
    }
  }

  /** The whole run creates at most one screenshot per game and shader. */
  lemma {:induction false} AllRunBounds(s: Settings, games: seq<Profile>, shaders: seq<string>,
                                        world: (nat, nat) -> Observation, m: nat)
    requires m <= |games|
    ensures AllRun(s, games, shaders, world, m).created <= m * |shaders|
    ensures |AllRun(s, games, shaders, world, m).trace| <= m * (|shaders| * if s.tries <= 0 then 0 else s.tries)
    decreases m
  {
    if m > 0 {
      var n := |shaders|;
      var nt := n * if s.tries <= 0 then 0 else s.tries;
      AllRunBounds(s, games, shaders, world, m - 1);
      TitleRunBounds(s, games[m - 1], m - 1, shaders, world, n);
      ThenBounds(AllRun(s, games, shaders, world, m - 1), TitleRun(s, games[m - 1], m - 1, shaders, world, n),
                 (m - 1) * n, n, (m - 1) * nt, nt);
      MulStep(m, n);
      MulStep(m, nt);
    }
  }

  /** What main reads from disk before the captures: the game list, the files that exist, the configuration files. */
  datatype Inputs = Inputs(sections: seq<Section>, defaults: Defaults, existing: set<string>,
                           basefile: string, appendfiles: seq<string>, window: Option<string>,
                           statesdir: string, statesExists: bool, files: map<string, seq<string>>)

  /**
   * main: load the game list, write the temporary configuration, then run the
   * capture loops. A rejected game list ends the script before the
   * configuration is written, and a configuration error before anything runs.
   */
  method ScreenshotMain(input: Inputs, s: Settings, shaders: seq<string>, world: (nat, nat) -> Observation)
    returns (r: Result<(seq<Profile>, seq<string>, Run), Error>)
    ensures var rejected := FirstRejected(input.sections, input.defaults, input.existing);
      rejected >= 0 ==>
        r.Failure? && Failure(r.error) == CheckProfile(input.sections[rejected], input.defaults, input.existing)
    ensures var config := ConfigComposer.ComposeConfig(input.basefile, input.appendfiles, input.window,
                                                      input.statesdir, input.statesExists, input.files);
      FirstRejected(input.sections, input.defaults, input.existing) == -1 ==>
        (config.Failure? ==> r == Failure(config.error))
        && (config.Success? ==> r.Success? && r.value.1 == config.value)
    ensures r.Success? ==>
      var games := r.value.0;
      |games| == |input.sections|
      && (forall i :: 0 <= i < |games| ==> Success(games[i]) == CheckProfile(input.sections[i], input.defaults, input.existing))
      && r.value.2 == AllRun(s, games, shaders, world, |games|)
  {
    var games := GamesFromGamelist(input.sections, input.defaults, input.existing);
    if games.Failure? {
      return Failure(games.error);
    }
    var config := ConfigComposer.FillTempconfigContent(input.basefile, input.appendfiles, input.window,
                                                       input.statesdir, input.statesExists, input.files);
    if config.Failure? {
      return Failure(config.error);
    }
    var run := CaptureAll(s, games.value, shaders, world);
    return Success((games.value, config.value, run));
  }
}
