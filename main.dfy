/** The program driver (src/main.rs): command-line parsing, the startup checks
    that normalise the configuration, the per-cycle choice between the local
    and the remote source, and the decisions `setFromUrl` and `setFromFile`
    take. One iteration of the endless loop is modelled, not the loop.

    The outside world (temporary directory, HTTP, image decoding, the
    wallpaper library, the clock) enters as the results it returns, gathered in
    an environment value per routine; a routine's observable behaviour is the
    trace of outside calls it makes and how it exits. */
module App {
  import opened Common
  import opened Config
  import opened Metadata

  // ---------------------------------------------------------------------
  // Command-line arguments
  // ---------------------------------------------------------------------

  const DefaultConfigPath := "./config.yaml"

  predicate IsConfigFlag(arg: string)
  {
    arg == "--config" || arg == "-c"
  }

  /** How the argument loop ends: `--help` prints the help text and exits; a
      config flag in last position indexes past the end of the arguments. */
  datatype Args = ShowHelp | UseConfig(path: string) | IndexOutOfBounds

  /** The argument following the last config flag that has a successor, or
      the empty string when there is none; read from the back. */
  function LastFlagValue(args: seq<string>): string
  {
    if |args| < 2 then ""
    else if IsConfigFlag(args[|args| - 2]) then args[|args| - 1]
    else LastFlagValue(args[..|args| - 1])
  }

  /** What the argument loop of `main` decides for the whole argument list
      (program name included). */
  function ArgsOutcome(args: seq<string>): Args
  {
    if "--help" in args then ShowHelp
    else if |args| > 0 && IsConfigFlag(args[|args| - 1]) then IndexOutOfBounds
    else
      var value := LastFlagValue(args);
      UseConfig(if value == "" then DefaultConfigPath else value)
  }

  /** The argument loop of `main` and the default for the config path. */
  method ParseArgs(args: seq<string>) returns (r: Args)
    ensures r == ArgsOutcome(args)
  {
    var i := 0;
    var cfPath := "";
    for j := 0 to |args|
      invariant i == j
      invariant "--help" !in args[..j]
      invariant 0 < j && IsConfigFlag(args[j - 1]) ==> j < |args|
      invariant cfPath == LastFlagValue(args[..if j < |args| then j + 1 else j])
    {
      var arg := args[j];
      i := i + 1;
      if arg == "--help" {
        return ShowHelp;
      }
      if IsConfigFlag(arg) {
        if i >= |args| {
          assert args == args[..j] + [arg];
          return IndexOutOfBounds;
        }
        cfPath := args[i];
        assert args[..j + 2][..j + 1] == args[..j + 1];
      } else if j + 1 < |args| {
        assert args[..j + 2][..j + 1] == args[..j + 1];
      }
      assert args[..j + 1] == args[..j] + [arg];
    }
    assert args[..|args|] == args;
    if cfPath == "" {
      cfPath := DefaultConfigPath;
    }
    return UseConfig(cfPath);
  }

  /** Without any config flag the default path is used. */
  lemma {:induction false} NoFlagMeansDefault(args: seq<string>)
    requires "--help" !in args
    requires forall k :: 0 <= k < |args| ==> !IsConfigFlag(args[k])
    ensures ArgsOutcome(args) == UseConfig(DefaultConfigPath)
  {
    NoFlagNoValue(args);
  }

  lemma {:induction false} NoFlagNoValue(args: seq<string>)
    requires forall k :: 0 <= k < |args| - 1 ==> !IsConfigFlag(args[k])
    ensures LastFlagValue(args) == ""
    decreases |args|
  {
    if |args| >= 2 {
      NoFlagNoValue(args[..|args| - 1]);
    }
  }

  /** The argument right after the LAST config flag wins. */
  lemma {:induction false} LastFlagWins(args: seq<string>, k: nat)
    requires k + 1 < |args| && IsConfigFlag(args[k])
    requires forall m :: k < m < |args| - 1 ==> !IsConfigFlag(args[m])
    ensures LastFlagValue(args) == args[k + 1]
    decreases |args|
  {
    if k + 2 < |args| {
      LastFlagWins(args[..|args| - 1], k);
    }
  }

  /** Put together: without `--help` and with a non-empty value after the last
      flag, that value is the config path. */
  lemma LastFlagIsConfigPath(args: seq<string>, k: nat)
    requires "--help" !in args
    requires k + 1 < |args| && IsConfigFlag(args[k]) && args[k + 1] != ""
    requires forall m :: k < m < |args| ==> !IsConfigFlag(args[m])
    ensures ArgsOutcome(args) == UseConfig(args[k + 1])
  {
    LastFlagWins(args, k);
  }

  /** A config flag in last position always ends in the out-of-bounds panic,
      unless `--help` comes first. */
  lemma TrailingFlagPanics(args: seq<string>)
    requires "--help" !in args
    requires |args| > 0 && IsConfigFlag(args[|args| - 1])
    ensures ArgsOutcome(args) == IndexOutOfBounds
  {
  }

  // ---------------------------------------------------------------------
  // Startup checks and normalisation
  // ---------------------------------------------------------------------

  const DefaultLandscapeCoef := 1.2
  const MinInterval := 10

  /** The landscape coefficient the program works with: kept when in
      [1.0, 3.0), the default otherwise. */
  function NormalisedCoef(coef: real): (r: real)
    ensures 1.0 <= r < 3.0
  {
    if 1.0 <= coef < 3.0 then coef else DefaultLandscapeCoef
  }

  /** The interval the program works with: never below ten seconds. */
  function NormalisedInterval(interval: u32): (r: u32)
    ensures r >= MinInterval
    ensures interval >= MinInterval ==> r == interval
    ensures interval < MinInterval ==> r == MinInterval
  {
    if interval < MinInterval then MinInterval else interval
  }

  /** The configuration after the startup corrections. */
  function Normalised(c: Config): (r: Config)
    ensures 1.0 <= r.conf.local.landscapeCoef < 3.0
    ensures r.conf.global.interval >= MinInterval
    ensures r.conf.online == c.conf.online
    ensures r.conf.local == c.conf.local.(landscapeCoef := r.conf.local.landscapeCoef)
    ensures r.conf.global == c.conf.global.(interval := r.conf.global.interval)
  {
    var local := c.conf.local.(landscapeCoef := NormalisedCoef(c.conf.local.landscapeCoef));
    var global := c.conf.global.(interval := NormalisedInterval(c.conf.global.interval));
    c.(conf := c.conf.(local := local, global := global))
  }

  /** Both corrections are idempotent. */
  lemma NormalisedIdempotent(c: Config)
    ensures Normalised(Normalised(c)) == Normalised(c)
  {
  }

  /** An in-range coefficient is kept, and an out-of-range coefficient becomes
      exactly 1.2. */
  lemma NormalisedCoefCases(coef: real)
    ensures 1.0 <= coef < 3.0 ==> NormalisedCoef(coef) == coef
    ensures coef < 1.0 || coef >= 3.0 ==> NormalisedCoef(coef) == 1.2
  {
  }

  /** The startup part of `main` after loading the configuration: exit when
      both modes are disabled, then correct the landscape coefficient and the
      interval in place. `None` is the exit with status 1. */
  method Startup(configs: Config) returns (r: Option<Config>)
    ensures r.None? <==> !configs.conf.global.useDirectory && !configs.conf.global.useUrls
    ensures r.Some? ==> r.value == Normalised(configs)
  {
    if !configs.conf.global.useDirectory && !configs.conf.global.useUrls {
      return None;
    }
    var c := configs;
    if c.conf.local.landscapeCoef < 1.0 {
      c := c.(conf := c.conf.(local := c.conf.local.(landscapeCoef := 1.2)));
    } else if c.conf.local.landscapeCoef >= 3.0 {
      c := c.(conf := c.conf.(local := c.conf.local.(landscapeCoef := 1.2)));
    }
    if c.conf.global.interval < 10 {
      c := c.(conf := c.conf.(global := c.conf.global.(interval := 10)));
    }
    return Some(c);
  }

  // ---------------------------------------------------------------------
  // Mode arbitration
  // ---------------------------------------------------------------------

  datatype Choice = FromUrl | FromFile | Neither

  /** The branch at the top of the loop. `chance` is the draw from 0..100,
      consulted only when both modes are enabled. */
  function Arbitrate(useDirectory: bool, useUrls: bool, chance: int): (c: Choice)
    requires 0 <= chance < 100
    ensures !useDirectory && useUrls ==> c == FromUrl
    ensures useDirectory && !useUrls ==> c == FromFile
    ensures !useDirectory && !useUrls ==> c == Neither
    ensures useDirectory && useUrls ==>
              (c == FromFile <==> 1 <= chance <= 50) &&
              (c == FromUrl <==> 51 <= chance <= 99) &&
              (c == Neither <==> chance == 0)
  {
    if !useDirectory && useUrls then FromUrl
    else if useDirectory && !useUrls then FromFile
    else if useDirectory && useUrls then
      if chance > 0 && chance < 51 then FromFile
      else if chance > 50 && chance < 101 then FromUrl
      else Neither
    else Neither
  }

  /** The integers from `lo` up to, not including, `hi`. */
  function Range(lo: int, hi: int): (r: set<int>)
    ensures forall x :: x in r <==> lo <= x < hi
    ensures |r| == if lo <= hi then hi - lo else 0
    decreases hi - lo
  {
    if lo >= hi then {} else {lo} + Range(lo + 1, hi)
  }

  /** The draws from 0..100 that make the mixed-mode arbiter choose `c`. */
  function DrawsFor(c: Choice): set<int>
  {
    set x | 0 <= x < 100 && Arbitrate(true, true, x) == c
  }

  /** In mixed mode, of the 100 possible draws 50 choose the directory, 49
      choose a URL, and one (the draw 0) chooses nothing. */
  lemma MixedModeOdds()
    ensures |DrawsFor(FromFile)| == 50
    ensures |DrawsFor(FromUrl)| == 49
    ensures DrawsFor(Neither) == {0}
  {
    FileDraws();
    UrlDraws();
    NoDraws();
  }

  lemma FileDraws()
    ensures DrawsFor(FromFile) == Range(1, 51)
  {
    DrawsForRange(FromFile, 1, 51);
  }

  lemma UrlDraws()
    ensures DrawsFor(FromUrl) == Range(51, 100)
  {
    DrawsForRange(FromUrl, 51, 100);
  }

  lemma NoDraws()
    ensures DrawsFor(Neither) == {0}
  {
    forall x ensures x in DrawsFor(Neither) <==> x == 0 {
      if 0 <= x < 100 {
        assert x in DrawsFor(Neither) <==> Arbitrate(true, true, x) == Neither;
      }
    }
  }

  lemma DrawsForRange(c: Choice, lo: int, hi: int)
    requires 0 <= lo <= hi <= 100
    requires forall x :: 0 <= x < 100 ==> (Arbitrate(true, true, x) == c <==> lo <= x < hi)
    ensures DrawsFor(c) == Range(lo, hi)
  {
    forall x ensures x in DrawsFor(c) <==> x in Range(lo, hi) {
      if 0 <= x < 100 {
        assert x in DrawsFor(c) <==> Arbitrate(true, true, x) == c;
      }
    }
  }

  /** Once startup has let the program into the loop, a cycle selects nothing
      only in mixed mode on the draw 0. */
  lemma NeitherOnlyOnZeroDraw(configs: Config, chance: int)
    requires 0 <= chance < 100
    requires configs.conf.global.useDirectory || configs.conf.global.useUrls
    requires Arbitrate(configs.conf.global.useDirectory, configs.conf.global.useUrls, chance) == Neither
    ensures configs.conf.global.useDirectory && configs.conf.global.useUrls && chance == 0
  {
  }

  // ---------------------------------------------------------------------
  // Wallpaper mode
  // ---------------------------------------------------------------------

  datatype Mode = Fit | Center | Crop | Span | Stretch | Tile

  function ModeName(m: Mode): string
  {
    match m
    case Fit => "Fit"
    case Center => "Center"
    case Crop => "Crop"
    case Span => "Span"
    case Stretch => "Stretch"
    case Tile => "Tile"
  }

  const ModeNames := ["Fit", "Center", "Crop", "Span", "Stretch", "Tile"]

  /** The `wallmode` match (written out identically in `setFromUrl` and in
      `setFromFile`): a recognised name gives its mode, anything else Center. */
  function WallMode(name: string): (m: Mode)
    ensures name in ModeNames ==> ModeName(m) == name
    ensures name !in ModeNames ==> m == Center
  {
    match name
    case "Fit" => Fit
    case "Center" => Center
    case "Crop" => Crop
    case "Span" => Span
    case "Stretch" => Stretch
    case "Tile" => Tile
    case _ => Center
  }

  /** Every mode is reached from its own name. */
  lemma WallModeRoundTrip(m: Mode)
    ensures ModeName(m) in ModeNames
    ensures WallMode(ModeName(m)) == m
  {
  }

  // ---------------------------------------------------------------------
  // Outside calls and how a routine exits
  // ---------------------------------------------------------------------

  /** A call into the outside world, in the order made. */
  datatype Effect =
    | ScanDirectory(dir: string)
    | Fetch(url: string)
    | CreateFile(name: string)
    | SetWallpaper(path: string)
    | SetMode(mode: Mode)
    | Sleep(seconds: nat)

  /** `Returned(b)` is a normal return of `b`; `Panicked` is an `unwrap` on a
      missing value. */
  datatype Exit = Returned(ok: bool) | Panicked

  datatype Run = Run(effects: seq<Effect>, exit: Exit)

  predicate CreatesFile(effects: seq<Effect>)
  {
    exists i :: 0 <= i < |effects| && effects[i].CreateFile?
  }

  predicate SetsWallpaper(effects: seq<Effect>)
  {
    exists i :: 0 <= i < |effects| && effects[i].SetWallpaper?
  }

  predicate Sleeps(effects: seq<Effect>)
  {
    exists i :: 0 <= i < |effects| && effects[i].Sleep?
  }

  // ---------------------------------------------------------------------
  // setFromUrl
  // ---------------------------------------------------------------------

  /** The URL a cycle downloads: the only one, or the one drawn at `pick`. */
  function ChooseUrl(urls: seq<string>, pick: nat): (url: string)
    requires |urls| > 0
    requires |urls| > 1 ==> pick < |urls|
    ensures url in urls
    ensures |urls| == 1 ==> url == urls[0]
  {
    if |urls| > 1 then urls[pick] else urls[0]
  }

  /** The extension of the temporary file for a response's content type;
      nothing for a type that is not a supported image. */
  function ImageExtension(contentType: string): (ext: Option<string>)
    ensures ext.Some? <==> contentType == "image/png" || contentType == "image/jpeg"
    ensures ext == Some(".png") <==> contentType == "image/png"
    ensures ext == Some(".jpg") <==> contentType == "image/jpeg"
  {
    match contentType
    case "image/png" => Some(".png")
    case "image/jpeg" => Some(".jpg")
    case _ => None
  }

  /** An HTTP response: its status and its `content-type` header (absent when
      missing or not visible ASCII). */
  datatype Response = Response(status: nat, contentType: Option<string>)

  /** What the outside world answers during one `setFromUrl`: whether the
      temporary directory was created, the URL draw, the response (`None` for
      a connection error), and whether creating the file, copying the body,
      setting the wallpaper and closing the temporary directory succeed. */
  datatype UrlEnv = UrlEnv(
    tempDirOk: bool,
    pick: nat,
    response: Option<Response>,
    createOk: bool,
    copyOk: bool,
    applyOk: bool,
    closeOk: bool)

  /** The response arrived and declares a supported image type. */
  predicate ImageResponse(env: UrlEnv)
  {
    env.response.Some? && env.response.value.contentType.Some? &&
    ImageExtension(env.response.value.contentType.value).Some?
  }

  /** The URL list is indexed only once the temporary directory exists; from
      then on it must be non-empty and the draw in bounds. */
  predicate UrlReady(configs: Config, env: UrlEnv)
  {
    env.tempDirOk ==>
      |configs.conf.online.urls| > 0 && (|configs.conf.online.urls| > 1 ==> env.pick < |configs.conf.online.urls|)
  }

  /** The temporary file a supported image response is saved to: "img" and
      the extension of its content type. */
  function TempFile(env: UrlEnv): string
    requires ImageResponse(env)
  {
    "img" + ImageExtension(env.response.value.contentType.value).value
  }

  /** The outside calls of a `setFromUrl` that gets as far as it can with
      this response, in order; an actual run makes a prefix of them. */
  function UrlCalls(configs: Config, env: UrlEnv): seq<Effect>
    requires UrlReady(configs, env) && env.tempDirOk
  {
    [Fetch(ChooseUrl(configs.conf.online.urls, env.pick))] +
    if ImageResponse(env) then
      [CreateFile(TempFile(env)), SetWallpaper(TempFile(env)),
       SetMode(WallMode(configs.conf.global.wallmode)), Sleep(configs.conf.global.interval)]
    else []
  }

  /** setFromUrl, step by step with its early returns. */
  function SetFromUrl(configs: Config, env: UrlEnv): (run: Run)
    requires UrlReady(configs, env)
    ensures env.tempDirOk ==> run.effects <= UrlCalls(configs, env)
    ensures env.tempDirOk && ImageResponse(env) ==>
              CreateFile(TempFile(env)) in run.effects &&
              (SetsWallpaper(run.effects) ==> SetWallpaper(TempFile(env)) in run.effects)
    ensures SetMode(WallMode(configs.conf.global.wallmode)) in run.effects <==> Sleeps(run.effects)
    ensures CreatesFile(run.effects) <==> env.tempDirOk && ImageResponse(env)
    ensures SetsWallpaper(run.effects) <==> env.tempDirOk && ImageResponse(env) && env.createOk && env.copyOk
    ensures Sleeps(run.effects) <==> SetsWallpaper(run.effects) && env.applyOk
    ensures Sleeps(run.effects) ==> Sleep(configs.conf.global.interval) in run.effects
    ensures run.exit == Returned(true) <==> Sleeps(run.effects) && env.closeOk
    ensures run.exit == Panicked <==>
              env.tempDirOk && env.response.Some? &&
              (env.response.value.contentType.None? || (ImageResponse(env) && !env.createOk))
    ensures !env.tempDirOk ==> run == Run([], Returned(false))
    ensures env.tempDirOk ==> |run.effects| > 0 && run.effects[0] == Fetch(ChooseUrl(configs.conf.online.urls, env.pick))
  {
    if !env.tempDirOk then Run([], Returned(false))
    else
      var url := ChooseUrl(configs.conf.online.urls, env.pick);
      var fetched := [Fetch(url)];
      match env.response
      case None => Run(fetched, Returned(false))
      case Some(res) =>
        // a status other than 200 is only logged
        match res.contentType
        case None => Run(fetched, Panicked)
        case Some(contentType) =>
          match ImageExtension(contentType)
          case None => Run(fetched, Returned(false))
          case Some(ext) =>
            var file := "img" + ext;
            var created := fetched + [CreateFile(file)];
            assert created[1].CreateFile?;
            if !env.createOk then Run(created, Panicked)
            else if !env.copyOk then Run(created, Returned(false))
            else
              var applied := created + [SetWallpaper(file)];
              assert applied[1].CreateFile? && applied[2].SetWallpaper?;
              if !env.applyOk then Run(applied, Returned(false))
              else
                var done := applied + [SetMode(WallMode(configs.conf.global.wallmode)), Sleep(configs.conf.global.interval)];
                assert done[1].CreateFile? && done[2].SetWallpaper? && done[4] == Sleep(configs.conf.global.interval);
                Run(done, Returned(env.closeOk))
  }

  /** A response whose content type is not a supported image ends the routine
      with `false` before any file is created. */
  lemma NonImageRejected(configs: Config, env: UrlEnv)
    requires UrlReady(configs, env) && env.tempDirOk
    requires env.response.Some? && env.response.value.contentType.Some?
    requires ImageExtension(env.response.value.contentType.value).None?
    ensures SetFromUrl(configs, env).exit == Returned(false)
    ensures !CreatesFile(SetFromUrl(configs, env).effects)
  {
  }

  /** The HTTP status code has no influence on what the routine does. */
  lemma StatusIgnored(configs: Config, env: UrlEnv, status: nat)
    requires UrlReady(configs, env) && env.response.Some?
    ensures SetFromUrl(configs, env) ==
            SetFromUrl(configs, env.(response := Some(env.response.value.(status := status))))
  {
  }

  // ---------------------------------------------------------------------
  // setFromFile
  // ---------------------------------------------------------------------

  /** The acceptance tests `setFromFile` applies, as one condition: the
      landscape test only when portraits are not allowed, the quality test
      only when quality control is on. */
  predicate PassesGates(local: LocalCnf, img: Image)
  {
    (local.usePortrait || Landscape(local.landscapeCoef, img)) &&
    (!local.setQualityControl || QualControl(local.minMps, local.maxMps, img))
  }

  /** What the outside world answers during one `setFromFile`: the directory
      draw, the image path chosen from it, its decoded dimensions (`None` when
      it cannot be read), and whether setting the wallpaper succeeds. */
  datatype FileEnv = FileEnv(dirPick: nat, image: string, dims: Option<Image>, applyOk: bool)

  predicate FileReady(configs: Config, env: FileEnv)
  {
    |configs.conf.local.directories| > 0 && env.dirPick < |configs.conf.local.directories|
  }

  /** The outside calls of a `setFromFile` that accepts its image, in order;
      an actual run makes a prefix of them. */
  function FileCalls(configs: Config, env: FileEnv): seq<Effect>
    requires FileReady(configs, env)
  {
    [ScanDirectory(configs.conf.local.directories[env.dirPick]), SetWallpaper(env.image),
     SetMode(WallMode(configs.conf.global.wallmode)), Sleep(configs.conf.global.interval)]
  }

  /** setFromFile, step by step with its early returns. */
  function SetFromFile(configs: Config, env: FileEnv): (run: Run)
    requires FileReady(configs, env)
    ensures run.effects <= FileCalls(configs, env)
    ensures SetMode(WallMode(configs.conf.global.wallmode)) in run.effects <==> Sleeps(run.effects)
    ensures run.exit.Returned?
    ensures |run.effects| > 0 && run.effects[0] == ScanDirectory(configs.conf.local.directories[env.dirPick])
    ensures SetsWallpaper(run.effects) <==> env.dims.Some? && PassesGates(configs.conf.local, env.dims.value)
    ensures SetsWallpaper(run.effects) ==> SetWallpaper(env.image) in run.effects
    ensures run.exit == Returned(true) <==>
              env.dims.Some? && PassesGates(configs.conf.local, env.dims.value) && env.applyOk
    ensures Sleeps(run.effects) <==> run.exit == Returned(true)
    ensures Sleeps(run.effects) ==> Sleep(configs.conf.global.interval) in run.effects
  {
    var local := configs.conf.local;
    var scanned := [ScanDirectory(local.directories[env.dirPick])];
    match env.dims
    case None => Run(scanned, Returned(false))
    case Some(img) =>
      if !local.usePortrait && !Landscape(local.landscapeCoef, img) then Run(scanned, Returned(false))
      else if local.setQualityControl && !QualControl(local.minMps, local.maxMps, img) then Run(scanned, Returned(false))
      else
        var applied := scanned + [SetWallpaper(env.image)];
        assert applied[1] == SetWallpaper(env.image);
        if !env.applyOk then Run(applied, Returned(false))
        else
          var done := applied + [SetMode(WallMode(configs.conf.global.wallmode)), Sleep(configs.conf.global.interval)];
          assert done[1] == SetWallpaper(env.image) && done[3] == Sleep(configs.conf.global.interval);
          Run(done, Returned(true))
  }

  /** With portraits allowed, the landscape coefficient plays no part. */
  lemma PortraitIgnoresCoef(configs: Config, env: FileEnv, coef: real)
    requires FileReady(configs, env) && configs.conf.local.usePortrait
    ensures SetFromFile(configs, env) ==
            SetFromFile(configs.(conf := configs.conf.(local := configs.conf.local.(landscapeCoef := coef))), env)
  {
  }

  /** With quality control off, the megapixel bounds play no part. */
  lemma NoQualityControlIgnoresBounds(configs: Config, env: FileEnv, lo: real, hi: real)
    requires FileReady(configs, env) && !configs.conf.local.setQualityControl
    ensures SetFromFile(configs, env) ==
            SetFromFile(configs.(conf := configs.conf.(local := configs.conf.local.(minMps := lo, maxMps := hi))), env)
  {
  }

  // ---------------------------------------------------------------------
  // One cycle of the loop
  // ---------------------------------------------------------------------

  /** One iteration of the loop in `main`: the routine the arbiter chooses, or
      nothing. Failures of either routine are ignored by the loop. */
  function Cycle(configs: Config, chance: int, urlEnv: UrlEnv, fileEnv: FileEnv): (run: Option<Run>)
    requires 0 <= chance < 100
    requires var g := configs.conf.global;
             Arbitrate(g.useDirectory, g.useUrls, chance) == FromUrl ==> UrlReady(configs, urlEnv)
    requires var g := configs.conf.global;
             Arbitrate(g.useDirectory, g.useUrls, chance) == FromFile ==> FileReady(configs, fileEnv)
    ensures var g := configs.conf.global;
            run.None? <==> Arbitrate(g.useDirectory, g.useUrls, chance) == Neither
    ensures var g := configs.conf.global;
            Arbitrate(g.useDirectory, g.useUrls, chance) == FromUrl ==> run == Some(SetFromUrl(configs, urlEnv))
    ensures var g := configs.conf.global;
            Arbitrate(g.useDirectory, g.useUrls, chance) == FromFile ==> run == Some(SetFromFile(configs, fileEnv))
  {
    match Arbitrate(configs.conf.global.useDirectory, configs.conf.global.useUrls, chance)
    case FromUrl => Some(SetFromUrl(configs, urlEnv))
    case FromFile => Some(SetFromFile(configs, fileEnv))
    case Neither => None
  }

  /** After startup, a cycle that returns true has waited at least ten
      seconds. A cycle waits only after a successful wallpaper call, so one in
      which that call fails, or that stops before it, does not wait at all and
      the loop starts the next cycle at once. */
  lemma CycleWaits(configs: Config, chance: int, urlEnv: UrlEnv, fileEnv: FileEnv)
    requires 0 <= chance < 100
    requires var g := Normalised(configs).conf.global;
             Arbitrate(g.useDirectory, g.useUrls, chance) == FromUrl ==> UrlReady(Normalised(configs), urlEnv)
    requires var g := Normalised(configs).conf.global;
             Arbitrate(g.useDirectory, g.useUrls, chance) == FromFile ==> FileReady(Normalised(configs), fileEnv)
    ensures var run := Cycle(Normalised(configs), chance, urlEnv, fileEnv);
            run.Some? && run.value.exit == Returned(true) ==>
              exists s :: s >= MinInterval && Sleep(s) in run.value.effects
    ensures var run := Cycle(Normalised(configs), chance, urlEnv, fileEnv);
            var g := Normalised(configs).conf.global;
            run.Some? && Sleeps(run.value.effects) ==>
              SetsWallpaper(run.value.effects) &&
              (if Arbitrate(g.useDirectory, g.useUrls, chance) == FromUrl then urlEnv.applyOk else fileEnv.applyOk)
  {
    var c := Normalised(configs);
    var run := Cycle(c, chance, urlEnv, fileEnv);
    if run.Some? && run.value.exit == Returned(true) {
      assert Sleeps(run.value.effects);
      assert Sleep(c.conf.global.interval) in run.value.effects;
    }
  }
}
