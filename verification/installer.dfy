/** The pngquant installer: the stage sequence and early returns of
    `installPngquant`, the guarded settlement of the `brew install` child
    process, the classification of its exit, and the ordered probes for
    Homebrew and pngquant. Every command's outcome is an oracle. */
module Installer {
  import opened Wrappers
  import opened Types
  import Text

  // ---------------------------------------------------------------------------
  // Probing an ordered list of locations

  const BrewPaths: seq<string> := ["/opt/homebrew/bin/brew", "/usr/local/bin/brew", "brew"]
  const ToolPaths: seq<string> := ["/opt/homebrew/bin/pngquant", "/usr/local/bin/pngquant", "pngquant"]

  /** The last resort of the verification: `which pngquant` in a shell with the
      Homebrew directories on the path. */
  const WhichTool := "which pngquant"

  /** Running `<path> --version` at each location in turn until one succeeds.
      `tried` is every location run. */
  datatype Probe = Probe(found: bool, tried: seq<string>)

  function FirstSuccess(paths: seq<string>, runs: string -> bool): (p: Probe)
    ensures |p.tried| <= |paths| && p.tried == paths[..|p.tried|]
    ensures forall i :: 0 <= i < |p.tried| - 1 ==> !runs(p.tried[i])
    ensures p.found <==> |p.tried| > 0 && runs(p.tried[|p.tried| - 1])
    ensures !p.found ==> p.tried == paths
  {
    if paths == [] then Probe(false, [])
    else if runs(paths[0]) then Probe(true, [paths[0]])
    else
      var rest := FirstSuccess(paths[1..], runs);
      assert paths == [paths[0]] + paths[1..];
      Probe(rest.found, [paths[0]] + rest.tried)
  }

  /** The probe finds something exactly when some location runs. */
  lemma {:induction false} FirstSuccessFound(paths: seq<string>, runs: string -> bool)
    ensures FirstSuccess(paths, runs).found <==> exists i :: 0 <= i < |paths| && runs(paths[i])
  {
    if paths != [] && !runs(paths[0]) {
      FirstSuccessFound(paths[1..], runs);
      if exists i :: 0 <= i < |paths| && runs(paths[i]) {
        var i :| 0 <= i < |paths| && runs(paths[i]);
        assert paths[1..][i - 1] == paths[i];
      }
    }
  }

  // ---------------------------------------------------------------------------
  // The install child process

  datatype ProcEvent =
    | Stdout(chunk: string)
    | Stderr(chunk: string)
    | Close(code: Option<int>)
    | SpawnError(message: string)
    | TimerFired

  predicate Settles(e: ProcEvent) {
    e.Close? || e.SpawnError? || e.TimerFired?
  }

  datatype Settlement = Resolved | Rejected(message: string)

  const TimeoutMessage := "Installation timed out after 5 minutes"
  const AlreadyInstalled := "already installed"

  /** The output of `brew install` says the formula was already there. (The
      source also looks for "is already installed", which contains this.) */
  predicate SaysAlreadyInstalled(stdout: string, stderr: string) {
    Text.Contains(stdout, AlreadyInstalled) || Text.Contains(stderr, AlreadyInstalled)
  }

  lemma LongerPhrase(s: string)
    requires Text.Contains(s, "is already installed")
    ensures Text.Contains(s, AlreadyInstalled)
  {
    var i :| 0 <= i <= |s| - 20 && Text.MatchAt(s, "is already installed", i);
    assert s[i + 3..i + 20] == s[i..i + 20][3..];
    assert Text.MatchAt(s, AlreadyInstalled, i + 3);
  }

  /** The source's four-way test (either phrase, in either stream) is the
      same as looking for the shorter phrase alone. */
  lemma PhrasesEquivalent(stdout: string, stderr: string)
    ensures (Text.Contains(stdout, AlreadyInstalled) || Text.Contains(stdout, "is already installed")
             || Text.Contains(stderr, AlreadyInstalled) || Text.Contains(stderr, "is already installed"))
            <==> SaysAlreadyInstalled(stdout, stderr)
  {
    if Text.Contains(stdout, "is already installed") {
      LongerPhrase(stdout);
    }
    if Text.Contains(stderr, "is already installed") {
      LongerPhrase(stderr);
    }
  }

  /** `${code}` for the exit code, `null` when the process died by a signal. */
  function CodeText(code: Option<int>): string {
    match code
    case None => "null"
    case Some(n) => Text.IntToString(n)
  }

  /** The details of a failed install: standard error, else standard output,
      else a fixed text. */
  function Details(stdout: string, stderr: string): (d: string)
    ensures d != ""
    ensures stderr != "" ==> d == stderr
    ensures stderr == "" && stdout != "" ==> d == stdout
  {
    if stderr != "" then stderr
    else if stdout != "" then stdout
    else "No additional details available"
  }

  /** The `close` handler's decision. */
  function Classify(code: Option<int>, stdout: string, stderr: string): (s: Settlement)
    ensures s.Resolved? <==> code == Some(0) || SaysAlreadyInstalled(stdout, stderr)
    ensures s.Rejected? ==> s.message == "Installation failed with exit code " + CodeText(code) + "\n" + Details(stdout, stderr)
  {
    if code == Some(0) || SaysAlreadyInstalled(stdout, stderr) then Resolved
    else Rejected("Installation failed with exit code " + CodeText(code) + "\n" + Details(stdout, stderr))
  }

  /** The state the handlers share: the collected output, the `isResolved`
      flag with the settlement it guards, whether the timer killed the
      process, and how many stdout chunks reported progress. */
  datatype Proc = Proc(stdout: string, stderr: string, outcome: Option<Settlement>, killed: bool, reports: nat)

  const Spawned := Proc("", "", None, false, 0)

  /** One event through its handler. Output handlers always run; the three
      settling handlers return at once when already resolved. */
  function Handle(p: Proc, e: ProcEvent): Proc {
    match e
    case Stdout(c) => p.(stdout := p.stdout + c, reports := p.reports + 1)
    case Stderr(c) => p.(stderr := p.stderr + c)
    case Close(code) =>
      if p.outcome.Some? then p else p.(outcome := Some(Classify(code, p.stdout, p.stderr)))
    case SpawnError(m) =>
      if p.outcome.Some? then p else p.(outcome := Some(Rejected("Failed to spawn brew process: " + m)))
    case TimerFired =>
      if p.outcome.Some? then p else p.(outcome := Some(Rejected(TimeoutMessage)), killed := true)
  }

  function HandleAll(p: Proc, events: seq<ProcEvent>): Proc
    decreases |events|
  {
    if events == [] then p else HandleAll(Handle(p, events[0]), events[1..])
  }

  /** `executeInstallation` over the events the process produces. The
      five-minute timer is armed from the start, so if nothing else settles
      the promise it eventually fires. */
  function ExecuteInstallation(events: seq<ProcEvent>): (p: Proc)
    ensures p.outcome.Some?
  {
    SettledStays(Handle(HandleAll(Spawned, events), TimerFired), []);
    Handle(HandleAll(Spawned, events), TimerFired)
  }

  /** Once resolved, later events change neither the settlement nor whether
      the process was killed. */
  lemma {:induction false} SettledStays(p: Proc, events: seq<ProcEvent>)
    requires p.outcome.Some?
    ensures HandleAll(p, events).outcome == p.outcome
    ensures HandleAll(p, events).killed == p.killed
    decreases |events|
  {
    if events != [] {
      SettledStays(Handle(p, events[0]), events[1..]);
    }
  }

  /** The position of the first settling event; `|events|` when none. */
  function FirstSettling(events: seq<ProcEvent>): (i: nat)
    ensures i <= |events|
    ensures i < |events| ==> Settles(events[i])
    ensures forall j :: 0 <= j < i ==> !Settles(events[j])
  {
    if events == [] then 0
    else if Settles(events[0]) then 0
    else 1 + FirstSettling(events[1..])
  }

  /** The output collected from a run of non-settling events. */
  function Collected(p: Proc, events: seq<ProcEvent>): Proc
    decreases |events|
  {
    if events == [] then p
    else match events[0]
      case Stdout(c) => Collected(p.(stdout := p.stdout + c, reports := p.reports + 1), events[1..])
      case Stderr(c) => Collected(p.(stderr := p.stderr + c), events[1..])
      case _ => Collected(p, events[1..])
  }

  /** Before the first settling event, handling only collects output. */
  lemma {:induction false} UnsettledCollects(p: Proc, events: seq<ProcEvent>)
    requires p.outcome.None? && !p.killed
    requires forall j :: 0 <= j < |events| ==> !Settles(events[j])
    ensures HandleAll(p, events) == Collected(p, events)
    decreases |events|
  {
    if events != [] {
      UnsettledCollects(Handle(p, events[0]), events[1..]);
    }
  }

  lemma {:induction false} HandleAllAppend(p: Proc, a: seq<ProcEvent>, b: seq<ProcEvent>)
    ensures HandleAll(p, a + b) == HandleAll(HandleAll(p, a), b)
    decreases |a|
  {
    if a != [] {
      assert (a + b)[1..] == a[1..] + b;
      HandleAllAppend(Handle(p, a[0]), a[1..], b);
    } else {
      assert a + b == b;
    }
  }

  /** The output collected before the first settling event. */
  function Before(events: seq<ProcEvent>): Proc {
    Collected(Spawned, events[..FirstSettling(events)])
  }

  /** The first settling event, or the timer when the process produces none. */
  function Winner(events: seq<ProcEvent>): (e: ProcEvent)
    ensures Settles(e)
  {
    var i := FirstSettling(events);
    if i < |events| then events[i] else TimerFired
  }

  lemma HandleAllCons(p: Proc, e: ProcEvent, rest: seq<ProcEvent>)
    ensures HandleAll(p, [e] + rest) == HandleAll(Handle(p, e), rest)
  {
    assert ([e] + rest)[1..] == rest;
  }

  /** Handling splits around any one event. */
  lemma SplitAt(p: Proc, events: seq<ProcEvent>, i: nat)
    requires i < |events|
    ensures HandleAll(p, events) == HandleAll(Handle(HandleAll(p, events[..i]), events[i]), events[i + 1..])
  {
    var a, e, b := events[..i], events[i], events[i + 1..];
    assert events == a + ([e] + b);
    HandleAllAppend(p, a, [e] + b);
    HandleAllCons(HandleAll(p, a), e, b);
  }

  /** The first of close, error and timeout wins: the settlement is the one the
      first settling event's handler makes over the output collected before
      it, and whatever follows is ignored. Only a winning timeout kills the
      process. */
  lemma FirstSettlementWins(events: seq<ProcEvent>)
    ensures ExecuteInstallation(events).outcome == Handle(Before(events), Winner(events)).outcome
    ensures ExecuteInstallation(events).killed <==> Winner(events).TimerFired?
  {
    var i := FirstSettling(events);
    var before := Before(events);
    UnsettledCollects(Spawned, events[..i]);
    CollectedUnsettled(Spawned, events[..i]);
    if i < |events| {
      SplitAt(Spawned, events, i);
      SettledStays(Handle(before, events[i]), events[i + 1..]);
    } else {
      assert events[..i] == events;
    }
  }

  lemma {:induction false} CollectedUnsettled(p: Proc, events: seq<ProcEvent>)
    ensures Collected(p, events).outcome == p.outcome
    ensures Collected(p, events).killed == p.killed
    decreases |events|
  {
    if events != [] {
      match events[0]
      case Stdout(c) => CollectedUnsettled(p.(stdout := p.stdout + c, reports := p.reports + 1), events[1..]);
      case Stderr(c) => CollectedUnsettled(p.(stderr := p.stderr + c), events[1..]);
      case _ => CollectedUnsettled(p, events[1..]);
    }
  }

  // ---------------------------------------------------------------------------
  // installPngquant

  /** What the commands report: which `--version` probes run for Homebrew and
      for pngquant before installing, whether `brew update` succeeds, the
      install process's events, and which locations answer during the
      verification and during the second check after the extra wait. */
  datatype World = World(
    brew: string -> bool,
    present: string -> bool,
    updateSucceeds: bool,
    install: seq<ProcEvent>,
    verify: string -> bool,
    recheck: string -> bool)

  /** The external steps taken, in order. */
  datatype Action = ProbeBrew(path: string) | ProbeTool(path: string) | UpdateBrew | RunInstall | Verify(path: string)

  datatype Installation = Installation(result: InstallationResult, progress: seq<InstallationProgress>, actions: seq<Action>)

  const CheckingEnvironment := InstallationProgress(Checking, "Checking system environment...")
  const CheckingTool := InstallationProgress(Checking, "Checking if pngquant is already installed...")
  const UpdatingBrew := InstallationProgress(Updating, "Updating Homebrew...")
  const InstallingTool := InstallationProgress(Installing, "Installing pngquant...")
  const VerifyingTool := InstallationProgress(Verifying, "Verifying installation...")
  const CompletedInstall := InstallationProgress(Completed, "Installation completed successfully!")

  const NoHomebrew := InstallationResult(false, "Homebrew is not installed", Some("Please install Homebrew first by visiting https://brew.sh"))
  const AlreadyPresent := InstallationResult(true, "pngquant is already installed!", None)
  const Installed := InstallationResult(true, "pngquant has been successfully installed!", None)
  const VerificationFailed := "Installation verification failed - pngquant not found after installation"

  function Repeat(p: InstallationProgress, n: nat): (r: seq<InstallationProgress>)
    ensures |r| == n && forall i :: 0 <= i < n ==> r[i] == p
  {
    if n == 0 then [] else [p] + Repeat(p, n - 1)
  }

  /** What a `--version` probe is for. */
  datatype ProbeKind = ForBrew | ForTool | ForVerify

  function ProbeAction(kind: ProbeKind, path: string): Action
  {
    match kind
    case ForBrew => ProbeBrew(path)
    case ForTool => ProbeTool(path)
    case ForVerify => Verify(path)
  }

  function Probes(tried: seq<string>, kind: ProbeKind): (r: seq<Action>)
    ensures |r| == |tried| && forall i :: 0 <= i < |r| ==> r[i] == ProbeAction(kind, tried[i])
  {
    if tried == [] then [] else [ProbeAction(kind, tried[0])] + Probes(tried[1..], kind)
  }

  /** Probing runs neither `brew update` nor the install. */
  lemma ProbesOnly(tried: seq<string>, kind: ProbeKind)
    ensures UpdateBrew !in Probes(tried, kind) && RunInstall !in Probes(tried, kind)
  {
    var r := Probes(tried, kind);
    assert forall i :: 0 <= i < |r| ==> !r[i].UpdateBrew? && !r[i].RunInstall?;
  }

  /** The `catch` block: an `error` progress event and a failed result
      carrying the message. */
  function Failed(progress: seq<InstallationProgress>, actions: seq<Action>, message: string): (r: Installation)
    ensures r.result == InstallationResult(false, "Installation failed", Some(message))
    ensures r.progress == progress + [InstallationProgress(Error, "Installation failed: " + message)]
    ensures r.actions == actions
  {
    Installation(InstallationResult(false, "Installation failed", Some(message)),
                 progress + [InstallationProgress(Error, "Installation failed: " + message)], actions)
  }

  /** The `catch` outcome's shape, shared by every failed stage. */
  predicate Reported(r: Installation) {
    !r.result.success ==>
      && r.result.message == "Installation failed" && r.result.details.Some?
      && |r.progress| > 0
      && r.progress[|r.progress| - 1] == InstallationProgress(Error, "Installation failed: " + r.result.details.value)
  }

  /** Step 5: verify, and when that fails check once more after a wait. */
  function VerifyStep(w: World, progress: seq<InstallationProgress>, actions: seq<Action>): (r: Installation)
    ensures r.result.success <==>
      FirstSuccess(ToolPaths + [WhichTool], w.verify).found || FirstSuccess(ToolPaths, w.recheck).found
    ensures r.result.success ==> r.result == Installed
    ensures FirstSuccess(ToolPaths + [WhichTool], w.verify).found ==> r.progress == progress + [VerifyingTool, CompletedInstall]
    ensures Reported(r)
  {
    var verify := FirstSuccess(ToolPaths + [WhichTool], w.verify);
    var verifying := progress + [VerifyingTool];
    var checked := actions + Probes(verify.tried, ForVerify);
    if verify.found then Installation(Installed, verifying + [CompletedInstall], checked)
    else
      var second := FirstSuccess(ToolPaths, w.recheck);
      var rechecked := checked + Probes(second.tried, ForTool);
      if second.found then Installation(Installed, verifying + [CompletedInstall], rechecked)
      else Failed(verifying, rechecked, VerificationFailed)
  }

  /** Steps 3 and 4: update Homebrew (its outcome is ignored), run the install
      and go on to verification when it resolves. */
  function InstallStep(w: World, actions: seq<Action>): (r: Installation)
    ensures r.result.success <==>
      InstallResolves(w)
      && (FirstSuccess(ToolPaths + [WhichTool], w.verify).found || FirstSuccess(ToolPaths, w.recheck).found)
    ensures r.result.success ==> r.result == Installed
    ensures InstallResolves(w) && FirstSuccess(ToolPaths + [WhichTool], w.verify).found ==>
      r.progress == [CheckingEnvironment, CheckingTool, UpdatingBrew, InstallingTool]
        + Repeat(InstallingTool, ExecuteInstallation(w.install).reports) + [VerifyingTool, CompletedInstall]
    ensures Reported(r)
  {
    var run := ExecuteInstallation(w.install);
    var installing := [CheckingEnvironment, CheckingTool, UpdatingBrew, InstallingTool] + Repeat(InstallingTool, run.reports);
    var ran := actions + [UpdateBrew, RunInstall];
    match run.outcome.value
    case Rejected(m) => Failed(installing, ran, m)
    case Resolved => VerifyStep(w, installing, ran)
  }

  /** `installPngquant`: steps 1 and 2 probe for Homebrew and for pngquant and
      return early; the rest is `InstallStep`. */
  function InstallPngquant(w: World): (r: Installation)
    ensures |r.progress| > 0 && r.progress[0] == CheckingEnvironment
    ensures FirstSuccess(BrewPaths, w.brew).found ==> Reported(r)
  {
    var brew := FirstSuccess(BrewPaths, w.brew);
    var probedBrew := Probes(brew.tried, ForBrew);
    if !brew.found then Installation(NoHomebrew, [CheckingEnvironment], probedBrew)
    else ToolStep(w, probedBrew)
  }

  /** Step 2: probe for pngquant and stop early when it is there. */
  function ToolStep(w: World, actions: seq<Action>): (r: Installation)
    ensures |r.progress| > 0 && r.progress[0] == CheckingEnvironment
    ensures Reported(r)
  {
    var tool := FirstSuccess(ToolPaths, w.present);
    var probed := actions + Probes(tool.tried, ForTool);
    if tool.found then Installation(AlreadyPresent, [CheckingEnvironment, CheckingTool], probed)
    else InstallStep(w, probed)
  }

  // ---------------------------------------------------------------------------
  // Properties of installPngquant

  /** Whether the install step's process settled successfully. */
  predicate InstallResolves(w: World) {
    ExecuteInstallation(w.install).outcome == Some(Resolved)
  }

  /** The installation succeeds exactly when Homebrew is found and either
      pngquant is already there, or the install resolves and one of the two
      verifications finds it. */
  lemma SuccessCharacterised(w: World)
    ensures InstallPngquant(w).result.success <==>
      FirstSuccess(BrewPaths, w.brew).found
      && (FirstSuccess(ToolPaths, w.present).found
          || (InstallResolves(w)
              && (FirstSuccess(ToolPaths + [WhichTool], w.verify).found || FirstSuccess(ToolPaths, w.recheck).found)))
  {
  }

  /** Without Homebrew the result says so and no update or install runs. */
  lemma NoHomebrewStops(w: World)
    requires forall i :: 0 <= i < |BrewPaths| ==> !w.brew(BrewPaths[i])
    ensures InstallPngquant(w).result == NoHomebrew
    ensures InstallPngquant(w).progress == [CheckingEnvironment]
    ensures UpdateBrew !in InstallPngquant(w).actions && RunInstall !in InstallPngquant(w).actions
  {
    FirstSuccessFound(BrewPaths, w.brew);
    ProbesOnly(FirstSuccess(BrewPaths, w.brew).tried, ForBrew);
  }

  /** With pngquant already present, success is reported before any update
      or install. */
  lemma AlreadyPresentStops(w: World)
    requires FirstSuccess(BrewPaths, w.brew).found && FirstSuccess(ToolPaths, w.present).found
    ensures InstallPngquant(w).result == AlreadyPresent
    ensures InstallPngquant(w).progress == [CheckingEnvironment, CheckingTool]
    ensures UpdateBrew !in InstallPngquant(w).actions && RunInstall !in InstallPngquant(w).actions
  {
    var brew, tool := Probes(FirstSuccess(BrewPaths, w.brew).tried, ForBrew), Probes(FirstSuccess(ToolPaths, w.present).tried, ForTool);
    ProbesOnly(FirstSuccess(BrewPaths, w.brew).tried, ForBrew);
    ProbesOnly(FirstSuccess(ToolPaths, w.present).tried, ForTool);
    assert InstallPngquant(w).actions == brew + tool;
  }

  /** The happy path's progress: checking twice, updating, installing once
      plus once per stdout chunk, verifying, completed. */
  lemma HappyPath(w: World)
    requires FirstSuccess(BrewPaths, w.brew).found && !FirstSuccess(ToolPaths, w.present).found
    requires InstallResolves(w) && FirstSuccess(ToolPaths + [WhichTool], w.verify).found
    ensures InstallPngquant(w).result == Installed
    ensures InstallPngquant(w).progress ==
      [CheckingEnvironment, CheckingTool, UpdatingBrew, InstallingTool]
      + Repeat(InstallingTool, ExecuteInstallation(w.install).reports)
      + [VerifyingTool, CompletedInstall]
  {
  }

  /** The outcome of `brew update` never changes the installation. */
  lemma UpdateIrrelevant(w: World, b: bool)
    ensures InstallPngquant(w.(updateSucceeds := b)) == InstallPngquant(w)
  {
  }

}
