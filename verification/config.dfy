/** The configuration handling of the main process (src/main/main.ts): the
    default configuration, the migration of the old `retinaOptimization` flag,
    loading with defaults, the watch-list handlers and starting the watchers
    for the enabled directories. */
module Config {
  import opened Wrappers
  import opened Types
  import Text
  import FileWatcher

  /** What the main process learns from its surroundings while building the
      default configuration: the home directory, whether `<home>/Desktop`
      exists, and whether the primary display's scale factor is above 1. */
  datatype Env = Env(home: string, desktopExists: bool, retina: bool)

  const DesktopWatcherId: string := "default-desktop-watcher"
  const HomeWatcherId: string := "default-home-watcher"

  /** The one directory watched by default. */
  function DefaultWatcher(env: Env): (w: WatchConfig)
    ensures w.pattern == FileWatcher.PngPattern && w.enabled
    ensures env.desktopExists ==> w.id == DesktopWatcherId && w.path == Text.JoinPath(env.home, "Desktop")
    ensures !env.desktopExists ==> w.id == HomeWatcherId && w.path == env.home
  {
    if env.desktopExists then WatchConfig(DesktopWatcherId, Text.JoinPath(env.home, "Desktop"), FileWatcher.PngPattern, true)
    else WatchConfig(HomeWatcherId, env.home, FileWatcher.PngPattern, true)
  }

  /** `getDefaultConfig()`. The catch around the directory check is left out:
      `existsSync` reports failures as `false`, so one watcher is always
      added. */
  function DefaultConfig(env: Env): (c: AppConfig)
    ensures c.watchConfigs == Some([DefaultWatcher(env)])
    ensures c.notifications == Some(true) && c.autoStart == Some(true)
    ensures c.resizeRatio == Some(if env.retina then Some(Half) else None)
    ensures c.retinaOptimization.None?
  {
    AppConfig(Some([DefaultWatcher(env)]), Some(true), Some(true), Some(if env.retina then Some(Half) else None), None)
  }

  /** The watch list, with an absent one read as empty. */
  function WatchList(c: AppConfig): seq<WatchConfig> {
    c.watchConfigs.GetOr([])
  }

  /** The ratio handed to the watchers: an absent field takes the parameter's
      default, `null`. */
  function ResizeRatio(c: AppConfig): Option<Ratio> {
    c.resizeRatio.GetOr(None)
  }

  // ---------------------------------------------------------------------------
  // Migration

  /** A configuration still in the old format: the flag is present and the
      ratio is not. */
  predicate NeedsMigration(c: AppConfig) {
    c.retinaOptimization.Some? && c.resizeRatio.None?
  }

  /** `migrateConfig(config)` */
  function Migrate(c: AppConfig): (m: AppConfig)
    ensures !NeedsMigration(m)
    ensures !NeedsMigration(c) ==> m == c
    ensures NeedsMigration(c) ==>
      m == c.(resizeRatio := Some(if c.retinaOptimization.value then Some(Half) else None), retinaOptimization := None)
  {
    if NeedsMigration(c) then
      c.(resizeRatio := Some(if c.retinaOptimization.value then Some(Half) else None), retinaOptimization := None)
    else c
  }

  /** Migrating twice is migrating once. */
  lemma MigrateIdempotent(c: AppConfig)
    ensures Migrate(Migrate(c)) == Migrate(c)
  {
  }

  /** Migration touches only the two fields involved. */
  lemma MigrateKeepsOthers(c: AppConfig)
    ensures Migrate(c).watchConfigs == c.watchConfigs
    ensures Migrate(c).notifications == c.notifications
    ensures Migrate(c).autoStart == c.autoStart
  {
  }

  // ---------------------------------------------------------------------------
  // Loading

  /** `{ ...defaults, ...loaded }`: a field the loaded object has wins. */
  function Merge(defaults: AppConfig, loaded: AppConfig): (c: AppConfig)
    ensures loaded.watchConfigs.Some? ==> c.watchConfigs == loaded.watchConfigs
    ensures loaded.watchConfigs.None? ==> c.watchConfigs == defaults.watchConfigs
    ensures loaded.notifications.Some? ==> c.notifications == loaded.notifications
    ensures loaded.notifications.None? ==> c.notifications == defaults.notifications
    ensures loaded.autoStart.Some? ==> c.autoStart == loaded.autoStart
    ensures loaded.autoStart.None? ==> c.autoStart == defaults.autoStart
    ensures loaded.resizeRatio.Some? ==> c.resizeRatio == loaded.resizeRatio
    ensures loaded.resizeRatio.None? ==> c.resizeRatio == defaults.resizeRatio
    ensures loaded.retinaOptimization.Some? ==> c.retinaOptimization == loaded.retinaOptimization
    ensures loaded.retinaOptimization.None? ==> c.retinaOptimization == defaults.retinaOptimization
  {
    AppConfig(
      if loaded.watchConfigs.Some? then loaded.watchConfigs else defaults.watchConfigs,
      if loaded.notifications.Some? then loaded.notifications else defaults.notifications,
      if loaded.autoStart.Some? then loaded.autoStart else defaults.autoStart,
      if loaded.resizeRatio.Some? then loaded.resizeRatio else defaults.resizeRatio,
      if loaded.retinaOptimization.Some? then loaded.retinaOptimization else defaults.retinaOptimization)
  }

  /** Merging is a right-biased overlay: merging again changes nothing. */
  lemma MergeIdempotent(defaults: AppConfig, loaded: AppConfig)
    ensures Merge(defaults, Merge(defaults, loaded)) == Merge(defaults, loaded)
    ensures Merge(defaults, AppConfig(None, None, None, None, None)) == defaults
  {
  }

  /** The configuration after loading, and the configurations written, in
      order (a failed write is swallowed, so these are attempts). */
  datatype Loaded = Loaded(config: AppConfig, saves: seq<AppConfig>)

  /** The body of `loadConfig` after the file has been read and parsed into an
      object `file`; `None` when the read or the parse fails, or the text is
      `null`. */
  function LoadWith(file: Option<AppConfig>, env: Env, saveMigrated: bool): (l: Loaded)
  {
    var defaults := DefaultConfig(env);
    match file
    case None => Loaded(defaults, [defaults])
    case Some(loaded) =>
      var migrated := Migrate(loaded);
      var merged := Merge(defaults, migrated);
      var filled := if WatchList(merged) == [] then merged.(watchConfigs := defaults.watchConfigs) else merged;
      var first := if WatchList(merged) == [] then [filled] else [];
      var second := if saveMigrated && NeedsMigration(loaded) then [filled] else [];
      Loaded(filled, first + second)
  }

  /** `loadConfig()` as written: `migrateConfig` hands back the object it was
      given, so the save guarded by "the migrated object differs from the
      loaded one" is never reached. */
  function LoadConfigAsWritten(file: Option<AppConfig>, env: Env): (l: Loaded)
    ensures l.config == LoadConfig(file, env).config
    ensures |l.saves| <= 1
    ensures file.Some? && file.value.watchConfigs != Some([]) ==> l.saves == []
  {
    LoadWith(file, env, false)
  }

  /** `loadConfig()` with the migration saved, as the comment on that branch
      says it should be. */
  function LoadConfig(file: Option<AppConfig>, env: Env): (l: Loaded)
    ensures |WatchList(l.config)| > 0
    ensures !NeedsMigration(l.config)
    ensures file.None? ==> l == Loaded(DefaultConfig(env), [DefaultConfig(env)])
    ensures file.Some? && NeedsMigration(file.value) ==> |l.saves| > 0 && l.saves[|l.saves| - 1] == l.config
    ensures forall i :: 0 <= i < |l.saves| ==> l.saves[i] == l.config
  {
    LoadWith(file, env, true)
  }

  /** A loaded field overrides the default, except an empty or missing watch
      list, which is replaced by the default one. */
  lemma LoadedFieldsWin(loaded: AppConfig, env: Env)
    ensures var c := LoadConfig(Some(loaded), env).config;
      (loaded.notifications.Some? ==> c.notifications == loaded.notifications)
      && (loaded.autoStart.Some? ==> c.autoStart == loaded.autoStart)
      && (loaded.resizeRatio.Some? ==> c.resizeRatio == loaded.resizeRatio)
      && (|WatchList(loaded)| > 0 ==> c.watchConfigs == loaded.watchConfigs)
      && (|WatchList(loaded)| == 0 ==> c.watchConfigs == DefaultConfig(env).watchConfigs)
  {
  }

  /** The discrepancy: a file in the old format with directories configured is
      migrated in memory but never written back, so the file keeps the old
      format and is migrated again on every start. */
  lemma MigrationNeverSaved(env: Env)
    ensures var file := AppConfig(Some([DefaultWatcher(env)]), None, None, None, Some(true));
      NeedsMigration(file)
      && LoadConfigAsWritten(Some(file), env).saves == []
      && LoadConfig(Some(file), env).saves == [LoadConfig(Some(file), env).config]
  {
  }

  // ---------------------------------------------------------------------------
  // The running application

  /** The configuration in memory and the running watchers. */
  datatype App = App(config: AppConfig, watchers: FileWatcher.Registry)

  function Enabled(cs: seq<WatchConfig>): (r: seq<WatchConfig>)
    ensures |r| <= |cs|
    ensures forall c :: c in r <==> c in cs && c.enabled
  {
    if cs == [] then []
    else if cs[0].enabled then [cs[0]] + Enabled(cs[1..])
    else Enabled(cs[1..])
  }

  function ConfigIds(cs: seq<WatchConfig>): (ids: seq<string>)
    ensures |ids| == |cs|
    ensures forall i :: 0 <= i < |cs| ==> ids[i] == cs[i].id
  {
    if cs == [] then [] else [cs[0].id] + ConfigIds(cs[1..])
  }

  predicate UniqueIds(cs: seq<WatchConfig>) {
    forall i, j :: 0 <= i < j < |cs| ==> cs[i].id != cs[j].id
  }

  /** The loop body of `startWatching()`. */
  function StartIfEnabled(reg: FileWatcher.Registry, c: WatchConfig, ratio: Option<Ratio>): FileWatcher.Registry {
    if c.enabled then FileWatcher.StartWatching(reg, c, ratio).0 else reg
  }

  /** Start a watcher for every enabled configuration, in list order. */
  function StartEach(reg: FileWatcher.Registry, cs: seq<WatchConfig>, ratio: Option<Ratio>): FileWatcher.Registry
    decreases |cs|
  {
    if cs == [] then reg else StartEach(StartIfEnabled(reg, cs[0], ratio), cs[1..], ratio)
  }

  /** `startWatching()` */
  function StartAll(app: App): App {
    app.(watchers := StartEach(app.watchers, WatchList(app.config), ResizeRatio(app.config)))
  }

  /** `restartWatching()`: stop every watcher, then start the enabled ones. */
  function Restart(app: App): App {
    StartAll(app.(watchers := FileWatcher.StopAllWatching(app.watchers).0))
  }

  /** The count shown in the tray menu. */
  function TrayCount(c: AppConfig): nat {
    |Enabled(WatchList(c))|
  }

  /** Starting a watcher for a new id lists it last. */
  lemma StartNew(reg: FileWatcher.Registry, c: WatchConfig, ratio: Option<Ratio>)
    requires FileWatcher.Valid(reg) && c.id !in FileWatcher.ActiveWatchers(reg)
    ensures FileWatcher.Valid(StartIfEnabled(reg, c, ratio))
    ensures FileWatcher.ActiveWatchers(StartIfEnabled(reg, c, ratio))
      == FileWatcher.ActiveWatchers(reg) + (if c.enabled then [c.id] else [])
  {
    if c.enabled {
      FileWatcher.StartKeepsValid(reg, c, ratio);
      FileWatcher.StartListsLast(reg, c, ratio);
      FileWatcher.FilterAbsent(FileWatcher.ActiveWatchers(reg), c.id);
    } else {
      assert FileWatcher.ActiveWatchers(reg) + [] == FileWatcher.ActiveWatchers(reg);
    }
  }

  lemma {:induction false} StartEachValid(reg: FileWatcher.Registry, cs: seq<WatchConfig>, ratio: Option<Ratio>)
    requires FileWatcher.Valid(reg)
    ensures FileWatcher.Valid(StartEach(reg, cs, ratio))
    decreases |cs|
  {
    if cs != [] {
      if cs[0].enabled {
        FileWatcher.StartKeepsValid(reg, cs[0], ratio);
      }
      StartEachValid(StartIfEnabled(reg, cs[0], ratio), cs[1..], ratio);
    }
  }

  lemma {:induction false} StartEachSpec(reg: FileWatcher.Registry, cs: seq<WatchConfig>, ratio: Option<Ratio>)
    requires FileWatcher.Valid(reg) && UniqueIds(cs)
    requires forall i :: 0 <= i < |cs| ==> cs[i].id !in FileWatcher.ActiveWatchers(reg)
    ensures FileWatcher.ActiveWatchers(StartEach(reg, cs, ratio)) == FileWatcher.ActiveWatchers(reg) + ConfigIds(Enabled(cs))
    decreases |cs|
  {
    if cs != [] {
      var next := StartIfEnabled(reg, cs[0], ratio);
      var added := if cs[0].enabled then [cs[0].id] else [];
      StartNew(reg, cs[0], ratio);
      EnabledIdsCons(cs);
      var tail := cs[1..];
      forall i | 0 <= i < |tail|
        ensures tail[i].id !in FileWatcher.ActiveWatchers(next)
      {
        assert tail[i] == cs[i + 1];
      }
      StartEachSpec(next, tail, ratio);
      assert StartEach(reg, cs, ratio) == StartEach(next, tail, ratio);
      var a := FileWatcher.ActiveWatchers(reg);
      var b := ConfigIds(Enabled(tail));
      Associate(a, added, b);
    }
  }

  lemma Associate<T>(a: seq<T>, b: seq<T>, c: seq<T>)
    ensures a + b + c == a + (b + c)
  {
  }

  lemma EnabledIdsCons(cs: seq<WatchConfig>)
    requires |cs| > 0
    ensures ConfigIds(Enabled(cs)) == (if cs[0].enabled then [cs[0].id] else []) + ConfigIds(Enabled(cs[1..]))
  {
    if cs[0].enabled {
      assert ConfigIds([cs[0]] + Enabled(cs[1..]))[1..] == ConfigIds(Enabled(cs[1..]));
    }
  }

  /** After a restart exactly the enabled directories are watched, in list
      order, and the tray count is their number. */
  lemma RestartWatchesEnabled(app: App)
    requires FileWatcher.Valid(app.watchers) && UniqueIds(WatchList(app.config))
    ensures FileWatcher.Valid(Restart(app).watchers)
    ensures FileWatcher.ActiveWatchers(Restart(app).watchers) == ConfigIds(Enabled(WatchList(app.config)))
    ensures |FileWatcher.ActiveWatchers(Restart(app).watchers)| == TrayCount(app.config)
  {
    var cleared := FileWatcher.StopAllWatching(app.watchers).0;
    FileWatcher.StopAllSpec(app.watchers);
    StartEachValid(cleared, WatchList(app.config), ResizeRatio(app.config));
    StartEachSpec(cleared, WatchList(app.config), ResizeRatio(app.config));
  }

  /** `add-watch-config`: a new enabled `*.png` configuration for the chosen
      directory is appended, the configuration saved and the directory
      watched. `id` is the fresh identifier the handler generates. */
  function AddWatchConfig(app: App, id: string, dir: string): (r: (App, WatchConfig, AppConfig))
    ensures r.1 == WatchConfig(id, dir, FileWatcher.PngPattern, true)
    ensures WatchList(r.0.config) == WatchList(app.config) + [r.1]
    ensures r.2 == r.0.config
    ensures r.0.config.(watchConfigs := app.config.watchConfigs) == app.config
  {
    var w := WatchConfig(id, dir, FileWatcher.PngPattern, true);
    var config := app.config.(watchConfigs := Some(WatchList(app.config) + [w]));
    (App(config, FileWatcher.StartWatching(app.watchers, w, ResizeRatio(config)).0), w, config)
  }

  /** The new directory is watched with the configured ratio, and its id is
      listed last. */
  lemma AddWatchesNew(app: App, id: string, dir: string)
    ensures var (after, w, _) := AddWatchConfig(app, id, dir);
      FileWatcher.Get(after.watchers.entries, id) == Some(FileWatcher.Watcher(app.watchers.next, w, ResizeRatio(app.config)))
      && FileWatcher.ActiveWatchers(after.watchers) == FileWatcher.Filter(FileWatcher.ActiveWatchers(app.watchers), id) + [id]
  {
    var w := WatchConfig(id, dir, FileWatcher.PngPattern, true);
    FileWatcher.StartLookup(app.watchers, w, ResizeRatio(app.config), id);
    FileWatcher.StartListsLast(app.watchers, w, ResizeRatio(app.config));
  }

  function RemoveId(cs: seq<WatchConfig>, id: string): (r: seq<WatchConfig>)
    ensures |r| <= |cs|
    ensures forall c :: c in r <==> c in cs && c.id != id
  {
    if cs == [] then []
    else if cs[0].id == id then RemoveId(cs[1..], id)
    else [cs[0]] + RemoveId(cs[1..], id)
  }

  /** `remove-watch-config`: every configuration with that id is dropped, the
      configuration saved and that id's watcher stopped. */
  function RemoveWatchConfig(app: App, id: string): (r: (App, AppConfig))
    ensures WatchList(r.0.config) == RemoveId(WatchList(app.config), id)
    ensures r.1 == r.0.config
    ensures r.0.watchers == FileWatcher.StopWatching(app.watchers, id).0
  {
    var config := app.config.(watchConfigs := Some(RemoveId(WatchList(app.config), id)));
    (App(config, FileWatcher.StopWatching(app.watchers, id).0), config)
  }

  lemma {:induction false} RemoveIdKeepsOrder(cs: seq<WatchConfig>, id: string)
    ensures ConfigIds(RemoveId(cs, id)) == FileWatcher.Filter(ConfigIds(cs), id)
    decreases |cs|
  {
    if cs != [] {
      RemoveIdKeepsOrder(cs[1..], id);
      assert ConfigIds(cs)[1..] == ConfigIds(cs[1..]);
    }
  }

  /** Removing what was just added restores the watch list. */
  lemma RemoveUndoesAdd(app: App, id: string, dir: string)
    requires forall i :: 0 <= i < |WatchList(app.config)| ==> WatchList(app.config)[i].id != id
    ensures WatchList(RemoveWatchConfig(AddWatchConfig(app, id, dir).0, id).0.config) == WatchList(app.config)
  {
    var cs := WatchList(app.config);
    var w := WatchConfig(id, dir, FileWatcher.PngPattern, true);
    RemoveIdAbsent(cs, id);
    RemoveIdAppend(cs, w, id);
  }

  lemma {:induction false} RemoveIdAbsent(cs: seq<WatchConfig>, id: string)
    requires forall i :: 0 <= i < |cs| ==> cs[i].id != id
    ensures RemoveId(cs, id) == cs
    decreases |cs|
  {
    if cs != [] {
      RemoveIdAbsent(cs[1..], id);
      assert [cs[0]] + cs[1..] == cs;
    }
  }

  lemma {:induction false} RemoveIdAppend(cs: seq<WatchConfig>, w: WatchConfig, id: string)
    requires w.id == id
    ensures RemoveId(cs + [w], id) == RemoveId(cs, id)
    decreases |cs|
  {
    if cs == [] {
      assert cs + [w] == [w];
    } else {
      assert (cs + [w])[1..] == cs[1..] + [w];
      RemoveIdAppend(cs[1..], w, id);
    }
  }

  /** `save-config`: the renderer's configuration replaces the one in memory,
      is written, and the watchers are restarted from it. */
  function SaveConfig(app: App, config: AppConfig): (r: (App, AppConfig))
    ensures r.0.config == config && r.1 == config
  {
    (Restart(App(config, app.watchers)), config)
  }

  /** After a save the watchers follow the saved configuration. */
  lemma SaveRestartsWatchers(app: App, config: AppConfig)
    requires FileWatcher.Valid(app.watchers) && UniqueIds(WatchList(config))
    ensures FileWatcher.ActiveWatchers(SaveConfig(app, config).0.watchers) == ConfigIds(Enabled(WatchList(config)))
  {
    RestartWatchesEnabled(App(config, app.watchers));
  }
}
