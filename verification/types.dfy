/** The records shared by the main process and the renderer: a watched
    directory, the application configuration and the outcome of processing one
    image. */
module Types {
  import opened Wrappers

  type PosNat = n: nat | n > 0 witness 1

  /** A non-negative resize ratio, kept exact as `num / den` (the program's
      default `0.5` is `Ratio(1, 2)`). */
  datatype Ratio = Ratio(num: nat, den: PosNat)

  const Half: Ratio := Ratio(1, 2)

  /** `Math.floor(n * ratio)` for a non-negative `n`. */
  function Scale(n: nat, r: Ratio): (m: nat)
    ensures m * r.den <= n * r.num < (m + 1) * r.den
  {
    (n * r.num) / r.den
  }

  datatype WatchConfig = WatchConfig(id: string, path: string, pattern: string, enabled: bool)

  /** The configuration object as it is kept in memory and on disk. The on-disk
      object may be from an older version and carry `retinaOptimization`
      instead of `resizeRatio`; an absent field is `None`, a JSON `null` ratio
      is `Some(None)`. */
  datatype AppConfig = AppConfig(
    watchConfigs: Option<seq<WatchConfig>>,
    notifications: Option<bool>,
    autoStart: Option<bool>,
    resizeRatio: Option<Option<Ratio>>,
    retinaOptimization: Option<bool>)

  datatype Dimensions = Dimensions(width: nat, height: nat)

  /** The record `optimizeImage` builds. `timestamp` is the ISO text of the
      moment processing started (the clock is outside the model). */
  datatype ProcessedFile = ProcessedFile(
    filePath: string,
    originalSize: nat,
    optimizedSize: nat,
    timestamp: string,
    success: bool,
    error: Option<string>,
    resized: Option<bool>,
    originalDimensions: Option<Dimensions>,
    resizedDimensions: Option<Dimensions>)

  /** The result `installPngquant` reports to the renderer. */
  datatype InstallationResult = InstallationResult(success: bool, message: string, details: Option<string>)

  datatype Stage = Checking | Updating | Installing | Verifying | Completed | Error

  datatype InstallationProgress = InstallationProgress(stage: Stage, message: string)
}
