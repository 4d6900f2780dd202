/**
  The process environment a handle reads once, when it is constructed, and the logging
  sinks it opens from it.
 */
module Config {
  import opened Wrappers

  /**
    The environment variables the constructor consults, already parsed. Parsing with
    strtoul/strtol is not part of this model: a variable that is set appears as `Some`
    of the parsed value (strtoul yields 0 for text that is not a number).
   */
  datatype Environment = Environment(
    deviceMemorySize: Option<nat>,      // ROCBLAS_DEVICE_MEMORY_SIZE
    workbufTrsmBChnk: Option<string>,   // WORKBUF_TRSM_B_CHNK, the obsolete name
    layer: Option<bv32>,                // ROCBLAS_LAYER, as cast to rocblas_layer_mode
    logTracePath: Option<string>,       // ROCBLAS_LOG_TRACE_PATH
    logBenchPath: Option<string>,       // ROCBLAS_LOG_BENCH_PATH
    logProfilePath: Option<string>,     // ROCBLAS_LOG_PROFILE_PATH
    logPath: Option<string>             // ROCBLAS_LOG_PATH, shared by every sink
  )

  /** rocblas_layer_mode bits (rocblas-types.h is not part of this model). */
  const LAYER_MODE_NONE: bv32 := 0
  const LAYER_MODE_LOG_TRACE: bv32 := 1
  const LAYER_MODE_LOG_BENCH: bv32 := 2
  const LAYER_MODE_LOG_PROFILE: bv32 := 4

  /** Where a log stream writes. */
  datatype LogDest = LogFile(path: string) | StandardError

  /** The handle's logging fields: the layer mode and the three optional streams. */
  datatype LogState = LogState(
    layerMode: bv32,
    trace: Option<LogDest>,
    bench: Option<LogDest>,
    profile: Option<LogDest>
  )

  /** The logging fields of a handle before init_logging runs: no layer, no stream. */
  const NO_LOGGING: LogState := LogState(LAYER_MODE_NONE, None, None, None)

  /**
    open_log_stream: the sink's own variable wins, then ROCBLAS_LOG_PATH, then standard
    error.
   */
  function OpenLogStream(sinkPath: Option<string>, logPath: Option<string>): (d: LogDest)
    ensures d.LogFile? <==> sinkPath.Some? || logPath.Some?
    ensures d.LogFile? ==> Some(d.path) == sinkPath || (sinkPath.None? && Some(d.path) == logPath)
  {
    if sinkPath.Some? then LogFile(sinkPath.value)
    else if logPath.Some? then LogFile(logPath.value)
    else StandardError
  }

  /** Opens one sink when its bit is set in the layer mode, and keeps the old one otherwise. */
  function OpenIfEnabled(mode: bv32, bit: bv32, current: Option<LogDest>, sinkPath: Option<string>,
                         logPath: Option<string>): Option<LogDest>
  {
    if mode & bit != 0 then Some(OpenLogStream(sinkPath, logPath)) else current
  }

  /**
    init_logging: with ROCBLAS_LAYER unset nothing changes; otherwise the layer mode is
    replaced and each sink whose bit is set is (re)opened.
   */
  function InitLogging(prior: LogState, env: Environment): (s: LogState)
    ensures env.layer.None? ==> s == prior
    ensures env.layer.Some? ==> s.layerMode == env.layer.value
    ensures env.layer.Some? && env.layer.value & LAYER_MODE_LOG_TRACE != 0 ==>
              s.trace == Some(OpenLogStream(env.logTracePath, env.logPath))
    ensures env.layer.Some? && env.layer.value & LAYER_MODE_LOG_BENCH != 0 ==>
              s.bench == Some(OpenLogStream(env.logBenchPath, env.logPath))
    ensures env.layer.Some? && env.layer.value & LAYER_MODE_LOG_PROFILE != 0 ==>
              s.profile == Some(OpenLogStream(env.logProfilePath, env.logPath))
    ensures env.layer.None? || env.layer.value & LAYER_MODE_LOG_TRACE == 0 ==> s.trace == prior.trace
    ensures env.layer.None? || env.layer.value & LAYER_MODE_LOG_BENCH == 0 ==> s.bench == prior.bench
    ensures env.layer.None? || env.layer.value & LAYER_MODE_LOG_PROFILE == 0 ==> s.profile == prior.profile
  {
    match env.layer
    case None => prior
    case Some(mode) =>
      LogState(mode,
               OpenIfEnabled(mode, LAYER_MODE_LOG_TRACE, prior.trace, env.logTracePath, env.logPath),
               OpenIfEnabled(mode, LAYER_MODE_LOG_BENCH, prior.bench, env.logBenchPath, env.logPath),
               OpenIfEnabled(mode, LAYER_MODE_LOG_PROFILE, prior.profile, env.logProfilePath, env.logPath))
  }

  /** A fresh handle opens exactly the sinks its layer mode enables. */
  lemma FreshHandleOpensEnabledSinks(env: Environment)
    ensures var s := InitLogging(NO_LOGGING, env);
            (s.trace.Some? <==> env.layer.Some? && env.layer.value & LAYER_MODE_LOG_TRACE != 0) &&
            (s.bench.Some? <==> env.layer.Some? && env.layer.value & LAYER_MODE_LOG_BENCH != 0) &&
            (s.profile.Some? <==> env.layer.Some? && env.layer.value & LAYER_MODE_LOG_PROFILE != 0)
  {
  }
}
