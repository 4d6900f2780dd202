/**
  The execution handle (_rocblas_handle) and the C entry points that manage its
  device-memory arena. A C null handle is a null `Handle?`; a C `size_t*` output
  argument is a `SizeCell?`.
 */
module RocblasHandle {
  import opened Wrappers
  import opened Hip
  import opened Config
  import opened Arena

  /** The memory behind a `size_t*` output argument. */
  class SizeCell {
    var value: nat

    constructor (value: nat)
      ensures this.value == value
    {
      this.value := value;
    }
  }

  class Handle {
    const device: int                  // the device that was active at construction
    var deviceMemory: Option<DevicePtr>
    var deviceMemorySize: nat
    var deviceMemoryInUse: bool
    var deviceMemorySizeQuery: bool
    var deviceMemoryQuerySize: nat
    var layerMode: bv32
    var logTraceOs: Option<LogDest>
    var logBenchOs: Option<LogDest>
    var logProfileOs: Option<LogDest>

    /** The arena fields as a value. */
    function State(): ArenaState
      reads this
    {
      ArenaState(deviceMemory, deviceMemorySize, deviceMemoryInUse, deviceMemorySizeQuery, deviceMemoryQuerySize)
    }

    /** The logging fields as a value. */
    function Logging(): LogState
      reads this
    {
      LogState(layerMode, logTraceOs, logBenchOs, logProfileOs)
    }

    /** The handle's invariant: that of its arena. */
    predicate Valid()
      reads this
    {
      Invariant(State())
    }

    /**
      Builds the object once the device is known and the allocation has succeeded; the
      remaining fields take their declared initial values.
     */
    constructor Init(device: int, memory: Option<DevicePtr>, size: nat)
      ensures this.device == device
      ensures State() == ArenaState(memory, size, false, false, 0)
      ensures Logging() == NO_LOGGING
    {
      this.device := device;
      deviceMemory := memory;
      deviceMemorySize := size;
      deviceMemoryInUse := false;
      deviceMemorySizeQuery := false;
      deviceMemoryQuerySize := 0;
      layerMode := LAYER_MODE_NONE;
      logTraceOs := None;
      logBenchOs := None;
      logProfileOs := None;
    }

    /**
      The handle constructor, given what hipGetDevice and hipMalloc answer. A failing
      driver call throws, so no handle results; otherwise the arena has its initial size
      and the buffer hipMalloc returned, and logging is initialised from `env`.
     */
    static method Create(activeDevice: Result<int, HipError>, env: Environment, malloc: MallocOutcome)
      returns (r: Result<Handle, HipError>)
      ensures activeDevice.Err? ==> r == Err(activeDevice.error)
      ensures activeDevice.Ok? && malloc.MallocFailed? ==> r == Err(malloc.error)
      ensures r.Ok? <==> activeDevice.Ok? && malloc.Allocated?
      ensures r.Ok? ==> fresh(r.value) && r.value.device == activeDevice.value
      ensures r.Ok? ==> r.value.State() == InitialArena(env, malloc.ptr)
      ensures r.Ok? ==> r.value.Logging() == Config.InitLogging(NO_LOGGING, env)
      ensures r.Ok? && MallocConforms(InitialSize(env.deviceMemorySize), malloc) ==> r.value.Valid()
    {
      if activeDevice.Err? {
        return Err(activeDevice.error);
      }
      var size := InitialSize(env.deviceMemorySize);
      if malloc.MallocFailed? {
        return Err(malloc.error);
      }
      var h := new Handle.Init(activeDevice.value, malloc.ptr, size);
      h.InitLogging(env);
      if MallocConforms(size, malloc) {
        InitialArenaInvariant(env, malloc.ptr);
      }
      return Ok(h);
    }

    /** init_logging: reads ROCBLAS_LAYER and opens the sinks it enables. */
    method InitLogging(env: Environment)
      modifies this
      ensures Logging() == Config.InitLogging(old(Logging()), env)
      ensures State() == old(State())
    {
      if env.layer.Some? {
        layerMode := env.layer.value;
        if layerMode & LAYER_MODE_LOG_TRACE != 0 {
          logTraceOs := Some(OpenLogStream(env.logTracePath, env.logPath));
        }
        if layerMode & LAYER_MODE_LOG_BENCH != 0 {
          logBenchOs := Some(OpenLogStream(env.logBenchPath, env.logPath));
        }
        if layerMode & LAYER_MODE_LOG_PROFILE != 0 {
          logProfileOs := Some(OpenLogStream(env.logProfilePath, env.logPath));
        }
      }
    }

    /**
      The destructor, given what hipFree answers: aborts while the arena is in use or
      when the free fails, and otherwise ends normally.
     */
    method Destroy(free: HipStatus) returns (t: Teardown)
      ensures t == Arena.Destroy(State(), free)
    {
      if deviceMemoryInUse {
        return Aborted(DestroyedWhileInUse);
      }
      if free.HipFailed? {
        return Aborted(FreeFailedAtDestruction(free.error));
      }
      return Destroyed;
    }
  }

  /** rocblas_start_device_memory_size_query */
  method StartDeviceMemorySizeQuery(handle: Handle?) returns (status: Status)
    modifies handle
    ensures handle == null ==> status == InvalidHandle
    ensures handle != null ==>
              var spec := StartQuery(old(handle.State()));
              status == spec.status && handle.State() == spec.after && handle.Logging() == old(handle.Logging())
    ensures handle != null && old(handle.Valid()) ==> handle.Valid()
  {
    if handle == null {
      return InvalidHandle;
    }
    if handle.deviceMemorySizeQuery {
      return SizeQueryMismatch;
    }
    handle.deviceMemorySizeQuery := true;
    handle.deviceMemoryQuerySize := 0;
    return Success;
  }

  /** rocblas_stop_device_memory_size_query */
  method StopDeviceMemorySizeQuery(handle: Handle?, size: SizeCell?) returns (status: Status)
    modifies handle, size
    ensures handle == null ==> status == InvalidHandle && (size != null ==> size.value == old(size.value))
    ensures handle != null ==>
              var spec := StopQuery(old(handle.State()), size != null);
              status == spec.status && handle.State() == spec.after && handle.Logging() == old(handle.Logging()) &&
              (spec.written.Some? ==> size != null && size.value == spec.written.value) &&
              (spec.written.None? && size != null ==> size.value == old(size.value))
    ensures handle != null && old(handle.Valid()) ==> handle.Valid()
  {
    if handle == null {
      return InvalidHandle;
    }
    if !handle.deviceMemorySizeQuery {
      return SizeQueryMismatch;
    }
    if size == null {
      return InvalidPointer;
    }
    size.value := handle.deviceMemoryQuerySize;
    handle.deviceMemorySizeQuery := false;
    return Success;
  }

  /** rocblas_get_device_memory_size */
  method GetDeviceMemorySize(handle: Handle?, size: SizeCell?) returns (status: Status)
    modifies size
    ensures handle == null ==> status == InvalidHandle && (size != null ==> size.value == old(size.value))
    ensures handle != null ==>
              var spec := GetSize(handle.State(), size != null);
              status == spec.status &&
              (spec.written.Some? ==> size != null && size.value == spec.written.value) &&
              (spec.written.None? && size != null ==> size.value == old(size.value))
  {
    if handle == null {
      return InvalidHandle;
    }
    if size == null {
      return InvalidPointer;
    }
    size.value := handle.deviceMemorySize;
    return Success;
  }

  /**
    rocblas_set_device_memory_size, given what hipFree and hipMalloc answer when they
    are called.
   */
  method SetDeviceMemorySize(handle: Handle?, size: nat, free: HipStatus, malloc: MallocOutcome)
    returns (status: Status)
    modifies handle
    ensures handle == null ==> status == InvalidHandle
    ensures handle != null ==>
              var spec := SetSize(old(handle.State()), size, free, malloc);
              status == spec.status && handle.State() == spec.after && handle.Logging() == old(handle.Logging())
    ensures handle != null && MallocConforms(Roundup(size), malloc) && old(handle.Valid()) ==> handle.Valid()
    ensures handle != null && MallocConforms(Roundup(size), malloc) &&
            !old(handle.deviceMemoryInUse) && free.HipSuccess?
            ==> handle.Valid()
  {
    if handle == null {
      return InvalidHandle;
    }
    if handle.deviceMemoryInUse {
      return InternalError;
    }
    if free.HipFailed? {
      return StatusForHip(free.error);
    }
    handle.deviceMemory := None;
    handle.deviceMemorySize := 0;
    var rounded := Roundup(size);
    match malloc
    case MallocFailed(e) =>
      handle.deviceMemory := None;
      return StatusForHip(e);
    case Allocated(p) =>
      handle.deviceMemory := p;
      handle.deviceMemorySize := rounded;
      return Success;
  }

  /**
    An extension: the size-request hook kernels call while a query is open is not in
    handle.cpp; this method keeps the largest request.
   */
  method RequestDeviceMemorySize(handle: Handle, bytes: nat) returns (status: Status)
    modifies handle
    ensures var spec := RequestSize(old(handle.State()), bytes);
            status == spec.status && handle.State() == spec.after && handle.Logging() == old(handle.Logging())
    ensures old(handle.Valid()) ==> handle.Valid()
  {
    if !handle.deviceMemorySizeQuery {
      return SizeQueryMismatch;
    }
    if bytes > handle.deviceMemoryQuerySize {
      handle.deviceMemoryQuerySize := bytes;
    }
    return Success;
  }

  /** rocblas_is_managing_device_memory: the library never manages the arena on its own. */
  function IsManagingDeviceMemory(handle: Handle?): (managed: bool)
    ensures !managed
  {
    false
  }
}
