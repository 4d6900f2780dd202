# rocBLAS handle device-memory arena, modelled in Dafny

rocBLAS keeps one long-lived device-memory workspace (the "arena") in each execution
handle (`_rocblas_handle`). Kernels borrow it instead of allocating scratch memory per
call. This project models the handle's arena state machine and the C entry points that
read and change it:

- the handle constructor, which picks the initial size and allocates it;
- the destructor, which aborts the process rather than free a buffer a kernel holds;
- the two-phase size query (`rocblas_start_device_memory_size_query` /
  `rocblas_stop_device_memory_size_query`);
- `rocblas_get_device_memory_size` and `rocblas_set_device_memory_size`;
- `rocblas_is_managing_device_memory`;
- the choice of logging sinks made by `init_logging` and `open_log_stream`.

Layout:

- `wrappers.dfy` (`Wrappers`): `Option`, `Result`.
- `hip.dfy` (`Hip`): the driver as the handle sees it. Device pointers are opaque tokens,
  with null as `None`. The answers of `hipMalloc`, `hipFree` and `hipGetDevice` are
  parameters. `rocblas_status` is limited to the values these entry points return.
- `config.dfy` (`Config`): the environment variables, already parsed, and the logging sinks
  they select.
- `arena.dfy` (`Arena`): the five arena fields as a value (`ArenaState`) and one
  specification function per entry point. Each function states its status, the new
  arena and what it writes through the output pointer.
- `handle.dfy` (`RocblasHandle`): the `Handle` class with the source's fields. The C entry
  points are methods on a nullable `Handle?`, so a null handle can be passed. A `size_t*`
  output is a nullable `SizeCell?`. Each method is proved equal to its specification
  function, and proved to leave the logging fields alone.
- `protocol.dfy` (`Protocol`): lemmas about sequences of calls. They cover the arena
  invariant, the in-use flag, query windows, and set-then-get.

The arena invariant is `size == 0 <==> buffer == null`. It holds whenever the driver keeps
its own `hipMalloc` rule (`Hip.MallocConforms`): a successful zero-byte request returns
null, and any other successful request returns a non-null pointer.

Two behaviours worth knowing:

- The constructor does not round a configured size (`library/src/handle.cpp:36-47`).
  `Protocol.ConstructorDoesNotRound` shows that the arena size need not be a multiple of
  `MIN_CHUNK_SIZE`.
- A failed hipFree in a resize returns at `library/src/handle.cpp:151` before the fields
  are reset, so the arena keeps its old buffer and size (`Arena.SetSize`).

## Model

| member | source | states |
|---|---|---|
| `Hip.StatusForHip` | library/src/handle.cpp:158-161 | a failing driver call is never reported as success |
| `Config.OpenLogStream` | library/src/handle.cpp:201-208 | the sink's own path variable wins, then ROCBLAS_LOG_PATH; standard error only when neither is set |
| `Config.InitLogging` | library/src/handle.cpp:213-233 | with ROCBLAS_LAYER unset nothing changes; otherwise the layer mode is set, each sink whose bit is set gets the stream open_log_stream chooses, and the other sinks are kept |
| `Config.FreshHandleOpensEnabledSinks` | library/src/handle.cpp:216-231 | a new handle has a trace, bench or profile stream exactly when its bit is set in ROCBLAS_LAYER |
| `Arena.Roundup` | library/src/handle.cpp:155-156 | the rounded size is at least the request and a multiple of MIN_CHUNK_SIZE (the comment at line 155); that it is less than one chunk above the request holds of the chosen ceiling-to-a-multiple body |
| `Arena.RoundupIdempotent` | library/src/handle.cpp:155-156 | rounding a rounded size gives the same size |
| `Arena.RoundupZero` | library/src/handle.cpp:155-156 | only a zero request rounds to zero; this holds of the chosen ceiling-to-a-multiple body |
| `Arena.InitialSize` | library/src/handle.cpp:35-47 | the initial size is positive: ROCBLAS_DEVICE_MEMORY_SIZE when set and non-zero, else DEFAULT_DEVICE_MEMORY_SIZE, unrounded |
| `Arena.InitialArena` | library/src/handle.cpp:46-50 | a new arena has the initial size and the allocated buffer, is not in use, and has no open query |
| `Arena.InitialArenaInvariant` | library/src/handle.cpp:46-50 | a new handle satisfies size zero exactly when the buffer is null |
| `Arena.StartQuery` | library/src/handle.cpp:86-90 | succeeds exactly when no query is open, then opens one with accumulator 0; otherwise size_query_mismatch with nothing changed |
| `Arena.StopQuery` | library/src/handle.cpp:105-111 | mismatch when no query is open, then invalid_pointer for a null output, both changing nothing; on success writes the accumulated size and closes the query |
| `Arena.GetSize` | library/src/handle.cpp:126-129 | never changes the arena; invalid_pointer for a null output, else writes the current size |
| `Arena.SetSize` | library/src/handle.cpp:145-167 | internal_error and no change while in use; a failed free returns its mapped status with no change; a failed allocation leaves no buffer and size 0; success exactly when free and allocation succeed, with size roundup(n); the query fields and in-use flag are kept; once the free succeeds the arena invariant holds afterwards whatever the old arena was (given the hipMalloc rule), and the failed-free path keeps it |
| `Arena.RequestSize` | library/src/handle.cpp:86-111 | an extension: the size-reporting hook is not in handle.cpp; the model keeps the largest request: during an open query the accumulator becomes the larger of itself and the request; otherwise size_query_mismatch |
| `Arena.Destroy` | library/src/handle.cpp:59-76 | ends normally exactly when the arena is not in use and the free succeeds; aborts for in-use before freeing, and aborts on a failed free |
| `RocblasHandle.Handle.Init` | library/src/handle.cpp:26-28 | the object starts with the given device, buffer and size, not in use, no query, no logging |
| `RocblasHandle.Handle.Create` | library/src/handle.cpp:26-54 | a failing hipGetDevice or hipMalloc yields no handle and carries its error; otherwise a fresh handle with the initial arena and initialised logging, satisfying the invariant when the driver keeps its rule |
| `RocblasHandle.Handle.InitLogging` | library/src/handle.cpp:213-233 | the logging fields become Config.InitLogging of their old values; the arena is untouched |
| `RocblasHandle.Handle.Destroy` | library/src/handle.cpp:59-76 | the teardown outcome is Arena.Destroy of the handle's arena: normal exactly when not in use and the free succeeds |
| `RocblasHandle.StartDeviceMemorySizeQuery` | library/src/handle.cpp:81-91 | invalid_handle for null; otherwise status and new arena are those of Arena.StartQuery, logging unchanged, and the handle invariant is kept |
| `RocblasHandle.StopDeviceMemorySizeQuery` | library/src/handle.cpp:100-112 | invalid_handle for null; otherwise as Arena.StopQuery, the output is written only on success, and the handle invariant is kept |
| `RocblasHandle.GetDeviceMemorySize` | library/src/handle.cpp:121-130 | invalid_handle for null; otherwise as Arena.GetSize; the handle is not modified |
| `RocblasHandle.SetDeviceMemorySize` | library/src/handle.cpp:139-168 | invalid_handle for null; otherwise status and new arena are those of Arena.SetSize, and the handle invariant holds afterwards when it held before or the free succeeded (given the hipMalloc rule) |
| `RocblasHandle.RequestDeviceMemorySize` | library/src/handle.cpp:86-111 | an extension: the size-reporting hook is not in handle.cpp; the model keeps the largest request; status and new arena are those of Arena.RequestSize, and the handle invariant is kept |
| `RocblasHandle.IsManagingDeviceMemory` | library/src/handle.cpp:174-181 | false for every handle, null or not, in every state |
| `Protocol.RunKeepsInvariant` | library/src/handle.cpp:150-167 | any sequence of entry-point calls keeps size zero exactly when the buffer is null, given the driver's hipMalloc rule |
| `Protocol.RunKeepsInUse` | library/src/handle.cpp:81-172 | no sequence of entry-point calls changes device_memory_in_use |
| `Protocol.InUseFreezesBuffer` | library/src/handle.cpp:145-148 | while the arena is in use, no sequence of calls changes the buffer or its size |
| `Protocol.OnlySetTouchesBuffer` | library/src/handle.cpp:81-130 | sequences without set_device_memory_size never change the buffer or its size |
| `Protocol.RequestAllAccumulates` | library/src/handle.cpp:86-111 | an extension: the size-reporting hook is not in handle.cpp; the model keeps the largest request; in an open query the accumulator ends at the maximum of its start value and all requests |
| `Protocol.QueryWindowReportsMax` | library/src/handle.cpp:81-112 | start, requests, stop: both calls succeed, stop reports the largest request (0 for none), and the query is closed with the buffer untouched |
| `Protocol.StartThenStopReportsZero` | library/src/handle.cpp:88-109 | a stop straight after a start reports 0 |
| `Protocol.NestedStartKeepsWindow` | library/src/handle.cpp:86-87 | a second start in an open window fails with size_query_mismatch, leaves the window as it was, and the later stop reports the maximum over the whole window |
| `Protocol.StopWithoutStartFails` | library/src/handle.cpp:105-106 | stop with no open query is size_query_mismatch and changes nothing |
| `Protocol.SetThenGet` | library/src/handle.cpp:150-167 | after a successful set of n, get reports roundup(n), a chunk multiple of at least n |
| `Protocol.SetRoundedSizeIsStable` | library/src/handle.cpp:155-165 | setting the size to what a successful set produced gives the same size again |
| `Protocol.SetWhileInUseChangesNothing` | library/src/handle.cpp:145-148 | set while in use returns internal_error and leaves every field as it was |
| `Protocol.ConstructorDoesNotRound` | library/src/handle.cpp:36-47 | ROCBLAS_DEVICE_MEMORY_SIZE=MIN_CHUNK_SIZE+1 gives an arena of exactly that size, which is not a multiple of MIN_CHUNK_SIZE |
| `Protocol.LegacyVariableIgnored` | library/src/handle.cpp:39-47 | WORKBUF_TRSM_B_CHNK has no effect on the arena |
| `Protocol.EndToEndSession` | library/src/handle.cpp:26-181 | default-size handle; a window of requests 1000, 500 and 2000 reports 2000; set(2000) gives roundup(2000); set while in use fails with the size kept; destruction after release is normal |

## Left out

- Driver calls (`hipGetDevice`, `hipMalloc`, `hipFree`) are not modelled. Their answers are parameters. The one rule assumed of them is `Hip.MallocConforms`.
- `get_rocblas_status_for_hip_status` is not modelled in detail. It is the abstract constructor `Status.FromHip`. The real table may map some driver errors onto statuses the model keeps distinct, such as internal_error.
- `Hip.StatusForHip`: states only that the result is never success. The concrete table is not part of this model.
- `roundup_device_memory_size`, `MIN_CHUNK_SIZE` and `DEFAULT_DEVICE_MEMORY_SIZE` are defined in `handle.hpp`, which is not part of this model. `Roundup` is ceiling-to-a-multiple. The constant values (64 and 1 MiB) are placeholders. Besides the ceiling body of `Roundup`, the proofs rely only on `MIN_CHUNK_SIZE > 1` and `DEFAULT_DEVICE_MEMORY_SIZE > 0`.
- The initial values of `device_memory_in_use`, `device_memory_size_query`, `device_memory_query_size` and `layer_mode` are declared in `handle.hpp`. They are taken as false, false, 0 and none.
- `Arena.Roundup`: sizes are unbounded naturals. A `size_t` wrap-around of the rounding for requests within one chunk of SIZE_MAX is not modelled.
- The code that sets and clears `device_memory_in_use` is the workspace checkout helper in `handle.hpp`, which is not part of this model. Lemmas treat the flag as an input.
- `Arena.RequestSize` / `RocblasHandle.RequestDeviceMemorySize`: an extension: the size-reporting hook is not in `handle.cpp`; the model keeps the largest request.
- Environment parsing with `getenv`/`strtoul`/`strtol` is not modelled. Variables arrive already parsed, and `ROCBLAS_LAYER` arrives after its cast to the layer-mode type.
- The one-shot deprecation warning for WORKBUF_TRSM_B_CHNK is not modelled, and neither is any other stderr output. Log streams are only their destinations, with no file I/O.
- Tensile initialisation and `rocblas_initialize` are foreign-library setup with no arena logic, so they are not modelled.
- The `try`/`catch(...)` wrappers mapping exceptions to statuses are not modelled. No modelled path in these bodies throws.
- `rocblas_abort` is not modelled as a process exit. Process termination is the `Aborted` teardown outcome.
- Concurrency is not modelled. The handle is single-owner and `device_memory_in_use` is a plain flag, not a lock.
- `library/src/src64/blas3/rocblas_gemm_64.hpp` holds only declarations of floating-point GEMM entry points, so it is not modelled.
