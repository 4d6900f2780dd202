/**
  The device-memory arena of an execution handle, as a value, and one specification
  function per entry point that reads or changes it. The `Handle` class in handle.dfy
  holds the same state in mutable fields and its methods are proved against these
  functions; the lemmas in protocol.dfy combine them.
 */
module Arena {
  import opened Wrappers
  import opened Hip
  import opened Config

  /**
    The allocation granularity and the built-in arena size. Both are defined in
    handle.hpp, which is not part of this model; besides the body of Roundup, the proofs
    rely only on MIN_CHUNK_SIZE > 1 and DEFAULT_DEVICE_MEMORY_SIZE > 0.
   */
  const MIN_CHUNK_SIZE: nat := 64
  const DEFAULT_DEVICE_MEMORY_SIZE: nat := 1048576

  /** The five arena fields of a handle. */
  datatype ArenaState = ArenaState(
    memory: Option<DevicePtr>,  // device_memory (None is the null pointer)
    size: nat,                  // device_memory_size
    inUse: bool,                // device_memory_in_use
    sizeQuery: bool,            // device_memory_size_query
    querySize: nat              // device_memory_query_size
  )

  /** The arena's own invariant: it has a buffer exactly when its size is non-zero. */
  predicate Invariant(a: ArenaState)
  {
    a.size == 0 <==> a.memory.None?
  }

  /** What an entry point returns: its status, the new arena and what it wrote through its output pointer. */
  datatype Reply = Reply(status: Status, after: ArenaState, written: Option<nat>)

  /** roundup_device_memory_size: the least multiple of MIN_CHUNK_SIZE that is at least `n`. */
  function Roundup(n: nat): (r: nat)
    ensures n <= r < n + MIN_CHUNK_SIZE
    ensures r % MIN_CHUNK_SIZE == 0
  {
    (n + MIN_CHUNK_SIZE - 1) / MIN_CHUNK_SIZE * MIN_CHUNK_SIZE
  }

  /** Rounding an already rounded size changes nothing. */
  lemma RoundupIdempotent(n: nat)
    ensures Roundup(Roundup(n)) == Roundup(n)
  {
  }

  /** Only a request of zero bytes rounds to zero. */
  lemma RoundupZero(n: nat)
    ensures Roundup(n) == 0 <==> n == 0
  {
  }

  /**
    The arena size chosen by the constructor: ROCBLAS_DEVICE_MEMORY_SIZE when it is set
    and non-zero, DEFAULT_DEVICE_MEMORY_SIZE otherwise. No rounding is applied.
   */
  function InitialSize(deviceMemorySize: Option<nat>): (n: nat)
    ensures n > 0
    ensures deviceMemorySize.Some? && deviceMemorySize.value != 0 ==> n == deviceMemorySize.value
    ensures deviceMemorySize.None? || deviceMemorySize.value == 0 ==> n == DEFAULT_DEVICE_MEMORY_SIZE
  {
    if deviceMemorySize.Some? && deviceMemorySize.value != 0 then deviceMemorySize.value
    else DEFAULT_DEVICE_MEMORY_SIZE
  }

  /** The arena of a freshly constructed handle whose allocation returned `memory`. */
  function InitialArena(env: Environment, memory: Option<DevicePtr>): (a: ArenaState)
    ensures a.size == InitialSize(env.deviceMemorySize) && a.memory == memory
    ensures !a.inUse && !a.sizeQuery && a.querySize == 0
  {
    ArenaState(memory, InitialSize(env.deviceMemorySize), false, false, 0)
  }

  /** A constructed handle satisfies the invariant when the driver keeps its rule. */
  lemma InitialArenaInvariant(env: Environment, memory: Option<DevicePtr>)
    requires MallocConforms(InitialSize(env.deviceMemorySize), Allocated(memory))
    ensures Invariant(InitialArena(env, memory))
  {
  }

  /**
    rocblas_start_device_memory_size_query on a non-null handle: refuses to nest, and
    otherwise opens the query with an empty accumulator.
   */
  function StartQuery(a: ArenaState): (r: Reply)
    ensures r.written == None
    ensures r.status == Success <==> !a.sizeQuery
    ensures r.status != Success ==> r.status == SizeQueryMismatch && r.after == a
    ensures r.status == Success ==> r.after == a.(sizeQuery := true, querySize := 0)
  {
    if a.sizeQuery then Reply(SizeQueryMismatch, a, None)
    else Reply(Success, a.(sizeQuery := true, querySize := 0), None)
  }

  /**
    rocblas_stop_device_memory_size_query on a non-null handle, `out` telling whether the
    output pointer is non-null: the query must be open, then the pointer must be non-null;
    on success the accumulated size is written and the query is closed.
   */
  function StopQuery(a: ArenaState, out: bool): (r: Reply)
    ensures r.status == Success <==> a.sizeQuery && out
    ensures !a.sizeQuery ==> r == Reply(SizeQueryMismatch, a, None)
    ensures a.sizeQuery && !out ==> r == Reply(InvalidPointer, a, None)
    ensures r.status == Success ==> r.written == Some(a.querySize) && r.after == a.(sizeQuery := false)
  {
    if !a.sizeQuery then Reply(SizeQueryMismatch, a, None)
    else if !out then Reply(InvalidPointer, a, None)
    else Reply(Success, a.(sizeQuery := false), Some(a.querySize))
  }

  /** rocblas_get_device_memory_size on a non-null handle: a pure read of the size. */
  function GetSize(a: ArenaState, out: bool): (r: Reply)
    ensures r.after == a
    ensures r.status == Success <==> out
    ensures !out ==> r.status == InvalidPointer && r.written == None
    ensures out ==> r.written == Some(a.size)
  {
    if !out then Reply(InvalidPointer, a, None) else Reply(Success, a, Some(a.size))
  }

  /**
    rocblas_set_device_memory_size on a non-null handle, given what hipFree and hipMalloc
    answer. Refused while the arena is in use; a failing free returns before any field
    changes; otherwise the old buffer is dropped and `n`, rounded up, is allocated.
   */
  function SetSize(a: ArenaState, n: nat, free: HipStatus, malloc: MallocOutcome): (r: Reply)
    ensures r.written == None
    ensures r.after.inUse == a.inUse && r.after.sizeQuery == a.sizeQuery && r.after.querySize == a.querySize
    ensures r.status == Success <==> !a.inUse && free.HipSuccess? && malloc.Allocated?
    ensures a.inUse ==> r.status == InternalError && r.after == a
    ensures !a.inUse && free.HipFailed? ==> r.status == StatusForHip(free.error) && r.after == a
    ensures !a.inUse && free.HipSuccess? && malloc.MallocFailed? ==>
              r.status == StatusForHip(malloc.error) && r.after.memory == None && r.after.size == 0
    ensures r.status == Success ==> r.after.size == Roundup(n) && r.after.memory == malloc.ptr
    ensures Invariant(a) && MallocConforms(Roundup(n), malloc) ==> Invariant(r.after)
    ensures !a.inUse && free.HipSuccess? && MallocConforms(Roundup(n), malloc) ==> Invariant(r.after)
  {
    if a.inUse then Reply(InternalError, a, None)
    else if free.HipFailed? then Reply(StatusForHip(free.error), a, None)
    else
      var emptied := a.(memory := None, size := 0);
      match malloc
      case MallocFailed(e) => Reply(StatusForHip(e), emptied, None)
      case Allocated(p) => Reply(Success, emptied.(memory := p, size := Roundup(n)), None)
  }

  /**
    A kernel reporting, during an open query, that it would need `bytes` of workspace:
    the accumulator keeps the largest request. Outside a query nothing changes.
   */
  function RequestSize(a: ArenaState, bytes: nat): (r: Reply)
    ensures r.written == None
    ensures r.status == Success <==> a.sizeQuery
    ensures !a.sizeQuery ==> r == Reply(SizeQueryMismatch, a, None)
    ensures a.sizeQuery ==> r.after == a.(querySize := r.after.querySize)
    ensures a.sizeQuery ==> r.after.querySize >= a.querySize && r.after.querySize >= bytes
    ensures a.sizeQuery ==> r.after.querySize == a.querySize || r.after.querySize == bytes
  {
    if !a.sizeQuery then Reply(SizeQueryMismatch, a, None)
    else Reply(Success, a.(querySize := if bytes > a.querySize then bytes else a.querySize), None)
  }

  /** Why the destructor ends the process. */
  datatype AbortReason = DestroyedWhileInUse | FreeFailedAtDestruction(error: HipError)

  /** How the destructor ends: normally, or by aborting the process. */
  datatype Teardown = Destroyed | Aborted(reason: AbortReason)

  /**
    The handle destructor, given what hipFree answers: it aborts when the arena is in
    use (before freeing anything) and when the free fails, and completes otherwise.
   */
  function Destroy(a: ArenaState, free: HipStatus): (t: Teardown)
    ensures t == Destroyed <==> !a.inUse && free.HipSuccess?
    ensures a.inUse ==> t == Aborted(DestroyedWhileInUse)
    ensures !a.inUse && free.HipFailed? ==> t == Aborted(FreeFailedAtDestruction(free.error))
  {
    if a.inUse then Aborted(DestroyedWhileInUse)
    else if free.HipFailed? then Aborted(FreeFailedAtDestruction(free.error))
    else Destroyed
  }
}
