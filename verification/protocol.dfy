/**
  Properties of sequences of entry-point calls on one handle: what the arena invariant,
  the in-use flag and the size-query window guarantee across calls.
 */
module Protocol {
  import opened Wrappers
  import opened Hip
  import opened Config
  import opened Arena

  /** One call of an arena entry point on a non-null handle, with the driver's answers. */
  datatype Op =
    | StartOp
    | StopOp(out: bool)
    | GetOp(out: bool)
    | SetOp(bytes: nat, free: HipStatus, malloc: MallocOutcome)
    | RequestOp(bytes: nat)

  function Step(a: ArenaState, op: Op): Reply
  {
    match op
    case StartOp => StartQuery(a)
    case StopOp(out) => StopQuery(a, out)
    case GetOp(out) => GetSize(a, out)
    case SetOp(bytes, free, malloc) => SetSize(a, bytes, free, malloc)
    case RequestOp(bytes) => RequestSize(a, bytes)
  }

  /** The arena after the calls `ops`, made in order. */
  function Run(a: ArenaState, ops: seq<Op>): ArenaState
    decreases |ops|
  {
    if ops == [] then a else Run(Step(a, ops[0]).after, ops[1..])
  }

  /** Every allocation in `ops` follows the driver's rule for hipMalloc. */
  predicate DriverConforms(ops: seq<Op>)
  {
    forall i :: 0 <= i < |ops| && ops[i].SetOp? ==> MallocConforms(Roundup(ops[i].bytes), ops[i].malloc)
  }

  /** No sequence of entry-point calls breaks "size zero exactly when there is no buffer". */
  lemma {:induction false} RunKeepsInvariant(a: ArenaState, ops: seq<Op>)
    requires Invariant(a) && DriverConforms(ops)
    ensures Invariant(Run(a, ops))
    decreases |ops|
  {
    if ops != [] {
      assert DriverConforms(ops[1..]) by {
        forall i | 0 <= i < |ops[1..]| && ops[1..][i].SetOp?
          ensures MallocConforms(Roundup(ops[1..][i].bytes), ops[1..][i].malloc)
        {
          assert ops[1..][i] == ops[i + 1];
        }
      }
      if ops[0].SetOp? {
        assert MallocConforms(Roundup(ops[0].bytes), ops[0].malloc);
      }
      RunKeepsInvariant(Step(a, ops[0]).after, ops[1..]);
    }
  }

  /** No entry point sets or clears device_memory_in_use. */
  lemma {:induction false} RunKeepsInUse(a: ArenaState, ops: seq<Op>)
    ensures Run(a, ops).inUse == a.inUse
    decreases |ops|
  {
    if ops != [] {
      RunKeepsInUse(Step(a, ops[0]).after, ops[1..]);
    }
  }

  /** While the arena is in use, no sequence of calls frees, replaces or resizes the buffer. */
  lemma {:induction false} InUseFreezesBuffer(a: ArenaState, ops: seq<Op>)
    requires a.inUse
    ensures Run(a, ops).memory == a.memory && Run(a, ops).size == a.size
    decreases |ops|
  {
    if ops != [] {
      RunKeepsInUse(a, ops[..1]);
      InUseFreezesBuffer(Step(a, ops[0]).after, ops[1..]);
    }
  }

  /** Calls other than set_device_memory_size never touch the buffer or its size. */
  lemma {:induction false} OnlySetTouchesBuffer(a: ArenaState, ops: seq<Op>)
    requires forall i :: 0 <= i < |ops| ==> !ops[i].SetOp?
    ensures Run(a, ops).memory == a.memory && Run(a, ops).size == a.size
    decreases |ops|
  {
    if ops != [] {
      assert forall i :: 0 <= i < |ops[1..]| ==> ops[1..][i] == ops[i + 1];
      OnlySetTouchesBuffer(Step(a, ops[0]).after, ops[1..]);
    }
  }

  /** The largest of the sizes `cs`, or 0 when there are none. */
  function MaxOf(cs: seq<nat>): (m: nat)
    ensures forall i :: 0 <= i < |cs| ==> cs[i] <= m
    ensures cs == [] ==> m == 0
    ensures cs != [] ==> exists i :: 0 <= i < |cs| && cs[i] == m
  {
    if cs == [] then 0
    else
      var rest := MaxOf(cs[1..]);
      assert forall i :: 1 <= i < |cs| ==> cs[i] == cs[1..][i - 1];
      if cs[0] >= rest then cs[0]
      else
        assert exists i :: 0 <= i < |cs[1..]| && cs[1..][i] == rest;
        var k :| 0 <= k < |cs[1..]| && cs[1..][k] == rest;
        assert cs[k + 1] == rest;
        rest
  }

  /** The query window seeing the kernel requests `cs`, in order. */
  function RequestAll(a: ArenaState, cs: seq<nat>): ArenaState
    decreases |cs|
  {
    if cs == [] then a else RequestAll(RequestSize(a, cs[0]).after, cs[1..])
  }

  /** Inside an open query, the accumulator ends at the larger of its start value and every request. */
  lemma {:induction false} RequestAllAccumulates(a: ArenaState, cs: seq<nat>)
    requires a.sizeQuery
    ensures RequestAll(a, cs) == a.(querySize := if a.querySize >= MaxOf(cs) then a.querySize else MaxOf(cs))
    decreases |cs|
  {
    if cs != [] {
      var next := RequestSize(a, cs[0]).after;
      RequestAllAccumulates(next, cs[1..]);
      assert MaxOf(cs) == if cs[0] >= MaxOf(cs[1..]) then cs[0] else MaxOf(cs[1..]);
    }
  }

  /**
    Start, any number of kernel requests, stop: the stop reports the largest request
    (0 when there was none) and closes the query, and the buffer is untouched.
   */
  lemma QueryWindowReportsMax(a: ArenaState, cs: seq<nat>)
    requires !a.sizeQuery
    ensures var started := StartQuery(a);
            var stopped := StopQuery(RequestAll(started.after, cs), true);
            started.status == Success && stopped.status == Success &&
            stopped.written == Some(MaxOf(cs)) &&
            stopped.after == a.(querySize := MaxOf(cs))
  {
    RequestAllAccumulates(StartQuery(a).after, cs);
  }

  /** A start followed at once by a stop reports 0. */
  lemma StartThenStopReportsZero(a: ArenaState)
    requires !a.sizeQuery
    ensures StopQuery(StartQuery(a).after, true).written == Some(0)
  {
  }

  /**
    A second start inside an open window fails with size_query_mismatch and does not
    disturb the window: the eventual stop still reports the first window's maximum.
   */
  lemma NestedStartKeepsWindow(a: ArenaState, before: seq<nat>, after: seq<nat>)
    requires !a.sizeQuery
    ensures var inWindow := RequestAll(StartQuery(a).after, before);
            var again := StartQuery(inWindow);
            again.status == SizeQueryMismatch && again.after == inWindow &&
            StopQuery(RequestAll(again.after, after), true).written == Some(MaxOf(before + after))
  {
    var window := StartQuery(a).after;
    RequestAllAccumulates(window, before);
    var inWindow := RequestAll(window, before);
    RequestAllAccumulates(inWindow, after);
    RequestAllAccumulates(window, before + after);
    MaxOfConcat(before, after);
  }

  /** The maximum of two sequences put together is the larger of their maxima. */
  lemma {:induction false} MaxOfConcat(xs: seq<nat>, ys: seq<nat>)
    ensures MaxOf(xs + ys) == if MaxOf(xs) >= MaxOf(ys) then MaxOf(xs) else MaxOf(ys)
    decreases |xs|
  {
    if xs == [] {
      assert xs + ys == ys;
    } else {
      assert (xs + ys)[1..] == xs[1..] + ys;
      MaxOfConcat(xs[1..], ys);
    }
  }

  /** A stop with no open query fails and changes nothing. */
  lemma StopWithoutStartFails(a: ArenaState, out: bool)
    requires !a.sizeQuery
    ensures StopQuery(a, out) == Reply(SizeQueryMismatch, a, None)
  {
  }

  /** After a successful set_device_memory_size(n), get_device_memory_size reports roundup(n). */
  lemma SetThenGet(a: ArenaState, n: nat, free: HipStatus, malloc: MallocOutcome)
    requires SetSize(a, n, free, malloc).status == Success
    ensures GetSize(SetSize(a, n, free, malloc).after, true).written == Some(Roundup(n))
    ensures Roundup(n) >= n && Roundup(n) % MIN_CHUNK_SIZE == 0
  {
  }

  /** Setting the size to the rounded value reported after a set gives that same size again. */
  lemma SetRoundedSizeIsStable(a: ArenaState, n: nat, free1: HipStatus, malloc1: MallocOutcome,
                               free2: HipStatus, malloc2: MallocOutcome)
    requires SetSize(a, n, free1, malloc1).status == Success
    requires var b := SetSize(a, n, free1, malloc1).after;
             SetSize(b, b.size, free2, malloc2).status == Success
    ensures var b := SetSize(a, n, free1, malloc1).after;
            SetSize(b, b.size, free2, malloc2).after.size == b.size
  {
  }

  /** set_device_memory_size while the arena is in use fails with internal_error and changes nothing. */
  lemma SetWhileInUseChangesNothing(a: ArenaState, n: nat, free: HipStatus, malloc: MallocOutcome)
    requires a.inUse
    ensures SetSize(a, n, free, malloc) == Reply(InternalError, a, None)
  {
  }

  /**
    The constructor does not round: with ROCBLAS_DEVICE_MEMORY_SIZE one byte above a chunk
    the arena has exactly that size, which is not a multiple of MIN_CHUNK_SIZE.
   */
  lemma ConstructorDoesNotRound(env: Environment)
    requires env.deviceMemorySize == Some(MIN_CHUNK_SIZE + 1)
    ensures InitialSize(env.deviceMemorySize) == MIN_CHUNK_SIZE + 1
    ensures InitialSize(env.deviceMemorySize) % MIN_CHUNK_SIZE != 0
  {
  }

  /** The obsolete WORKBUF_TRSM_B_CHNK variable has no effect on the arena. */
  lemma LegacyVariableIgnored(env: Environment, legacy: Option<string>, memory: Option<DevicePtr>)
    ensures InitialArena(env.(workbufTrsmBChnk := legacy), memory) == InitialArena(env, memory)
  {
  }

  /**
    A whole session on a handle built with the default size: a query window sees 1000,
    500 and 2000 and reports 2000; resizing to it succeeds; once a kernel holds the
    arena a resize fails with internal_error and the size stays; after release the
    handle is destroyed normally.
   */
  lemma EndToEndSession(env: Environment, p0: DevicePtr, p1: DevicePtr)
    requires env.deviceMemorySize.None?
    ensures var a0 := InitialArena(env, Some(p0));
            var q := StartQuery(a0);
            var a1 := RequestAll(q.after, [1000, 500, 2000]);
            var stop := StopQuery(a1, true);
            var resized := SetSize(stop.after, 2000, HipSuccess, Allocated(Some(p1)));
            var held := resized.after.(inUse := true);
            var refused := SetSize(held, 7, HipSuccess, Allocated(Some(p0)));
            a0.size == DEFAULT_DEVICE_MEMORY_SIZE &&
            stop.written == Some(2000) &&
            resized.status == Success && GetSize(resized.after, true).written == Some(Roundup(2000)) &&
            refused.status == InternalError && refused.after.size == Roundup(2000) &&
            Destroy(refused.after.(inUse := false), HipSuccess) == Destroyed
  {
  }
}
