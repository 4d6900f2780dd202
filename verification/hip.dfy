/**
  The accelerator driver as the handle sees it, and the library's status codes.

  The driver calls (hipMalloc, hipFree, hipGetDevice) are not executed: their outcomes
  are inputs to the operations that call them, so that every branch of the handle's
  code can be reached.
 */
module Hip {
  import opened Wrappers

  /** An opaque device address. A null device pointer is `None` of `Option<DevicePtr>`. */
  type DevicePtr = nat

  /** A driver error code: any hipError_t other than hipSuccess. */
  datatype HipError = HipError(code: nat)

  /** The outcome of a driver call that returns only a status (hipFree). */
  datatype HipStatus = HipSuccess | HipFailed(error: HipError)

  /** The outcome of hipMalloc: the status and, on success, the pointer it wrote. */
  datatype MallocOutcome = Allocated(ptr: Option<DevicePtr>) | MallocFailed(error: HipError)

  /**
    The driver's own rule for hipMalloc: a successful request of zero bytes yields a null
    pointer and a successful request of any other size yields a non-null one.
   */
  predicate MallocConforms(bytes: nat, m: MallocOutcome)
  {
    m.Allocated? ==> (m.ptr.None? <==> bytes == 0)
  }

  /** rocblas_status, restricted to the values the handle's entry points return. */
  datatype Status =
    | Success
    | InvalidHandle
    | InvalidPointer
    | SizeQueryMismatch
    | InternalError
      /** whatever get_rocblas_status_for_hip_status gives for this driver error */
    | FromHip(hip: HipError)

  /** get_rocblas_status_for_hip_status for a failing driver call: never success. */
  function StatusForHip(e: HipError): (s: Status)
    ensures s != Success
  {
    FromHip(e)
  }
}
