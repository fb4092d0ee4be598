/** Shared vocabulary of the coroutine runtime model: handles, optional
    values, the unit placeholder of a `void` result, and captured exceptions. */
module Base {

  /** The identity of one coroutine frame (`std::coroutine_handle<>`).
      `std::noop_coroutine()` is not a frame; see `Awaiters.Next`. */
  type Handle = nat

  /** An optional value; used for `mPrevious` (a possibly null handle) and
      `mException` (a possibly null `std::exception_ptr`). */
  datatype Option<+T> = None | Some(value: T)

  /** The placeholder `NonVoidHelper<>{}` that stands for a `void` result. */
  datatype Unit = Unit

  /** A captured exception; `std::exception_ptr` is opaque, only its identity matters. */
  datatype Exc = Exc(id: nat)
}
