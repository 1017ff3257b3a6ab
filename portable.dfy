/** The backend-neutral side of the multiplexer: the portable interest bits a
    caller passes to `add_polled`, the ready events `get_ready` hands back, the
    error outcomes of the operations, and the raw result of one kernel wait. */
module Portable {

  /** The three portable interest bits. POLLIN and POLLOUT take the values
      <poll.h> gives them on Linux and on the BSDs. POLLET is defined in
      `multiplexer.h`, which is not part of this model, so its value is left
      open: it is some single bit that overlaps neither POLLIN nor POLLOUT,
      and every property below holds whichever bit that is. */
  const POLLIN: bv32 := 0x0001
  const POLLOUT: bv32 := 0x0004
  const POLLET: EdgeBit

  predicate SingleBit(b: bv32) {
    b != 0 && b & (b - 1) == 0
  }

  type EdgeBit = b: bv32 | SingleBit(b) && b & (POLLIN | POLLOUT) == 0 witness 0x2000

  type Positive = n: int | n > 0 witness 1

  /** The largest batch one wait call may deliver; its value is also set in
      `multiplexer.h`, so it is left open beyond being positive. */
  const MAX_EVENTS: Positive

  /** The number of kqueue filters per descriptor (read and write). */
  const SUPPORTED_TYPES: nat := 2

  /** `Multiplexer::event`: a ready descriptor and what it is ready for
      (`kind` is the C++ member `type`, whose default value is 0). */
  datatype Event = Event(fd: int, kind: bv32)

  /** The exceptions the operations throw, one outcome each. */
  datatype Error = ResourceCreationError | RegistrationError | WaitError

  datatype Outcome = Pass | Fail(error: Error)

  datatype Result<T> = Ok(value: T) | Err(error: Error)

  datatype Option<T> = None | Some(value: T)

  /** A batch of raw kernel records: the kernel fills at most MAX_EVENTS of them. */
  type Batch<R> = s: seq<R> | |s| <= MAX_EVENTS witness []

  /** What one blocking wait call returns: failure (-1) or a batch of `cnt` records. */
  datatype Wait<R> = WaitFailed | Delivered(batch: Batch<R>)
}
