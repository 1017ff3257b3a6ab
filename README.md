# Event Multiplexer model

This project models the Event Multiplexer of `multiplexer.cpp`. The multiplexer is a thin
portable layer over a kernel readiness facility. A caller registers a descriptor
with portable interest bits (`POLLIN`, `POLLOUT`, `POLLET`) through `add_polled`.
It removes the descriptor with `delete_polled`, which returns a success boolean.
It drains one batch of kernel notifications with `get_ready`. That call closes
hung-up descriptors and returns the rest as `{fd, type}` events.

The code has two backends, chosen at build time. Each is its own module here:

- `Epoll` is the Linux backend. Interest is one epoll mask per descriptor. A record
  with EPOLLERR or EPOLLHUP is deregistered, then closed.
- `Kqueue` is the BSD/macOS backend. Interest is a read filter and a write filter per
  descriptor, each enabled or disabled explicitly. A record with EV_EOF is closed.
  The kernel then drops the descriptor's filters.

The kernel is abstracted as state held in a class per backend:

- `EpollMultiplexer.watched` is the epoll interest table, mapping each descriptor to its mask.
- `KqueueMultiplexer.knotes` is the kqueue filter table, mapping (descriptor, filter) to
  enabled and EV_CLEAR.
- `closed` in both classes is the set of descriptors the multiplexer has closed.

Each system call is a small method of its class (`CtlAdd`, `CtlDel`, `Kevent`,
`Close`). The multiplexer's own methods call these, as the C++ code calls the kernel.

How the kernel decides is modelled as follows:

- Adding interest can fail for reasons the model does not see, such as a bad
  descriptor or resource limits. That verdict is a parameter: `accepted` for
  EPOLL_CTL_ADD, and one verdict per change for `kevent` (`acceptRead` and
  `acceptWrite` for the two changes `add_polled` submits).
- On Linux, EPOLL_CTL_ADD is also refused for a descriptor that is already watched.
- Deleting on Linux, and disabling without EV_ADD on BSD, fails exactly when the
  entry is absent.
- `kevent` applies its change list in order. It stops at the first refused change,
  and the changes before it stay applied. So a refused write change leaves the
  read filter that `add_polled` just replaced in place, although the call fails.
- The BSD multiplexer only ever registers read and write filters. This is the
  class invariant `KqueueMultiplexer.Valid`, kept by every method.
- A wait call's result is an input: failure, or a batch of at most `MAX_EVENTS` records.

The `get_ready` loop that both backends share is specified once, generically, in
module `Drain`. Its output is the in-order image of the records that are not
dropped. The descriptors it closes are those of the dropped records. Each
backend's `GetReady` loop is proved against that specification.

Constants come from three places:

- The epoll and kqueue constants have their `<sys/epoll.h>` and `<sys/event.h>` values.
- `POLLIN` and `POLLOUT` have their `<poll.h>` values.
- `multiplexer.h` is not part of this model. So `POLLET` is left open: it is some
  single bit that overlaps neither `POLLIN` nor `POLLOUT` (type `EdgeBit`), and every
  property is proved for any such bit. `MAX_EVENTS` is left as an unspecified
  positive constant.
- `SUPPORTED_TYPES` is 2, because the code uses `evset[0]` and `evset[1]`.
- The default of `event::type` is taken to be 0.

Where the intended contract of the multiplexer and the code disagree, the model
follows the code:

- **Re-registration on Linux.** The intended contract is that re-registration replaces a
  descriptor's interest. The Linux code registers with EPOLL_CTL_ADD, so
  re-registering a watched descriptor fails with a registration error
  (`Epoll.EpollMultiplexer.AddPolled`). On BSD, EV_ADD replaces both filters
  (`Kqueue.ApplyEncodedInterest`).
- **Flags are not checked.** The intended contract asks for a non-empty set of flags. The code
  accepts any `int`, ignores bits other than the three, and so does the model.
- **Hang-ups on BSD.** The intended contract is that a hung-up descriptor never appears among the
  returned events. On Linux this holds, because epoll reports a descriptor at most
  once per wait (`Epoll.HungUpNotReported`). kqueue reports the read and write
  filters of one descriptor as separate records. So one batch can close a
  descriptor with one record and report it with the other
  (`Kqueue.ClosedDescriptorCanBeReported`). The property holds when each descriptor
  occurs at most once (`Kqueue.EofNotReported`).
- **Other filters on BSD.** A record whose filter is neither read nor write gives an
  event whose type is 0.
- **Interrupted waits.** The intended contract treats an interrupted wait as benign.
  The code raises a wait error whenever `epoll_wait` or `kevent` returns -1
  (multiplexer.cpp:108, 141), EINTR included. So `GetReady` fails on every failed wait.
- **Partial registration on BSD.** A failed `add_polled` is meant to change nothing.
  When the kernel takes the read change and refuses the write change, the read
  filter stays replaced (`Kqueue.KqueueMultiplexer.AddPolled`).

## Model

| member | source | states |
|---|---|---|
| `Drain.Kept` | multiplexer.cpp:113-134 | A drain never returns more events than the batch has records. |
| `Drain.KeptIndices` | multiplexer.cpp:146-166 | The kept positions are positions of the batch. |
| `Drain.KeptIsOrderedImage` | multiplexer.cpp:113-134 | The output is exactly the in-order subsequence of records that are not hang-ups, each translated. Kept positions strictly increase, and every record that is not a hang-up is kept. |
| `Drain.KeptMembership` | multiplexer.cpp:146-166 | Every returned event is the translation of some record of the batch that is not a hang-up. |
| `Drain.DroppedKeysMembership` | multiplexer.cpp:116-119 | A descriptor is closed by the drain if and only if some hung-up record of the batch carries it. |
| `Drain.NothingDroppedKeepsAll` | multiplexer.cpp:146-166 | A batch with no hang-ups is returned whole, one translated event per record, in order. |
| `Epoll.EncodeInterest` | multiplexer.cpp:52-63 | The submitted event carries the given fd. Its mask has EPOLLIN iff POLLIN was asked for, EPOLLOUT iff POLLOUT, EPOLLET iff POLLET, and no other bit. |
| `Epoll.DecodeEncodedInterest` | multiplexer.cpp:52-63 | The submitted mask determines the requested portable bits: decoding it gives back exactly the request's POLLIN/POLLOUT/POLLET bits. |
| `Epoll.Translate` | multiplexer.cpp:121-130 | An event keeps the record's fd. Its type has POLLIN iff the record had EPOLLIN, POLLOUT iff it had EPOLLOUT, and nothing else. |
| `Epoll.EpollMultiplexer.constructor` | multiplexer.cpp:24 | A new multiplexer holds its epoll descriptor and an empty table. |
| `Epoll.EpollMultiplexer.CtlAdd` | multiplexer.cpp:64 | EPOLL_CTL_ADD succeeds iff the kernel accepts and the fd is not yet watched. On success the fd is added with the mask. Otherwise nothing changes. |
| `Epoll.EpollMultiplexer.CtlDel` | multiplexer.cpp:89 | EPOLL_CTL_DEL succeeds iff the fd is watched. Afterwards it is not watched, and no other entry changes. |
| `Epoll.EpollMultiplexer.Close` | multiplexer.cpp:119 | Closing logs the fd as closed and leaves the epoll table alone. |
| `Epoll.EpollMultiplexer.AddPolled` | multiplexer.cpp:49-68 | Registration succeeds iff the kernel accepts and the fd is not already watched. On success only the fd's entry is added, with the encoded mask. On failure it raises a registration error and the table is unchanged. |
| `Epoll.EpollMultiplexer.DeletePolled` | multiplexer.cpp:86-90 | Returns true iff the fd was watched. Afterwards the fd is not watched, and no other registration or closed fd changes. |
| `Epoll.EpollMultiplexer.GetReady` | multiplexer.cpp:100-135 | A failed wait raises a wait error and changes nothing. Otherwise the result is the drain of the batch, at most MAX_EVENTS events. Exactly the hung-up fds of the batch are removed from the table and closed. |
| `Epoll.Create` | multiplexer.cpp:21-29 | Construction fails with a resource-creation error iff epoll_create1 returned -1. Otherwise it yields a fresh multiplexer with an empty table. |
| `Epoll.ReadyWithinInterest` | multiplexer.cpp:113-134 | If the kernel reports only registered bits of watched fds, every event names a watched fd and is ready only in directions its mask asks for. |
| `Epoll.RegisteredInterestBoundsReports` | multiplexer.cpp:121-130 | An fd registered with some flags is never reported ready in a direction those flags did not ask for. |
| `Epoll.DeregisteredNeverReported` | multiplexer.cpp:89 | If the kernel reports only watched fds, an fd removed from the table gets no event. |
| `Epoll.HungUpNotReported` | multiplexer.cpp:116-119 | When each fd occurs at most once in a batch, no returned event names an fd the batch reported as hung up. |
| `Epoll.BothDirectionsInOneEvent` | multiplexer.cpp:124-130 | A record both readable and writable yields one event carrying both POLLIN and POLLOUT. |
| `Epoll.HangUpThenDeregister` | multiplexer.cpp:116-119 | After get_ready, a hung-up fd is closed and no longer watched. A later delete_polled on it returns false. |
| `Kqueue.EncodeInterest` | multiplexer.cpp:71-77 | Exactly two entries are submitted: read filter first, write filter second, both for the fd. Both carry EV_ADD, and both carry EV_CLEAR iff POLLET. Read is EV_ENABLE iff POLLIN, else EV_DISABLE; write likewise for POLLOUT. No entry is both enabled and disabled, and no other flag is set. |
| `Kqueue.ApplyEncodedInterest` | multiplexer.cpp:76-82 | The change list succeeds iff the kernel takes both changes, and then replaces both filters of the fd with exactly the requested interest. If the read change is refused nothing changes. If only the write change is refused, the read filter is replaced and the write filter is left as it was. |
| `Kqueue.ApplyDisable` | multiplexer.cpp:93-96 | Whatever the kernel's verdicts, disabling succeeds iff both filters are registered; then both are disabled and nothing else changes. If only the write filter is missing, the read filter is disabled and the call fails. |
| `Kqueue.ForgetAllTwice` | multiplexer.cpp:146-152 | Closing two sets of fds one after the other drops the filters of their union. |
| `Kqueue.Translate` | multiplexer.cpp:157-162 | An event keeps the record's ident. Its type is POLLIN iff the read filter, POLLOUT iff the write filter, never both, and nothing else. |
| `Kqueue.KqueueMultiplexer.constructor` | multiplexer.cpp:32 | A new multiplexer holds its kqueue descriptor and no filters, so it holds only read and write filters. |
| `Kqueue.KqueueMultiplexer.Kevent` | multiplexer.cpp:79 | Submitting a change list sets the filter table and the success of the call as the in-order kernel application says. |
| `Kqueue.KqueueMultiplexer.Close` | multiplexer.cpp:151-152 | Closing logs the fd as closed, and the kernel drops all of its filters. Only read and write filters remain. |
| `Kqueue.KqueueMultiplexer.AddPolled` | multiplexer.cpp:70-83 | Registration succeeds iff the kernel takes both changes. It then replaces both of the fd's filters as the flags ask and changes no other filter. On failure it raises a registration error. The table is unchanged if the read change was refused; only the read filter is replaced if the write change alone was refused. Only read and write filters remain. |
| `Kqueue.KqueueMultiplexer.DeletePolled` | multiplexer.cpp:92-97 | Returns true iff both filters of the fd are registered. Then both are disabled and no other filter changes. If the read filter is missing, nothing changes; if only the write filter is missing, the read filter is disabled. Only read and write filters remain. |
| `Kqueue.KqueueMultiplexer.GetReady` | multiplexer.cpp:137-167 | A failed wait raises a wait error and changes nothing. Otherwise the result is the drain of the batch, at most MAX_EVENTS events. Exactly the EV_EOF fds of the batch are closed and lose their filters. Only read and write filters remain. |
| `Kqueue.Create` | multiplexer.cpp:31-37 | Construction fails with a resource-creation error iff kqueue() returned -1. Otherwise it yields a fresh multiplexer with no filters, which satisfies the class invariant. |
| `Kqueue.ReadyWithinInterest` | multiplexer.cpp:146-166 | If the kernel reports only enabled filters, an event is readable only through an enabled read filter and writable only through an enabled write filter of its fd. |
| `Kqueue.RegisteredInterestBoundsReports` | multiplexer.cpp:71-77 | After a registration with some flags, the fd is reported only in directions those flags ask for. The new registration replaces the old. |
| `Kqueue.DeregisteredNeverReported` | multiplexer.cpp:93-96 | An fd whose filters are all disabled gets no event. |
| `Kqueue.EofNotReported` | multiplexer.cpp:149-152 | When each fd occurs at most once in a batch, no event names an fd the batch reported at EV_EOF. |
| `Kqueue.ClosedDescriptorCanBeReported` | multiplexer.cpp:146-166 | A writable record followed by an EV_EOF read record for the same fd both closes that fd and reports it POLLOUT. |
| `Kqueue.EofThenDeregister` | multiplexer.cpp:149-152 | After get_ready, an EV_EOF fd is closed and has no filters left. A later delete_polled on it returns false. |
| `Kqueue.DeletedNeverReported` | multiplexer.cpp:92-97 | When the table holds only read and write filters and disabling both filters of an fd succeeds, no batch the kernel delivers for the resulting table reports that fd. |
| `Kqueue.DeregisterThenDrain` | multiplexer.cpp:92-97 | After a successful delete_polled on a multiplexer, no batch delivered for its new table reports the fd. |

## Left out

- The system calls themselves (`epoll_create1`, `epoll_ctl`, `epoll_wait`, `kqueue`,
  `kevent`, `close`) are abstract kernel state plus inputs for what the kernel decides.
  Blocking, and waiting indefinitely, cannot be expressed.
- The kernel's reasons for refusing an addition (errno values) are one verdict
  parameter per change.
- `std::system_error`, `errno` and the message strings: each failure is a single error
  outcome.
- The result of `close` and the result of the `delete_polled` call inside `get_ready`
  are ignored by the code, and the model ignores them too.
- Edge-triggered versus level-triggered kernel behaviour is not modelled. Only the
  mapping of POLLET to EPOLLET or EV_CLEAR, and the EV_CLEAR bit kept per filter, are.
- On BSD, the model takes EV_ADD on an existing filter to replace its EV_CLEAR setting
  as well.
- Which records the kernel delivers is an input. The lemmas state what follows when the
  kernel reports only registered interest (`ReportedFrom`), and when it reports each
  descriptor at most once (`DistinctFds`).
- Logging to `std::cout` and `std::cerr` is left out.
- The destructor is left out. It only closes the epoll descriptor best-effort, with
  logging, and does nothing on BSD.
- Preprocessor platform detection is left out: the two backends are two modules.
- Concurrency is left out. The code has none.
- The `udata`, `fflags` and `data` members of `struct kevent` are not modelled; they
  are zero or NULL here.
- The `epoll_data` union is reduced to its `fd` member.
- The cast of a kevent's `ident` (`uintptr_t`) to `int` is not modelled: idents are
  descriptor numbers.
- The fixed-size local arrays `evset` and `events` are modelled as sequences,
  because they are filled once and then only read.
