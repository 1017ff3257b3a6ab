/** The Linux backend of the multiplexer (the `__linux__` branches of
    multiplexer.cpp). Interest is one epoll mask per descriptor; a hang-up is
    deregistered and then closed. The epoll instance is abstracted as its
    interest table, and the descriptors the multiplexer closes are logged. */
module Epoll {
  import opened Portable
  import opened Drain

  // The bits of <sys/epoll.h> this code uses.
  const EPOLLIN: bv32 := 0x001
  const EPOLLOUT: bv32 := 0x004
  const EPOLLERR: bv32 := 0x008
  const EPOLLHUP: bv32 := 0x010
  const EPOLLET: bv32 := 0x8000_0000

  /** `struct epoll_event`: the event mask and the descriptor kept in `data.fd`. */
  datatype EpollEvent = EpollEvent(events: bv32, fd: int)

  /** The mask `add_polled` must submit for the portable `flags`: each epoll
      bit is present exactly when its portable counterpart is, and no other
      bit is set. */
  ghost predicate EncodesInterest(mask: bv32, flags: bv32) {
    && (mask & EPOLLIN != 0 <==> flags & POLLIN != 0)
    && (mask & EPOLLOUT != 0 <==> flags & POLLOUT != 0)
    && (mask & EPOLLET != 0 <==> flags & POLLET != 0)
    && mask & !(EPOLLIN | EPOLLOUT | EPOLLET) == 0
  }

  /** The submission `add_polled` builds, one `|=` per portable bit. */
  method EncodeInterest(fd: int, flags: bv32) returns (event: EpollEvent)
    ensures event.fd == fd
    ensures EncodesInterest(event.events, flags)
  {
    var events: bv32 := 0;
    if flags & POLLIN != 0 {
      events := events | EPOLLIN;
    }
    if flags & POLLOUT != 0 {
      events := events | EPOLLOUT;
    }
    if flags & POLLET != 0 {
      events := events | EPOLLET;
    }
    event := EpollEvent(events, fd);
  }

  /** The portable interest a registered mask stands for. */
  function DecodeInterest(mask: bv32): (flags: bv32)
    ensures flags & !(POLLIN | POLLOUT | POLLET) == 0
  {
    (if mask & EPOLLIN != 0 then POLLIN else 0)
    | (if mask & EPOLLOUT != 0 then POLLOUT else 0)
    | (if mask & EPOLLET != 0 then POLLET else 0)
  }

  /** Decoding a submitted mask gives back the portable bits of the request:
      the encoding loses nothing but bits that have no meaning here. */
  lemma DecodeEncodedInterest(mask: bv32, flags: bv32)
    requires EncodesInterest(mask, flags)
    ensures DecodeInterest(mask) == flags & (POLLIN | POLLOUT | POLLET)
  {
  }

  /** A record the loop treats as a hang-up: EPOLLERR or EPOLLHUP is set. */
  predicate HungUp(raw: EpollEvent) {
    raw.events & (EPOLLERR | EPOLLHUP) != 0
  }

  function RecordFd(raw: EpollEvent): int {
    raw.fd
  }

  /** The ready event for a record that is not a hang-up: POLLIN exactly when
      the kernel reported EPOLLIN, POLLOUT exactly when it reported EPOLLOUT
      (both at once when it reported both), nothing else, and the record's
      descriptor. */
  function Translate(raw: EpollEvent): (e: Event)
    ensures e.fd == raw.fd
    ensures e.kind & POLLIN != 0 <==> raw.events & EPOLLIN != 0
    ensures e.kind & POLLOUT != 0 <==> raw.events & EPOLLOUT != 0
    ensures e.kind & !(POLLIN | POLLOUT) == 0
  {
    Event(raw.fd, (if raw.events & EPOLLIN != 0 then POLLIN else 0) | (if raw.events & EPOLLOUT != 0 then POLLOUT else 0))
  }

  /** What `get_ready` returns for a delivered batch. */
  function ReadyEvents(batch: seq<EpollEvent>): seq<Event> {
    Kept(batch, HungUp, Translate)
  }

  /** The descriptors `get_ready` deregisters and closes for a delivered batch. */
  function HungUpFds(batch: seq<EpollEvent>): set<int> {
    DroppedKeys(batch, HungUp, RecordFd)
  }

  class EpollMultiplexer {
    /** `m_pollfd`, the descriptor of the epoll instance. */
    const pollfd: int
    /** The kernel's interest table: each watched descriptor with the mask it
        was registered with. */
    var watched: map<int, bv32>
    /** The descriptors the multiplexer itself has closed. */
    var closed: set<int>

    constructor (pollfd: int)
      ensures this.pollfd == pollfd && watched == map[] && closed == {}
    {
      this.pollfd := pollfd;
      watched := map[];
      closed := {};
    }

    /** `epoll_ctl(m_pollfd, EPOLL_CTL_ADD, fd, &event)`. The kernel refuses a
        descriptor it already watches (EEXIST); `accepted` is its verdict on
        everything this model does not see (a bad descriptor, resource limits). */
    method CtlAdd(fd: int, event: EpollEvent, accepted: bool) returns (rc: int)
      modifies this
      ensures rc == 0 || rc == -1
      ensures rc == 0 <==> accepted && fd !in old(watched)
      ensures watched == if rc == 0 then old(watched)[fd := event.events] else old(watched)
      ensures closed == old(closed)
    {
      if accepted && fd !in watched {
        watched := watched[fd := event.events];
        rc := 0;
      } else {
        rc := -1;
      }
    }

    /** `epoll_ctl(m_pollfd, EPOLL_CTL_DEL, fd, nullptr)`: refused (ENOENT)
        for a descriptor that is not watched. */
    method CtlDel(fd: int) returns (rc: int)
      modifies this
      ensures rc == 0 || rc == -1
      ensures rc == 0 <==> fd in old(watched)
      ensures watched == old(watched) - {fd}
      ensures closed == old(closed)
    {
      if fd in watched {
        watched := watched - {fd};
        rc := 0;
      } else {
        rc := -1;
      }
    }

    /** `close(fd)`. Closing alone does not take the descriptor out of the table. */
    method Close(fd: int)
      modifies this
      ensures closed == old(closed) + {fd}
      ensures watched == old(watched)
    {
      closed := closed + {fd};
    }

    /** `add_polled`: register `fd` with the mask encoding `flags`. The call
        with EPOLL_CTL_ADD fails for a descriptor that is already watched, and
        a failure leaves the table as it was. */
    method AddPolled(fd: int, flags: bv32, accepted: bool) returns (r: Outcome)
      modifies this
      ensures r == Pass || r == Fail(RegistrationError)
      ensures r == Pass <==> accepted && fd !in old(watched)
      ensures r == Pass ==> fd in watched && EncodesInterest(watched[fd], flags)
      ensures r == Pass ==> watched == old(watched)[fd := watched[fd]]
      ensures r != Pass ==> watched == old(watched)
      ensures closed == old(closed)
    {
      var event := EncodeInterest(fd, flags);
      var rc := CtlAdd(fd, event, accepted);
      if rc == -1 {
        return Fail(RegistrationError);
      }
      return Pass;
    }

    /** `delete_polled`: true exactly when the descriptor was watched; either
        way it is not watched afterwards and no other entry changes. */
    method DeletePolled(fd: int) returns (ok: bool)
      modifies this
      ensures ok <==> fd in old(watched)
      ensures watched == old(watched) - {fd}
      ensures closed == old(closed)
    {
      var rc := CtlDel(fd);
      ok := rc != -1;
    }

    /** `get_ready`: drain one delivered batch. Hung-up descriptors are
        deregistered and closed; every other record becomes one event, in
        batch order. */
    method GetReady(wait: Wait<EpollEvent>) returns (r: Result<seq<Event>>)
      modifies this
      ensures wait.WaitFailed? ==> r == Err(WaitError) && watched == old(watched) && closed == old(closed)
      ensures wait.Delivered? ==> r == Ok(ReadyEvents(wait.batch))
      ensures wait.Delivered? ==> watched == old(watched) - HungUpFds(wait.batch)
      ensures wait.Delivered? ==> closed == old(closed) + HungUpFds(wait.batch)
      ensures r.Ok? ==> |r.value| <= MAX_EVENTS
    {
      if wait.WaitFailed? {
        return Err(WaitError);
      }
      var events := wait.batch;
      var cnt := |events|;
      var ready: seq<Event> := [];
      for i := 0 to cnt
        invariant ready == ReadyEvents(events[..i])
        invariant watched == old(watched) - HungUpFds(events[..i])
        invariant closed == old(closed) + HungUpFds(events[..i])
      {
        assert events[..i + 1][..i] == events[..i];
        var fd := events[i].fd;
        if events[i].events & (EPOLLERR | EPOLLHUP) != 0 {
          var _ := DeletePolled(fd);
          Close(fd);
        } else {
          var kind: bv32 := 0;
          var epollEvents := events[i].events;
          if epollEvents & EPOLLIN != 0 {
            kind := kind | POLLIN;
          }
          if epollEvents & EPOLLOUT != 0 {
            kind := kind | POLLOUT;
          }
          ready := ready + [Event(fd, kind)];
        }
      }
      assert events[..cnt] == events;
      return Ok(ready);
    }
  }

  /** The Linux constructor: `handle` is what `epoll_create1` returned, and -1
      makes construction fail. */
  method Create(handle: int) returns (r: Result<EpollMultiplexer>)
    ensures r.Err? <==> handle == -1
    ensures r.Err? ==> r.error == ResourceCreationError
    ensures r.Ok? ==> fresh(r.value) && r.value.pollfd == handle
    ensures r.Ok? ==> r.value.watched == map[] && r.value.closed == {}
  {
    if handle == -1 {
      return Err(ResourceCreationError);
    }
    var m := new EpollMultiplexer(handle);
    return Ok(m);
  }

  /** What the kernel guarantees of a batch it delivers for the table
      `watched`: every record names a watched descriptor and reports no bit
      that descriptor was not registered for, except EPOLLERR and EPOLLHUP,
      which are always reported. */
  ghost predicate ReportedFrom(watched: map<int, bv32>, batch: seq<EpollEvent>) {
    forall j :: 0 <= j < |batch| ==>
      batch[j].fd in watched && batch[j].events & !(watched[batch[j].fd] | EPOLLERR | EPOLLHUP) == 0
  }

  /** epoll reports a descriptor at most once per wait. */
  ghost predicate DistinctFds(batch: seq<EpollEvent>) {
    forall j, l :: 0 <= j < l < |batch| ==> batch[j].fd != batch[l].fd
  }

  /** Every ready event names a watched descriptor and is ready only in the
      directions that descriptor's mask asks for. */
  lemma ReadyWithinInterest(watched: map<int, bv32>, batch: seq<EpollEvent>)
    requires ReportedFrom(watched, batch)
    ensures forall e :: e in ReadyEvents(batch) ==>
      && e.fd in watched
      && (e.kind & POLLIN != 0 ==> watched[e.fd] & EPOLLIN != 0)
      && (e.kind & POLLOUT != 0 ==> watched[e.fd] & EPOLLOUT != 0)
  {
    forall e | e in ReadyEvents(batch)
      ensures e.fd in watched
      ensures e.kind & POLLIN != 0 ==> watched[e.fd] & EPOLLIN != 0
      ensures e.kind & POLLOUT != 0 ==> watched[e.fd] & EPOLLOUT != 0
    {
      var k :| 0 <= k < |ReadyEvents(batch)| && ReadyEvents(batch)[k] == e;
      KeptMembership(batch, HungUp, Translate, k);
    }
  }

  /** A descriptor registered through `add_polled` with `flags` is never
      reported ready in a direction `flags` did not ask for: registering
      POLLIN alone never yields POLLOUT, and the other way round. */
  lemma RegisteredInterestBoundsReports(watched: map<int, bv32>, batch: seq<EpollEvent>, fd: int, flags: bv32)
    requires ReportedFrom(watched, batch)
    requires fd in watched && EncodesInterest(watched[fd], flags)
    ensures forall e :: e in ReadyEvents(batch) && e.fd == fd ==>
      && (e.kind & POLLIN != 0 ==> flags & POLLIN != 0)
      && (e.kind & POLLOUT != 0 ==> flags & POLLOUT != 0)
  {
    ReadyWithinInterest(watched, batch);
  }

  /** A descriptor that is not in the table is not reported. */
  lemma DeregisteredNeverReported(watched: map<int, bv32>, batch: seq<EpollEvent>, fd: int)
    requires ReportedFrom(watched, batch)
    requires fd !in watched
    ensures forall e :: e in ReadyEvents(batch) ==> e.fd != fd
  {
    ReadyWithinInterest(watched, batch);
  }

  /** No event of a batch names a descriptor the same batch reported as hung
      up (epoll reports each descriptor at most once per wait). */
  lemma HungUpNotReported(batch: seq<EpollEvent>)
    requires DistinctFds(batch)
    ensures forall e :: e in ReadyEvents(batch) ==> e.fd !in HungUpFds(batch)
  {
    forall e | e in ReadyEvents(batch)
      ensures e.fd !in HungUpFds(batch)
    {
      var k :| 0 <= k < |ReadyEvents(batch)| && ReadyEvents(batch)[k] == e;
      KeptIsOrderedImage(batch, HungUp, Translate);
      var j := KeptIndices(batch, HungUp)[k];
      forall l | 0 <= l < |batch| && HungUp(batch[l])
        ensures RecordFd(batch[l]) != e.fd
      {
        assert l != j && batch[j].fd == e.fd;
      }
      DroppedKeysMembership(batch, HungUp, RecordFd, e.fd);
    }
  }

  /** A record readable and writable at once yields one event carrying both
      bits, not two events. */
  lemma BothDirectionsInOneEvent(fd: int)
    ensures ReadyEvents([EpollEvent(EPOLLIN | EPOLLOUT, fd)]) == [Event(fd, POLLIN | POLLOUT)]
  {
    var batch := [EpollEvent(EPOLLIN | EPOLLOUT, fd)];
    assert batch[..0] == [];
  }

  /** A descriptor a batch reported as hung up is no longer watched after
      `get_ready`, so a later `delete_polled` on it returns false. */
  method HangUpThenDeregister(m: EpollMultiplexer, wait: Wait<EpollEvent>, fd: int) returns (ok: bool)
    requires wait.Delivered? && fd in HungUpFds(wait.batch)
    modifies m
    ensures !ok && fd in m.closed && fd !in m.watched
  {
    var r := m.GetReady(wait);
    ok := m.DeletePolled(fd);
  }
}
