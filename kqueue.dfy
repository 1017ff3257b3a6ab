/** The BSD/macOS backend of the multiplexer (the `__BSD__` branches of
    multiplexer.cpp). Interest is a pair of filters per descriptor, one for
    reading and one for writing, each explicitly enabled or disabled; a
    descriptor reported at end-of-file is closed, which makes the kernel drop
    its filters. The kqueue is abstracted as its table of registered filters,
    and the descriptors the multiplexer closes are logged. */
module Kqueue {
  import opened Portable
  import opened Drain

  // The filters and flags of <sys/event.h> this code uses.
  const EVFILT_READ: int := -1
  const EVFILT_WRITE: int := -2
  const EV_ADD: bv16 := 0x0001
  const EV_ENABLE: bv16 := 0x0004
  const EV_DISABLE: bv16 := 0x0008
  const EV_CLEAR: bv16 := 0x0020
  const EV_EOF: bv16 := 0x8000

  /** `struct kevent`, reduced to the members this code sets or reads; the
      others (`fflags`, `data`, `udata`) are always 0 or NULL here. */
  datatype KEvent = KEvent(ident: int, filter: int, flags: bv16)

  /** One registered filter, as the kernel keeps it: whether it may report,
      and whether it is edge-triggered (EV_CLEAR). */
  datatype Knote = Knote(enabled: bool, clear: bool)

  /** A filter is identified by its descriptor and its filter kind. */
  type Key = (int, int)

  /** How the kernel applies one change. EV_ADD creates or replaces the
      filter (enabled unless EV_DISABLE is given) and consults `accepted`, the
      kernel's verdict on the descriptor and its resources, which this model
      does not see. A change without EV_ADD is refused (ENOENT) for a filter
      that is not registered; otherwise EV_DISABLE or EV_ENABLE switches it. */
  function ApplyChange(knotes: map<Key, Knote>, change: KEvent, accepted: bool): Option<map<Key, Knote>>
  {
    var key := (change.ident, change.filter);
    if change.flags & EV_ADD != 0 then
      if accepted then Some(knotes[key := Knote(change.flags & EV_DISABLE == 0, change.flags & EV_CLEAR != 0)])
      else None
    else if key !in knotes then None
    else
      var enabled :=
        if change.flags & EV_DISABLE != 0 then false
        else if change.flags & EV_ENABLE != 0 then true
        else knotes[key].enabled;
      Some(knotes[key := knotes[key].(enabled := enabled)])
  }

  /** `kevent(kq, changes, n, NULL, 0, NULL)`: the changes are applied in
      order, change k under the kernel's verdict `verdicts[k]`; the first
      refused change makes the call fail, and the changes before it stay
      applied. */
  function ApplyChanges(knotes: map<Key, Knote>, changes: seq<KEvent>, verdicts: seq<bool>): (map<Key, Knote>, bool)
    requires |verdicts| == |changes|
    decreases |changes|
  {
    if changes == [] then (knotes, true)
    else
      match ApplyChange(knotes, changes[0], verdicts[0])
      case None => (knotes, false)
      case Some(next) => ApplyChanges(next, changes[1..], verdicts[1..])
  }

  /** The change list `add_polled` must submit for `flags`: two entries for
      `fd`, the read filter first and the write filter second, both with
      EV_ADD and both with EV_CLEAR exactly when POLLET is asked for; the read
      entry enabled when POLLIN is asked for and disabled otherwise, the write
      entry likewise for POLLOUT; no other flag. */
  ghost predicate EncodesInterest(evset: seq<KEvent>, fd: int, flags: bv32) {
    && |evset| == SUPPORTED_TYPES
    && evset[0].ident == fd && evset[0].filter == EVFILT_READ
    && evset[1].ident == fd && evset[1].filter == EVFILT_WRITE
    && (forall k :: 0 <= k < |evset| ==>
          && evset[k].flags & EV_ADD != 0
          && (evset[k].flags & EV_CLEAR != 0 <==> flags & POLLET != 0)
          && evset[k].flags & !(EV_ADD | EV_CLEAR | EV_ENABLE | EV_DISABLE) == 0)
    && (evset[0].flags & EV_ENABLE != 0 <==> flags & POLLIN != 0)
    && (evset[0].flags & EV_DISABLE != 0 <==> flags & POLLIN == 0)
    && (evset[1].flags & EV_ENABLE != 0 <==> flags & POLLOUT != 0)
    && (evset[1].flags & EV_DISABLE != 0 <==> flags & POLLOUT == 0)
  }

  /** The change list `add_polled` builds in its two-entry `evset`. */
  method EncodeInterest(fd: int, flags: bv32) returns (evset: seq<KEvent>)
    ensures EncodesInterest(evset, fd, flags)
    ensures forall k :: 0 <= k < |evset| ==> !(evset[k].flags & EV_ENABLE != 0 && evset[k].flags & EV_DISABLE != 0)
  {
    var kflags := EV_ADD;
    if flags & POLLET != 0 {
      kflags := kflags | EV_CLEAR;
    }
    var readFlags := kflags | (if flags & POLLIN != 0 then EV_ENABLE else EV_DISABLE);
    var writeFlags := kflags | (if flags & POLLOUT != 0 then EV_ENABLE else EV_DISABLE);
    evset := [KEvent(fd, EVFILT_READ, readFlags), KEvent(fd, EVFILT_WRITE, writeFlags)];
  }

  /** The read filter a registration with `flags` leaves behind: what is
      left when the kernel takes the first change and refuses the second. */
  function RegisteredRead(knotes: map<Key, Knote>, fd: int, flags: bv32): map<Key, Knote> {
    knotes[(fd, EVFILT_READ) := Knote(flags & POLLIN != 0, flags & POLLET != 0)]
  }

  /** The two filters a registration with `flags` leaves behind. */
  function Registered(knotes: map<Key, Knote>, fd: int, flags: bv32): map<Key, Knote> {
    RegisteredRead(knotes, fd, flags)[(fd, EVFILT_WRITE) := Knote(flags & POLLOUT != 0, flags & POLLET != 0)]
  }

  /** Submitting an encoded change list replaces both filters of the
      descriptor with exactly the requested interest, so a registration never
      merges with an earlier one. The call succeeds exactly when the kernel
      takes both changes. If it refuses the read change nothing changes; if it
      takes the read change and refuses the write change, the read filter
      stays replaced and the write filter stays as it was. */
  lemma {:induction false} ApplyEncodedInterest(knotes: map<Key, Knote>, evset: seq<KEvent>, fd: int, flags: bv32,
                                                 acceptRead: bool, acceptWrite: bool)
    requires EncodesInterest(evset, fd, flags)
    ensures ApplyChanges(knotes, evset, [acceptRead, acceptWrite]).1 <==> acceptRead && acceptWrite
    ensures ApplyChanges(knotes, evset, [acceptRead, acceptWrite]).0 ==
      if !acceptRead then knotes
      else if !acceptWrite then RegisteredRead(knotes, fd, flags)
      else Registered(knotes, fd, flags)
  {
    var verdicts := [acceptRead, acceptWrite];
    assert evset[0].flags & EV_ADD != 0 && evset[1].flags & EV_ADD != 0;
    if acceptRead {
      var first := RegisteredRead(knotes, fd, flags);
      assert ApplyChange(knotes, evset[0], verdicts[0]) == Some(first);
      assert evset[1..][0] == evset[1] && evset[1..][1..] == [];
      assert verdicts[1..][0] == acceptWrite && verdicts[1..][1..] == [];
      if acceptWrite {
        var second := Registered(knotes, fd, flags);
        assert ApplyChange(first, evset[1], acceptWrite) == Some(second);
        assert ApplyChanges(second, evset[1..][1..], verdicts[1..][1..]) == (second, true);
        assert ApplyChanges(first, evset[1..], verdicts[1..]) == (second, true);
      } else {
        assert ApplyChange(first, evset[1], acceptWrite) == None;
        assert ApplyChanges(first, evset[1..], verdicts[1..]) == (first, false);
      }
    }
  }

  /** The change list `delete_polled` submits: both filters of `fd`, EV_DISABLE only. */
  function DisableChanges(fd: int): seq<KEvent> {
    [KEvent(fd, EVFILT_READ, EV_DISABLE), KEvent(fd, EVFILT_WRITE, EV_DISABLE)]
  }

  function Disable(knotes: map<Key, Knote>, key: Key): map<Key, Knote>
    requires key in knotes
  {
    knotes[key := knotes[key].(enabled := false)]
  }

  /** Disabling both filters succeeds exactly when both are registered, and
      then both are disabled and nothing else changes; when the write filter
      alone is missing, the read filter is disabled before the call fails.
      No change carries EV_ADD, so the kernel's verdicts play no part. */
  lemma {:induction false} ApplyDisable(knotes: map<Key, Knote>, fd: int, acceptRead: bool, acceptWrite: bool)
    ensures ApplyChanges(knotes, DisableChanges(fd), [acceptRead, acceptWrite]).1 <==>
      (fd, EVFILT_READ) in knotes && (fd, EVFILT_WRITE) in knotes
    ensures ApplyChanges(knotes, DisableChanges(fd), [acceptRead, acceptWrite]).0 ==
      if (fd, EVFILT_READ) !in knotes then knotes
      else if (fd, EVFILT_WRITE) !in knotes then Disable(knotes, (fd, EVFILT_READ))
      else Disable(Disable(knotes, (fd, EVFILT_READ)), (fd, EVFILT_WRITE))
  {
    var changes := DisableChanges(fd);
    var verdicts := [acceptRead, acceptWrite];
    assert verdicts[1..][0] == acceptWrite && verdicts[1..][1..] == [];
    assert changes[1..] == [KEvent(fd, EVFILT_WRITE, EV_DISABLE)];
    assert changes[1..][1..] == [];
    if (fd, EVFILT_READ) in knotes {
      var first := Disable(knotes, (fd, EVFILT_READ));
      assert ApplyChange(knotes, changes[0], verdicts[0]) == Some(first);
      assert (fd, EVFILT_WRITE) in first <==> (fd, EVFILT_WRITE) in knotes;
      if (fd, EVFILT_WRITE) in knotes {
        var second := Disable(first, (fd, EVFILT_WRITE));
        assert ApplyChange(first, changes[1..][0], verdicts[1..][0]) == Some(second);
        assert ApplyChanges(second, changes[1..][1..], verdicts[1..][1..]) == (second, true);
        assert ApplyChanges(first, changes[1..], verdicts[1..]) == (second, true);
      } else {
        assert ApplyChange(first, changes[1..][0], verdicts[1..][0]) == None;
        assert ApplyChanges(first, changes[1..], verdicts[1..]) == (first, false);
      }
    }
  }

  /** The filters left once every descriptor in `fds` has been closed: the
      kernel drops all filters of a closed descriptor. */
  function ForgetAll(knotes: map<Key, Knote>, fds: set<int>): map<Key, Knote> {
    map key | key in knotes && key.0 !in fds :: knotes[key]
  }

  /** Closing descriptors one set after another drops the filters of both sets. */
  lemma ForgetAllTwice(knotes: map<Key, Knote>, first: set<int>, second: set<int>)
    ensures ForgetAll(ForgetAll(knotes, first), second) == ForgetAll(knotes, first + second)
  {
  }

  /** Every registered filter is a read or a write filter. */
  ghost predicate OnlyReadWrite(knotes: map<Key, Knote>) {
    forall key :: key in knotes ==> key.1 == EVFILT_READ || key.1 == EVFILT_WRITE
  }

  /** A record the loop treats as a hang-up: the kernel set EV_EOF. */
  predicate AtEof(raw: KEvent) {
    raw.flags & EV_EOF != 0
  }

  function RecordFd(raw: KEvent): int {
    raw.ident
  }

  /** The ready event for a record without EV_EOF: exactly POLLIN for a
      read-filter record, exactly POLLOUT for a write-filter record, never
      both, and the C++ default 0 for any other filter. */
  function Translate(raw: KEvent): (e: Event)
    ensures e.fd == raw.ident
    ensures e.kind & POLLIN != 0 <==> raw.filter == EVFILT_READ
    ensures e.kind & POLLOUT != 0 <==> raw.filter == EVFILT_WRITE
    ensures e.kind & !(POLLIN | POLLOUT) == 0
    ensures !(e.kind & POLLIN != 0 && e.kind & POLLOUT != 0)
  {
    Event(raw.ident, if raw.filter == EVFILT_READ then POLLIN else if raw.filter == EVFILT_WRITE then POLLOUT else 0)
  }

  /** What `get_ready` returns for a delivered batch. */
  function ReadyEvents(batch: seq<KEvent>): seq<Event> {
    Kept(batch, AtEof, Translate)
  }

  /** The descriptors `get_ready` closes for a delivered batch. */
  function EofFds(batch: seq<KEvent>): set<int> {
    DroppedKeys(batch, AtEof, RecordFd)
  }

  class KqueueMultiplexer {
    /** `m_pollfd`, the descriptor of the kqueue. */
    const pollfd: int
    /** The kernel's registered filters. */
    var knotes: map<Key, Knote>
    /** The descriptors the multiplexer itself has closed. */
    var closed: set<int>

    /** The multiplexer only ever registers read and write filters. */
    ghost predicate Valid()
      reads this
    {
      OnlyReadWrite(knotes)
    }

    constructor (pollfd: int)
      ensures this.pollfd == pollfd && knotes == map[] && closed == {}
      ensures Valid()
    {
      this.pollfd := pollfd;
      knotes := map[];
      closed := {};
    }

    /** `kevent(m_pollfd, changes, n, NULL, 0, NULL)`, returning -1 on failure. */
    method Kevent(changes: seq<KEvent>, verdicts: seq<bool>) returns (rc: int)
      requires |verdicts| == |changes|
      modifies this
      ensures rc == 0 || rc == -1
      ensures (knotes, rc == 0) == ApplyChanges(old(knotes), changes, verdicts)
      ensures closed == old(closed)
    {
      var result := ApplyChanges(knotes, changes, verdicts);
      knotes := result.0;
      rc := if result.1 then 0 else -1;
    }

    /** `close(fd)`: the kernel drops every filter of the descriptor. */
    method Close(fd: int)
      requires Valid()
      modifies this
      ensures closed == old(closed) + {fd}
      ensures knotes == ForgetAll(old(knotes), {fd})
      ensures Valid()
    {
      closed := closed + {fd};
      knotes := ForgetAll(knotes, {fd});
    }

    /** `add_polled`: register both filters of `fd` as `flags` asks, replacing
        any earlier registration; `acceptRead` and `acceptWrite` are the
        kernel's verdicts on the two changes. It succeeds exactly when both
        are taken. A failure leaves the table as it was when the read change
        was refused, and with only the read filter replaced when the write
        change alone was refused. */
    method AddPolled(fd: int, flags: bv32, acceptRead: bool, acceptWrite: bool) returns (r: Outcome)
      requires Valid()
      modifies this
      ensures r == Pass || r == Fail(RegistrationError)
      ensures r == Pass <==> acceptRead && acceptWrite
      ensures knotes ==
        if !acceptRead then old(knotes)
        else if !acceptWrite then RegisteredRead(old(knotes), fd, flags)
        else Registered(old(knotes), fd, flags)
      ensures closed == old(closed)
      ensures Valid()
    {
      var evset := EncodeInterest(fd, flags);
      ApplyEncodedInterest(knotes, evset, fd, flags, acceptRead, acceptWrite);
      var rc := Kevent(evset, [acceptRead, acceptWrite]);
      if rc == -1 {
        return Fail(RegistrationError);
      }
      return Pass;
    }

    /** `delete_polled`: disable both filters of `fd`. True exactly when both
        were registered; then both are disabled and no other filter changes. */
    method DeletePolled(fd: int) returns (ok: bool)
      requires Valid()
      modifies this
      ensures ok <==> (fd, EVFILT_READ) in old(knotes) && (fd, EVFILT_WRITE) in old(knotes)
      ensures ok ==> knotes == Disable(Disable(old(knotes), (fd, EVFILT_READ)), (fd, EVFILT_WRITE))
      ensures (fd, EVFILT_READ) !in old(knotes) ==> knotes == old(knotes)
      ensures (fd, EVFILT_READ) in old(knotes) && (fd, EVFILT_WRITE) !in old(knotes) ==>
        knotes == Disable(old(knotes), (fd, EVFILT_READ))
      ensures closed == old(closed)
      ensures Valid()
    {
      var evset := [KEvent(fd, EVFILT_READ, EV_DISABLE), KEvent(fd, EVFILT_WRITE, EV_DISABLE)];
      assert evset == DisableChanges(fd);
      // No change here carries EV_ADD, so the kernel's verdicts are never consulted.
      ApplyDisable(knotes, fd, true, true);
      var rc := Kevent(evset, [true, true]);
      ok := rc != -1;
    }

    /** `get_ready`: drain one delivered batch. A record with EV_EOF closes
        its descriptor; every other record becomes one event, in batch order. */
    method GetReady(wait: Wait<KEvent>) returns (r: Result<seq<Event>>)
      requires Valid()
      modifies this
      ensures wait.WaitFailed? ==> r == Err(WaitError) && knotes == old(knotes) && closed == old(closed)
      ensures wait.Delivered? ==> r == Ok(ReadyEvents(wait.batch))
      ensures wait.Delivered? ==> knotes == ForgetAll(old(knotes), EofFds(wait.batch))
      ensures wait.Delivered? ==> closed == old(closed) + EofFds(wait.batch)
      ensures r.Ok? ==> |r.value| <= MAX_EVENTS
      ensures Valid()
    {
      if wait.WaitFailed? {
        return Err(WaitError);
      }
      var events := wait.batch;
      var cnt := |events|;
      var ready: seq<Event> := [];
      for i := 0 to cnt
        invariant ready == ReadyEvents(events[..i])
        invariant knotes == ForgetAll(old(knotes), EofFds(events[..i]))
        invariant closed == old(closed) + EofFds(events[..i])
        invariant Valid()
      {
        assert events[..i + 1][..i] == events[..i];
        var fd := events[i].ident;
        if events[i].flags & EV_EOF != 0 {
          ForgetAllTwice(old(knotes), EofFds(events[..i]), {fd});
          Close(fd);
        } else {
          var kind: bv32 := 0;
          var filter := events[i].filter;
          if filter == EVFILT_READ {
            kind := POLLIN;
          } else if filter == EVFILT_WRITE {
            kind := POLLOUT;
          }
          ready := ready + [Event(fd, kind)];
        }
      }
      assert events[..cnt] == events;
      return Ok(ready);
    }
  }

  /** The BSD constructor: `handle` is what `kqueue()` returned, and -1 makes
      construction fail. */
  method Create(handle: int) returns (r: Result<KqueueMultiplexer>)
    ensures r.Err? <==> handle == -1
    ensures r.Err? ==> r.error == ResourceCreationError
    ensures r.Ok? ==> fresh(r.value) && r.value.pollfd == handle
    ensures r.Ok? ==> r.value.knotes == map[] && r.value.closed == {}
    ensures r.Ok? ==> r.value.Valid()
  {
    if handle == -1 {
      return Err(ResourceCreationError);
    }
    var m := new KqueueMultiplexer(handle);
    return Ok(m);
  }

  /** What the kernel guarantees of a batch it delivers for the table
      `knotes`: every record comes from a registered, enabled filter. */
  ghost predicate ReportedFrom(knotes: map<Key, Knote>, batch: seq<KEvent>) {
    forall j :: 0 <= j < |batch| ==>
      (batch[j].ident, batch[j].filter) in knotes && knotes[(batch[j].ident, batch[j].filter)].enabled
  }

  ghost predicate DistinctFds(batch: seq<KEvent>) {
    forall j, l :: 0 <= j < l < |batch| ==> batch[j].ident != batch[l].ident
  }

  /** A ready event is readable only through an enabled read filter and
      writable only through an enabled write filter of its descriptor. */
  lemma ReadyWithinInterest(knotes: map<Key, Knote>, batch: seq<KEvent>)
    requires ReportedFrom(knotes, batch)
    ensures forall e :: e in ReadyEvents(batch) ==>
      && (e.kind & POLLIN != 0 ==> (e.fd, EVFILT_READ) in knotes && knotes[(e.fd, EVFILT_READ)].enabled)
      && (e.kind & POLLOUT != 0 ==> (e.fd, EVFILT_WRITE) in knotes && knotes[(e.fd, EVFILT_WRITE)].enabled)
  {
    forall e | e in ReadyEvents(batch)
      ensures e.kind & POLLIN != 0 ==> (e.fd, EVFILT_READ) in knotes && knotes[(e.fd, EVFILT_READ)].enabled
      ensures e.kind & POLLOUT != 0 ==> (e.fd, EVFILT_WRITE) in knotes && knotes[(e.fd, EVFILT_WRITE)].enabled
    {
      var k :| 0 <= k < |ReadyEvents(batch)| && ReadyEvents(batch)[k] == e;
      KeptMembership(batch, AtEof, Translate, k);
    }
  }

  /** After a registration with `flags`, the descriptor is reported ready only
      in the directions `flags` asks for: the new interest replaced the old. */
  lemma RegisteredInterestBoundsReports(knotes: map<Key, Knote>, batch: seq<KEvent>, fd: int, flags: bv32)
    requires ReportedFrom(Registered(knotes, fd, flags), batch)
    ensures forall e :: e in ReadyEvents(batch) && e.fd == fd ==>
      && (e.kind & POLLIN != 0 ==> flags & POLLIN != 0)
      && (e.kind & POLLOUT != 0 ==> flags & POLLOUT != 0)
  {
    ReadyWithinInterest(Registered(knotes, fd, flags), batch);
  }

  /** A descriptor whose filters are all disabled, as `delete_polled` leaves
      them, is not reported. */
  lemma DeregisteredNeverReported(knotes: map<Key, Knote>, batch: seq<KEvent>, fd: int)
    requires ReportedFrom(knotes, batch)
    requires forall key :: key in knotes && key.0 == fd ==> !knotes[key].enabled
    ensures forall e :: e in ReadyEvents(batch) ==> e.fd != fd
  {
    forall e | e in ReadyEvents(batch)
      ensures e.fd != fd
    {
      var k :| 0 <= k < |ReadyEvents(batch)| && ReadyEvents(batch)[k] == e;
      KeptMembership(batch, AtEof, Translate, k);
    }
  }

  /** When each descriptor occurs at most once in the batch, no event names a
      descriptor the same batch reported at end-of-file. */
  lemma EofNotReported(batch: seq<KEvent>)
    requires DistinctFds(batch)
    ensures forall e :: e in ReadyEvents(batch) ==> e.fd !in EofFds(batch)
  {
    forall e | e in ReadyEvents(batch)
      ensures e.fd !in EofFds(batch)
    {
      var k :| 0 <= k < |ReadyEvents(batch)| && ReadyEvents(batch)[k] == e;
      KeptIsOrderedImage(batch, AtEof, Translate);
      var j := KeptIndices(batch, AtEof)[k];
      forall l | 0 <= l < |batch| && AtEof(batch[l])
        ensures RecordFd(batch[l]) != e.fd
      {
        assert l != j && batch[j].ident == e.fd;
      }
      DroppedKeysMembership(batch, AtEof, RecordFd, e.fd);
    }
  }

  /** kqueue reports the read and the write filter of one descriptor as two
      records, so one batch can both close a descriptor and report it: a
      writable record followed by an end-of-file record on the read filter. */
  lemma ClosedDescriptorCanBeReported(fd: int)
    ensures var batch := [KEvent(fd, EVFILT_WRITE, 0), KEvent(fd, EVFILT_READ, EV_EOF)];
      && ReadyEvents(batch) == [Event(fd, POLLOUT)]
      && fd in EofFds(batch)
  {
    var batch := [KEvent(fd, EVFILT_WRITE, 0), KEvent(fd, EVFILT_READ, EV_EOF)];
    var init := batch[..1];
    assert init == [KEvent(fd, EVFILT_WRITE, 0)] && init[..0] == [];
    assert Kept(init[..0], AtEof, Translate) == [];
    assert Kept(init, AtEof, Translate) == [Event(fd, POLLOUT)];
    assert DroppedKeys(init, AtEof, RecordFd) == {};
  }

  /** A descriptor a batch reported at end-of-file has no filters after
      `get_ready`, so a later `delete_polled` on it returns false. */
  method EofThenDeregister(m: KqueueMultiplexer, wait: Wait<KEvent>, fd: int) returns (ok: bool)
    requires m.Valid()
    requires wait.Delivered? && fd in EofFds(wait.batch)
    modifies m
    ensures !ok && fd in m.closed
    ensures forall key :: key in m.knotes ==> key.0 != fd
  {
    var r := m.GetReady(wait);
    ok := m.DeletePolled(fd);
  }

  /** A successful `delete_polled` silences its descriptor: when the table
      holds only read and write filters and disabling both of them succeeds,
      no batch the kernel delivers for the resulting table reports it. */
  lemma DeletedNeverReported(knotes: map<Key, Knote>, fd: int, batch: seq<KEvent>)
    requires OnlyReadWrite(knotes)
    requires ApplyChanges(knotes, DisableChanges(fd), [true, true]).1
    requires ReportedFrom(ApplyChanges(knotes, DisableChanges(fd), [true, true]).0, batch)
    ensures forall e :: e in ReadyEvents(batch) ==> e.fd != fd
  {
    ApplyDisable(knotes, fd, true, true);
    var after := ApplyChanges(knotes, DisableChanges(fd), [true, true]).0;
    assert after == Disable(Disable(knotes, (fd, EVFILT_READ)), (fd, EVFILT_WRITE));
    DeregisteredNeverReported(after, batch, fd);
  }

  /** The same at the level of the multiplexer: after a successful
      `delete_polled`, a batch delivered for the new table never names `fd`. */
  method DeregisterThenDrain(m: KqueueMultiplexer, fd: int) returns (ok: bool)
    requires m.Valid()
    modifies m
    ensures ok ==> forall batch: seq<KEvent> :: ReportedFrom(m.knotes, batch) ==>
      forall e :: e in ReadyEvents(batch) ==> e.fd != fd
  {
    ok := m.DeletePolled(fd);
    if ok {
      forall batch: seq<KEvent> | ReportedFrom(m.knotes, batch)
        ensures forall e :: e in ReadyEvents(batch) ==> e.fd != fd
      {
        DeregisteredNeverReported(m.knotes, batch, fd);
      }
    }
  }
}
