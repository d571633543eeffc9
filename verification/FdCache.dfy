/** The descriptor cache (src/fd_cache.c): 256 slots and the operations on them, each proved to
    be a step that loses no descriptor and no error. */
module FdCache {
  import opened Wrappers
  import opened FdTable
  import opened FdErrors

  /** A new descriptor for the handle, cached if allowed and possible. */
  ghost predicate Obtained(s: seq<Slot>, t: seq<Slot>, fd: int, kind: Kind, key: Key, cache: bool, ident: Option<Key>) {
    && ident == Some(key)
    && if cache && HasUnused(s) then Filled(s, t, fd, kind, key) else t == s
  }

  /** What clients and the main loop ask of the cache. */
  datatype Request = Write3(key: Key, unstable: bool) | Commit3(key: Key) | Unmount | Timeout

  /** The operations that serve one request. */
  predicate Serves(request: Request, acts: seq<Act>) {
    match request
    case Write3(key, _) =>
      && acts != [] && acts[0].Opening? && acts[0].kind == Write && acts[0].key == key
      && if acts[0].res == -1 then |acts| == 1
         else |acts| == 2 && acts[1].Closing? && acts[1].fd == acts[0].res
    case Commit3(key) => |acts| == 1 && acts[0].Syncing? && acts[0].key == key
    case Unmount => acts == [Purging]
    case Timeout => |acts| == 1 && acts[0].Sweeping?
  }

  // ------------------------------------------------------------ what requests do

  /** A sync and right after it a close of the descriptor, both successful. */
  ghost predicate SyncedClosed(did: seq<Event>, fd: int) {
    exists m :: 0 <= m < |did| - 1 && did[m] == Synced(fd, true) && did[m + 1] == Closed(fd, true)
  }

  /** The descriptor is open in a slot for this kind and handle. */
  ghost predicate OpenIn(s: seq<Slot>, fd: int, kind: Kind, key: Key) {
    exists i :: 0 <= i < |s| && s[i].Open() && s[i].fd == fd && s[i].IsFor(kind, key)
  }

  ghost predicate OpenFor(s: seq<Slot>, kind: Kind, key: Key) {
    exists i :: 0 <= i < |s| && s[i].Open() && s[i].IsFor(kind, key)
  }

  /** A successful WRITE through descriptor fd, the cached one of the handle or a new one. An
      UNSTABLE one leaves it open in the table, without any call, if it was there or a slot is
      free. In every other case the data is on disk: the descriptor was synced and closed, and
      none is left for the handle. */
  ghost predicate Written(a: State, b: State, key: Key, unstable: bool, fd: int) {
    && a.trace <= b.trace && (if OpenFor(a.slots, Write, key) then OpenIn(a.slots, fd, Write, key) else fd !in a.open)
    && var did := b.trace[|a.trace|..];
       if unstable && (OpenFor(a.slots, Write, key) || HasUnused(a.slots))
       then did == [] && OpenIn(b.slots, fd, Write, key)
       else SyncedClosed(did, fd) && fd !in b.open && !OpenFor(b.slots, Write, key)
  }

  /** A COMMIT: -1 exactly for an error pending or new; no write slot is left for the handle. */
  ghost predicate Committed(a: State, b: State, key: Key, res: int) {
    && a.trace <= b.trace
    && (key != ZERO ==>
          && (res == -1 <==> IsPending(a.slots, Write, key) || AnyFails(b.trace[|a.trace|..]))
          && forall i :: 0 <= i < |b.slots| ==> !b.slots[i].IsFor(Write, key))
  }

  /** A request served by operations that lead from a to b. */
  ghost predicate Served(request: Request, acts: seq<Act>, a: State, b: State) {
    && Serves(request, acts)
    && match request
       case Write3(key, unstable) => |acts| == 2 && acts[1].res != -1 ==> Written(a, b, key, unstable, acts[0].res)
       case Commit3(key) => Committed(a, b, key, acts[0].res)
       case Unmount => Held(b.slots) == {}
       case Timeout => forall i :: 0 <= i < |b.slots| ==> !b.slots[i].Idle(acts[0].now)
  }

  lemma ReleaseSynced(did: seq<Event>, fd: int)
    requires Release(did, fd, Write) && !AnyFails(did)
    ensures SyncedClosed(did, fd)
  {
    assert did[0] == Synced(fd, true) && did[0 + 1] == Closed(fd, true);
  }

  lemma StampedOpen(s: seq<Slot>, i: nat, now: int, fd: int, kind: Kind, key: Key)
    requires i < |s| && s[i].Open() && s[i].fd == fd && now != 0 && OpenIn(s, fd, kind, key)
    ensures OpenIn(s[i := s[i].(use := now)], fd, kind, key)
  {
    var t := s[i := s[i].(use := now)];
    var j :| 0 <= j < |s| && s[j].Open() && s[j].fd == fd && s[j].IsFor(kind, key);
    assert t[j].Open() && t[j].fd == fd && t[j].IsFor(kind, key);
  }

  lemma ClearedNone(s: seq<Slot>, i: nat, fd: int, kind: Kind, key: Key)
    requires Tidy(s) && i < |s| && s[i].Open() && s[i].fd == fd && OpenIn(s, fd, kind, key)
    ensures !OpenFor(s[i := s[i].Cleared()], kind, key)
  {
    var j :| 0 <= j < |s| && s[j].Open() && s[j].fd == fd && s[j].IsFor(kind, key);
    assert j == i;
  }

  lemma FilledOpen(s: seq<Slot>, t: seq<Slot>, fd: int, kind: Kind, key: Key)
    requires Filled(s, t, fd, kind, key) && fd != -1
    ensures OpenIn(t, fd, kind, key) && fd in Held(t)
  {
    var i, now :| 0 <= i < |s| && s[i].use == 0 && now != 0 && t == s[i := Slot(fd, kind, now, key)];
    assert t[i].Open() && t[i].fd == fd;
  }

  lemma OpenTidy(s: seq<Slot>, i: nat, kind: Kind, key: Key)
    requires Tidy(s) && i < |s| && s[i].fd != -1 && s[i].IsFor(kind, key)
    ensures OpenIn(s, s[i].fd, kind, key) && OpenFor(s, kind, key)
  {
  }

  lemma NoRenewal(did: seq<Event>, fd: int, kind: Kind, res: int)
    requires ReleaseReported(did, fd, kind, res) && res != -1
    ensures Release(did, fd, kind)
  {
    var calls :| Release(calls, fd, kind) && did == Calls(calls, res);
    assert Calls(calls, res) == calls;
  }

  lemma StepGrows(act: Act, a: State, b: State)
    requires Step(act, a, b)
    ensures a.trace <= b.trace
  {
  }

  /** What fd_open and a successful fd_close do together. */
  lemma BracketWritten(a: State, m: State, b: State, key: Key, unstable: bool, fd: int, ident: Option<Key>, res: int)
    requires Tidy(a.slots) && Tidy(m.slots) && fd >= 0 && m.trace == a.trace
    requires fd in Held(a.slots) <==> OpenFor(a.slots, Write, key)
    requires if fd in Held(a.slots) then m.slots == a.slots && OpenIn(a.slots, fd, Write, key)
             else && fd !in a.open && Obtained(a.slots, m.slots, fd, Write, key, unstable, ident)
                  && forall i :: 0 <= i < |a.slots| ==> !a.slots[i].IsFor(Write, key)
    requires ClosedAs(m, b, fd, Write, !unstable, res) && res != -1
    ensures Written(a, b, key, unstable, fd)
  {
    hide Tidy, Held, OpenIn, OpenFor, Release, AnyFails, SyncedClosed, HasUnused, Filled;
    var did := b.trace[|a.trace|..];
    if fd !in Held(a.slots) && unstable && HasUnused(a.slots) { FilledOpen(a.slots, m.slots, fd, Write, key); }
    if fd in Held(m.slots) && unstable {
      var i, now :| 0 <= i < |m.slots| && m.slots[i].Open() && m.slots[i].fd == fd && now > 0
                    && b.slots == m.slots[i := m.slots[i].(use := now)];
      if OpenIn(m.slots, fd, Write, key) { StampedOpen(m.slots, i, now, fd, Write, key); }
    } else {
      if fd in Held(m.slots) { NoRenewal(did, fd, Write, res); }
      ReleaseSynced(did, fd);
      if fd in Held(m.slots) {
        var i :| 0 <= i < |m.slots| && m.slots[i].Open() && m.slots[i].fd == fd
                 && b.slots == m.slots[i := m.slots[i].Cleared()];
        if OpenIn(m.slots, fd, Write, key) { ClearedNone(m.slots, i, fd, Write, key); }
      } else {
        assert !OpenFor(a.slots, Write, key);
      }
    }
  }

  /** fd_close from m to b. -1 says that a call failed. A descriptor outside the table is
      released, a cached one is kept with a new time stamp or, on a real close, released and its
      slot emptied; the verifier is then renewed if a call failed. */
  ghost predicate ClosedAs(m: State, b: State, fd: int, kind: Kind, reallyClose: bool, res: int) {
    && m.trace <= b.trace
    && var did := b.trace[|m.trace|..];
       && (res == -1 <==> AnyFails(did))
       && if fd !in Held(m.slots) then b.slots == m.slots && fd !in b.open && Release(did, fd, kind)
          else if !reallyClose then did == [] && fd in Held(b.slots) && Stamped(m.slots, b.slots, fd)
          else fd !in b.open && Emptied(m.slots, b.slots, fd) && ReleaseReported(did, fd, kind, res)
  }

  lemma UncachedClosed(m: State, b: State, fd: int, kind: Kind, reallyClose: bool, did: seq<Event>, res: int)
    requires fd !in Held(m.slots) && b.slots == m.slots && fd !in b.open && Release(did, fd, kind)
    requires b.trace == m.trace + did && (res == -1 <==> AnyFails(did))
    ensures ClosedAs(m, b, fd, kind, reallyClose, res)
  {
    hide Held, Release, AnyFails;
    assert b.trace[|m.trace|..] == did;
  }

  lemma KeptOpen(m: State, b: State, kind: Kind, i: nat, now: int)
    requires i < |m.slots| && m.slots[i].Open() && now > 0 && b.trace == m.trace
    requires b.slots == m.slots[i := m.slots[i].(use := now)]
    ensures ClosedAs(m, b, m.slots[i].fd, kind, false, 0)
  {
    assert b.trace[|m.trace|..] == [];
    assert b.slots[i].Open() && b.slots[i].fd == m.slots[i].fd;
  }

  lemma ReallyClosed(m: State, b: State, kind: Kind, i: nat, did: seq<Event>, res: int)
    requires i < |m.slots| && m.slots[i].Open() && m.slots[i].fd !in b.open
    requires b.trace == m.trace + Calls(did, res) && (res == -1 <==> AnyFails(Calls(did, res)))
    requires Release(did, m.slots[i].fd, kind) && b.slots == m.slots[i := m.slots[i].Cleared()]
    ensures ClosedAs(m, b, m.slots[i].fd, kind, true, res)
  {
    hide Release, AnyFails, Calls;
    assert b.trace[|m.trace|..] == Calls(did, res);
    assert m.slots[i].fd in Held(m.slots);
  }

  ghost predicate ReleaseReported(did: seq<Event>, fd: int, kind: Kind, res: int) {
    exists calls :: Release(calls, fd, kind) && did == Calls(calls, res)
  }

  /** The slot of the descriptor has a new time stamp, no other slot changed. */
  ghost predicate Stamped(s: seq<Slot>, t: seq<Slot>, fd: int) {
    exists i, now :: 0 <= i < |s| && s[i].Open() && s[i].fd == fd && now > 0 && t == s[i := s[i].(use := now)]
  }

  /** The slot of the descriptor is unused, no other slot changed. */
  ghost predicate Emptied(s: seq<Slot>, t: seq<Slot>, fd: int) {
    exists i :: 0 <= i < |s| && s[i].Open() && s[i].fd == fd && t == s[i := s[i].Cleared()]
  }

  function Flat(parts: seq<seq<Act>>): seq<Act> {
    if parts == [] then [] else Flat(parts[..|parts| - 1]) + parts[|parts| - 1]
  }

  /** The run of these parts passes through the stops between them. */
  ghost predicate Passes(run: seq<State>, parts: seq<seq<Act>>, stops: seq<State>) {
    && |run| == |Flat(parts)| + 1 && |stops| == |parts| + 1
    && forall k :: 0 <= k < |stops| ==> |Flat(parts[..k])| < |run| && run[|Flat(parts[..k])|] == stops[k]
  }

  lemma RunStart(a: State)
    ensures Run([a], Flat([])) && Passes([a], [], [a])
  {
  }

  lemma OneStep(a: State, b: State, act: Act)
    requires Step(act, a, b)
    ensures Run([a, b], [act])
  {
  }

  /** A run and one more part. */
  lemma Continue(run: seq<State>, parts: seq<seq<Act>>, stops: seq<State>, more: seq<State>, did: seq<Act>)
    requires Run(run, Flat(parts)) && Passes(run, parts, stops) && Run(more, did) && more[0] == stops[|parts|]
    ensures |more| == |did| + 1
    ensures Run(run + more[1..], Flat(parts + [did]))
    ensures Passes(run + more[1..], parts + [did], stops + [more[|did|]])
  {
    hide Step, Run, Flat;
    RunLength(run, Flat(parts));
    RunLength(more, did);
    var all, whole, ends := run + more[1..], parts + [did], stops + [more[|did|]];
    FlatSnoc(parts, did);
    assert whole[..|whole|] == whole && parts[..|parts|] == parts;
    Joined(run, Flat(parts), more, did);
    forall k | 0 <= k < |ends| ensures |Flat(whole[..k])| < |all| && all[|Flat(whole[..k])|] == ends[k] {
      if k <= |parts| {
        assert whole[..k] == parts[..k];
      } else {
        assert all[|all| - 1] == more[|did|];
      }
    }
  }

  lemma RunLength(run: seq<State>, acts: seq<Act>)
    requires Run(run, acts)
    ensures |run| == |acts| + 1
  {
  }

  lemma FlatSnoc(parts: seq<seq<Act>>, acts: seq<Act>)
    ensures Flat(parts + [acts]) == Flat(parts) + acts
  {
    assert (parts + [acts])[..|parts|] == parts;
  }

  /** Runs compose. */
  lemma Joined(run: seq<State>, acts: seq<Act>, more: seq<State>, did: seq<Act>)
    requires Run(run, acts) && Run(more, did) && run[|acts|] == more[0]
    ensures Run(run + more[1..], acts + did)
  {
    var all, todo := run + more[1..], acts + did;
    forall k | 0 <= k < |todo| ensures Step(todo[k], all[k], all[k + 1]) {
      if k < |acts| {
        assert Step(acts[k], run[k], run[k + 1]);
      } else {
        var j := k - |acts|;
        assert Step(did[j], more[j], more[j + 1]);
        assert all[k] == more[j];
      }
    }
  }

  class Cache {
    const slots: array<Slot>
    const os: Os
    var readers: int
    var writers: int

    ghost predicate Valid()
      reads this, slots, os
    {
      && slots.Length == FD_ENTRIES
      && Tidy(slots[..]) && Held(slots[..]) <= os.open
      && readers == Count(slots[..], Read) && writers == Count(slots[..], Write)
    }

    /** Descriptors opened through the cache that no slot holds. */
    ghost function Loose(): set<int>
      reads slots, os
    {
      os.open - Held(slots[..])
    }

    ghost function Snap(): State
      reads slots, os
    {
      State(slots[..], os.trace, os.open)
    }

    /** fd_cache_init */
    constructor (o: Os)
      ensures Valid() && fresh(slots) && os == o && Loose() == o.open
      ensures forall i :: 0 <= i < slots.Length ==> slots[i].use == 0
    {
      slots := new Slot[FD_ENTRIES](_ => Slot(-1, Read, 0, ZERO));
      os, readers, writers := o, 0, 0;
      new;
      CountZero(slots[..], Read);
      CountZero(slots[..], Write);
    }

    /** fd_cache_unused */
    method Unused() returns (idx: int)
      requires Valid()
      ensures -1 <= idx < FD_ENTRIES
      ensures idx >= 0 ==> slots[idx].use == 0
      ensures idx == -1 ==> forall i :: 0 <= i < FD_ENTRIES ==> slots[i].use != 0
    {
      var i := 0;
      while i < FD_ENTRIES
        invariant 0 <= i <= FD_ENTRIES && forall j :: 0 <= j < i ==> slots[j].use != 0
      {
        if slots[i].use == 0 { return i; }
        i := i + 1;
      }
      return -1;
    }

    /** fd_cache_del: sync and close, then clear the slot - unless something failed and the
        error is to be kept for a later report. `did` are the calls on the descriptor. */
    method Del(idx: nat, keepOnError: bool) returns (res: int, ghost did: seq<Event>)
      requires Valid() && idx < FD_ENTRIES
      modifies slots, os, this`readers, this`writers
      ensures Valid() && Loose() == old(Loose()) && (res == 0 || res == -1)
      ensures os.trace == old(os.trace) + did + (if res == -1 && !keepOnError then [Renewed] else [])
      ensures var o := old(slots[idx]);
              && (if o.fd == -1 then did == [] else Release(did, o.fd, o.kind))
              && (res == -1 <==> o.fd == -1 || Failing(did, o.fd))
              && slots[..] == old(slots[..])[idx := if res == -1 && keepOnError then o.(fd := -1) else o.Cleared()]
    {
      hide Tidy, Held, Count;
      ghost var was := slots[..];
      ghost var o := was[idx];
      TidyWithout(was, idx, true);
      TidyWithout(was, idx, false);
      res := -1;
      did := [];
      if slots[idx].fd != -1 {
        CountPositive(was, idx);
        if slots[idx].kind == Write {
          writers := writers - 1;
          res := os.Fsync(slots[idx].fd);
          did := [Synced(o.fd, res == 0)];
        } else {
          readers := readers - 1;
          res := 0;
        }
        var res2 := os.Close(slots[idx].fd);
        did := did + [Closed(o.fd, res2 == 0)];
        slots[idx] := slots[idx].(fd := -1);
        if res == -1 || res2 == -1 {
          assert did[if res2 == -1 then |did| - 1 else 0].Fails(o.fd);
          res := -1;
        }
      }
      if res == -1 && !keepOnError { os.Renew(); }
      if res != -1 || !keepOnError {
        slots[idx] := slots[idx].(fd := -1, use := 0, key := ZERO);
      }
      ghost var x := if res == -1 && keepOnError then o.(fd := -1) else o.Cleared();
      assert slots[..] == was[idx := x];
      HeldWithout(was, idx, x);
      CountReplace(was, idx, x, Read);
      CountReplace(was, idx, x, Write);
    }

    /** fd_cache_add: a full table leaves the descriptor uncached. */
    method Add(fd: int, key: Key, kind: Kind)
      requires Valid() && fd >= 0 && fd in Loose()
      requires forall i :: 0 <= i < FD_ENTRIES ==> !slots[i].IsFor(kind, key)
      modifies slots, this`readers, this`writers
      ensures Valid()
      ensures if HasUnused(old(slots[..]))
              then Filled(old(slots[..]), slots[..], fd, kind, key) && Held(slots[..]) == Held(old(slots[..])) + {fd}
              else slots[..] == old(slots[..])
    {
      hide Tidy, Held, Count;
      var idx := Unused();
      ghost var was := slots[..];
      if idx != -1 {
        assert was[idx].use == 0;
        if kind == Read { readers := readers + 1; } else { writers := writers + 1; }
        var now := os.Time();
        var x := Slot(fd, kind, now, key);
        FillSlot(was, idx, x);
        HeldWith(was, idx, x);
        CountReplace(was, idx, x, Read);
        CountReplace(was, idx, x, Write);
        slots[idx] := x;
        assert slots[..] == was[idx := x];
      }
    }

    /** idx_by_fd */
    method IdxByFd(fd: int, kind: Kind) returns (idx: int)
      requires slots.Length == FD_ENTRIES
      ensures -1 <= idx < FD_ENTRIES
      ensures idx >= 0 ==> slots[idx].fd == fd && slots[idx].kind == kind
      ensures idx == -1 ==> forall i :: 0 <= i < FD_ENTRIES ==> !(slots[i].fd == fd && slots[i].kind == kind)
    {
      var i := 0;
      while i < FD_ENTRIES
        invariant 0 <= i <= FD_ENTRIES
        invariant forall j :: 0 <= j < i ==> !(slots[j].fd == fd && slots[j].kind == kind)
      {
        if slots[i].fd == fd && slots[i].kind == kind { return i; }
        i := i + 1;
      }
      return -1;
    }

    /** idx_by_fh; it does not look at `use`, so the all-zero handle meets unused slots. */
    method IdxByFh(key: Key, kind: Kind) returns (idx: int)
      requires slots.Length == FD_ENTRIES
      ensures -1 <= idx < FD_ENTRIES
      ensures idx >= 0 ==> slots[idx].IsFor(kind, key)
      ensures idx == -1 ==> forall i :: 0 <= i < FD_ENTRIES ==> !slots[i].IsFor(kind, key)
    {
      var i := 0;
      while i < FD_ENTRIES
        invariant 0 <= i <= FD_ENTRIES
        invariant forall j :: 0 <= j < i ==> !slots[j].IsFor(kind, key)
      {
        if slots[i].IsFor(kind, key) { return i; }
        i := i + 1;
      }
      return -1;
    }

    /** `fd` is open and no slot holds it for the other kind: what fd_open promises and
        fd_close expects. */
    ghost predicate Usable(fd: int, kind: Kind)
      reads this, slots, os
    {
      && fd >= 0 && fd in os.open
      && forall i :: 0 <= i < slots.Length && slots[i].Open() && slots[i].fd == fd ==> slots[i].kind == kind
    }

    /** fd_open. A pending error for the handle is reported here, after renewing the verifier;
        the cached descriptor of the handle is returned; otherwise a new one is opened. */
    method FdOpen(key: Key, kind: Kind, allowCaching: bool) returns (fd: int, ghost ident: Option<Key>)
      requires Valid()
      modifies slots, os, this`readers, this`writers
      ensures Valid() && Step(Opening(kind, key, fd), old(Snap()), Snap())
      ensures OthersPending(old(slots[..]), slots[..], kind, key)
      ensures key != ZERO && IsPending(old(slots[..]), kind, key) ==>
                fd == -1 && !IsPending(slots[..], kind, key) && os.trace == old(os.trace) + [Renewed]
      ensures key != ZERO ==>
                forall i :: 0 <= i < FD_ENTRIES && old(slots[..])[i].Open() && old(slots[..])[i].IsFor(kind, key) ==>
                  fd == old(slots[..])[i].fd
      ensures (forall i :: 0 <= i < FD_ENTRIES ==> !old(slots[..])[i].IsFor(kind, key)) ==>
                if fd == -1 then slots[..] == old(slots[..])
                else Obtained(old(slots[..]), slots[..], fd, kind, key, allowCaching, ident) && fd !in old(os.open)
      ensures fd == -1 ==> Loose() == old(Loose())
      ensures fd != -1 ==> Usable(fd, kind) && Loose() - {fd} == old(Loose()) - {fd} && os.trace == old(os.trace)
      ensures fd != -1 ==> (fd in Held(old(slots[..])) <==> OpenFor(old(slots[..]), kind, key))
      ensures fd != -1 && fd !in Held(old(slots[..])) ==>
                ident == Some(key) && fd !in old(os.open)
                && Obtained(old(slots[..]), slots[..], fd, kind, key, allowCaching, ident)
                && forall i :: 0 <= i < FD_ENTRIES ==> !old(slots[..])[i].IsFor(kind, key)
      ensures fd != -1 && fd in Held(old(slots[..])) ==>
                slots[..] == old(slots[..]) && os.open == old(os.open) && OpenIn(slots[..], fd, kind, key)
    {
      hide Tidy, Held, Count, Filled, HasUnused, Honest, Answered, IsPending;
      ghost var was := slots[..];
      var idx := IdxByFh(key, kind);
      if idx == -1 {
        assert forall i :: 0 <= i < FD_ENTRIES ==> was[i] == slots[i];
        NotPending(was, kind, key);
        fd, ident := OpenNew(key, kind, allowCaching);
        return;
      }
      ident := None;
      fd := slots[idx].fd;
      assert was[idx] == slots[idx] && was[idx].IsFor(kind, key);
      TidyWithout(was, idx, true);
      OneEntry(was, idx);
      if fd != -1 { OpenTidy(was, idx, kind, key); }
      if fd == -1 {
        ghost var old_ := os.trace;
        var _, did := Del(idx, false);
        assert os.trace[|old_|..] == [Renewed];
        ReportStep(was, idx);
        OnlyThisLeaves(was, idx);
      } else {
        assert os.trace[|old(os.trace)|..] == [];
        QuietStep(Opening(kind, key, fd), was, [], was);
      }
    }

    /** fd_open for a handle without a slot: open, make sure it is still the same object, cache. */
    method OpenNew(key: Key, kind: Kind, allowCaching: bool) returns (fd: int, ghost ident: Option<Key>)
      requires Valid() && forall i :: 0 <= i < FD_ENTRIES ==> !slots[i].IsFor(kind, key)
      modifies slots, os, this`readers, this`writers
      ensures Valid() && Step(Opening(kind, key, fd), old(Snap()), Snap())
      ensures forall k, h :: IsPending(old(slots[..]), k, h) <==> IsPending(slots[..], k, h)
      ensures fd == -1 ==> slots[..] == old(slots[..]) && os.open == old(os.open)
      ensures fd != -1 ==>
                && Obtained(old(slots[..]), slots[..], fd, kind, key, allowCaching, ident)
                && fd !in old(os.open) && os.open == old(os.open) + {fd} && os.trace == old(os.trace)
      ensures fd != -1 ==> Usable(fd, kind) && Loose() - {fd} == old(Loose()) - {fd}
    {
      hide Tidy, Count, Honest, Answered, IsPending;
      ident := None;
      ghost var was := slots[..];
      ghost var before := os.trace;
      fd := os.Open();
      if fd == -1 {
        assert os.trace[|before|..] == [];
        QuietStep(Opening(kind, key, fd), was, [], was);
        return;
      }
      assert fd !in Held(was);
      var st := os.Fstat(fd);
      ident := st;
      if st != Some(key) {
        var res := os.Close(fd);
        assert os.trace[|before|..] == [Closed(fd, res == 0)];
        QuietStep(Opening(kind, key, -1), was, [Closed(fd, res == 0)], was);
        return -1, st;
      }
      if allowCaching { Add(fd, key, kind); }
      assert os.trace[|before|..] == [];
      QuietStep(Opening(kind, key, fd), was, [], slots[..]);
    }

    /** fd_close. A cached descriptor is kept unless really closed; another one is synced and
        closed at once. Either way no descriptor is left loose. */
    method FdClose(fd: int, kind: Kind, reallyClose: bool) returns (res: int)
      requires Valid() && Usable(fd, kind)
      modifies slots, os, this`readers, this`writers
      ensures Valid() && Loose() == old(Loose()) - {fd} && Step(Closing(fd, res), old(Snap()), Snap())
      ensures forall k, h :: IsPending(old(slots[..]), k, h) <==> IsPending(slots[..], k, h)
      ensures res == 0 || res == -1
      ensures ClosedAs(old(Snap()), Snap(), fd, kind, reallyClose, res)
    {
      hide Tidy, Count, Honest, IsPending, Failing, AnyFails, ClosedAs;
      ghost var was := slots[..];
      ghost var before := os.trace;
      ghost var m := Snap();
      var idx := IdxByFd(fd, kind);
      if idx == -1 {
        NotHeld(was, fd, kind);
        res := 0;
        if kind == Write { res := os.Fsync(fd); }
        var res2 := os.Close(fd);
        ghost var did := (if kind == Write then [Synced(fd, res == 0)] else []) + [Closed(fd, res2 == 0)];
        assert os.trace[|before|..] == did;
        if res == 0 { res := res2; }
        UncachedStep(was, fd, kind, did, res);
        UncachedClosed(m, Snap(), fd, kind, reallyClose, did, res);
        return;
      }
      assert was[idx] == slots[idx];
      TidyWithout(was, idx, true);
      var now := os.Time();
      Restamp(was, idx, now);
      slots[idx] := slots[idx].(use := now);
      assert slots[..] == was[idx := was[idx].(use := now)];
      if reallyClose {
        ghost var did;
        res, did := Del(idx, false);
        assert os.trace[|before|..] == Calls(did, res);
        assert slots[..] == was[idx := was[idx].Cleared()];
        CloseStep(was, idx, did, res);
        ReallyClosed(m, Snap(), kind, idx, did, res);
      } else {
        res := 0;
        assert os.trace[|before|..] == [];
        StampStep(was, idx, now);
        KeptOpen(m, Snap(), kind, idx, now);
      }
    }

    /** fd_sync: the handle's write slot is emptied; -1 exactly for a pending error or a new failure. */
    method FdSync(key: Key) returns (res: int)
      requires Valid()
      modifies slots, os, this`readers, this`writers
      ensures Valid() && Loose() == old(Loose()) && Step(Syncing(key, res), old(Snap()), Snap())
      ensures OthersPending(old(slots[..]), slots[..], Write, key)
      ensures key != ZERO ==> forall i :: 0 <= i < FD_ENTRIES ==> !slots[i].IsFor(Write, key)
      ensures key != ZERO ==>
                (res == -1 <==> IsPending(old(slots[..]), Write, key) || AnyFails(os.trace[|old(os.trace)|..]))
      ensures res == 0 || (res == -1 && Renewed in os.trace[|old(os.trace)|..])
    {
      hide Tidy, Count, Honest, Answered, IsPending;
      ghost var was := slots[..];
      ghost var before := os.trace;
      var idx := IdxByFh(key, Write);
      if idx == -1 {
        assert forall i :: 0 <= i < FD_ENTRIES ==> was[i] == slots[i];
        NotPending(was, Write, key);
        assert os.trace[|before|..] == [];
        QuietStep(Syncing(key, 0), was, [], was);
        return 0;
      }
      assert was[idx] == slots[idx];
      TidyWithout(was, idx, true);
      OneEntry(was, idx);
      ghost var did;
      res, did := Del(idx, false);
      ghost var all := Calls(did, res);
      assert os.trace[|before|..] == all;
      assert res == -1 ==> all[|all| - 1] == Renewed;
      SyncStep(was, idx, did, res);
    }

    /** The open/close bracket of a WRITE: no descriptor is left behind outside the table, and
        success means that no call failed and no error was pending. */
    method WriteBracket(key: Key, unstable: bool) returns (ok: bool, ghost run: seq<State>, ghost acts: seq<Act>)
      requires Valid()
      modifies slots, os, this`readers, this`writers
      ensures Valid() && Loose() == old(Loose())
      ensures Run(run, acts) && run[0] == old(Snap()) && run[|acts|] == Snap()
      ensures Serves(Write3(key, unstable), acts) && (ok <==> |acts| == 2 && acts[1].res != -1)
      ensures OthersPending(old(slots[..]), slots[..], Write, key)
      ensures ok ==> old(os.trace) <= os.trace && !AnyFails(os.trace[|old(os.trace)|..])
      ensures ok ==> Written(old(Snap()), Snap(), key, unstable, acts[0].res)
      ensures ok && key != ZERO ==> !IsPending(old(slots[..]), Write, key)
      ensures old(Loose()) == {} ==> os.open == Held(slots[..]) && |os.open| <= FD_ENTRIES
    {
      hide Tidy, Held, Count, Step, IsPending, AnyFails, Obtained, Release, OpenIn, OpenFor, Written;
      hide Stamped, Emptied, Calls, ReleaseReported;
      ghost var start := Snap();
      var fd, ident := FdOpen(key, Write, unstable);
      run, acts := [start, Snap()], [Opening(Write, key, fd)];
      ok := false;
      if fd != -1 {
        ghost var mid := Snap();
        var res := FdClose(fd, Write, !unstable);
        run, acts := run + [Snap()], acts + [Closing(fd, res)];
        ok := res != -1;
        if ok { BracketWritten(start, mid, Snap(), key, unstable, fd, ident, res); }
      }
      RunGrows(run, acts, 0, |acts|);
      if old(Loose()) == {} { NoneLoose(slots[..], os.open); }
    }

    /** fd_cache_purge: every descriptor is released; a slot keeps its error if a call on its
        descriptor failed, and is unused otherwise. */
    method Purge()
      requires Valid()
      modifies slots, os, this`readers, this`writers
      ensures Valid() && Loose() == old(Loose()) && Held(slots[..]) == {} && os.open == Loose()
      ensures Step(Purging, old(Snap()), Snap())
      ensures Swept(old(slots[..]), os.trace[|old(os.trace)|..], slots[..], None, FD_ENTRIES)
      ensures forall k, h :: IsPending(old(slots[..]), k, h) ==> IsPending(slots[..], k, h)
    {
      hide Tidy, Count, Swept, Honest, IsPending;
      ghost var start := slots[..];
      ghost var did := [];
      var i := 0;
      SweepNothing(start, None);
      while i < FD_ENTRIES
        invariant 0 <= i <= FD_ENTRIES && Valid() && Loose() == old(Loose())
        invariant os.trace == old(os.trace) + did && Swept(start, did, slots[..], None, i)
      {
        ghost var was := slots[..];
        SweptHere(start, did, was, None, i);
        if slots[i].use != 0 {
          var res, more := Del(i, true);
          if was[i].fd != -1 {
            SweepOne(start, did, was, None, i, more);
            did := did + more;
          } else {
            assert slots[..] == was;
            SweepPast(start, did, was, None, i);
          }
        } else {
          SweepPast(start, did, was, None, i);
        }
        i := i + 1;
      }
      assert os.trace[|old(os.trace)|..] == did;
      SweepStep(Purging, start, did, slots[..], None);
      PurgedHoldsNothing(start, did, slots[..]);
    }

    /** First sweep of fd_cache_close_inactive: close idle descriptors, keeping their errors,
        and look at the age of all pending errors. */
    method CloseIdle(now: int) returns (foundError: bool, activeError: bool, ghost did: seq<Event>)
      requires Valid()
      modifies slots, os, this`readers, this`writers
      ensures Valid() && Loose() == old(Loose())
      ensures os.trace == old(os.trace) + did && Swept(old(slots[..]), did, slots[..], Some(now), FD_ENTRIES)
      ensures foundError <==> exists i :: 0 <= i < FD_ENTRIES && slots[i].Pending()
      ensures activeError <==> exists i :: 0 <= i < FD_ENTRIES && slots[i].Pending() && slots[i].Recent(now)
    {
      hide Tidy, Held, Count, Swept;
      ghost var start := slots[..];
      foundError, activeError, did := false, false, [];
      var i := 0;
      SweepNothing(start, Some(now));
      while i < FD_ENTRIES
        invariant 0 <= i <= FD_ENTRIES && Valid() && Loose() == old(Loose())
        invariant os.trace == old(os.trace) + did && Swept(start, did, slots[..], Some(now), i)
        invariant foundError <==> exists j :: 0 <= j < i && slots[j].Pending()
        invariant activeError <==> exists j :: 0 <= j < i && slots[j].Pending() && slots[j].Recent(now)
      {
        ghost var was := slots[..];
        SweptHere(start, did, was, Some(now), i);
        if slots[i].Idle(now) {
          var _, more := Del(i, true);
          SweepOne(start, did, was, Some(now), i, more);
          did := did + more;
          assert forall j :: 0 <= j < FD_ENTRIES && j != i ==> slots[j] == slots[..][j] == was[j];
        } else {
          SweepPast(start, did, was, Some(now), i);
        }
        if slots[i].Pending() {
          foundError := true;
          if slots[i].Recent(now) { activeError := true; }
        }
        i := i + 1;
      }
    }

    /** Second sweep: all pending errors leave, the verifier being renewed for each. */
    method DropPending() returns (ghost drops: seq<Event>)
      requires Valid()
      modifies slots, os, this`readers, this`writers
      ensures Valid() && Loose() == old(Loose()) && AllDropped(old(slots[..]), slots[..])
      ensures os.trace == old(os.trace) + drops && forall m :: 0 <= m < |drops| ==> drops[m] == Renewed
    {
      hide Tidy, Held, Count;
      ghost var start := slots[..];
      drops := [];
      var i := 0;
      while i < FD_ENTRIES
        invariant 0 <= i <= FD_ENTRIES && Valid() && Loose() == old(Loose())
        invariant forall j :: 0 <= j < i ==> slots[j] == if start[j].Pending() then start[j].Cleared() else start[j]
        invariant forall j :: i <= j < FD_ENTRIES ==> slots[j] == start[j]
        invariant os.trace == old(os.trace) + drops && forall m :: 0 <= m < |drops| ==> drops[m] == Renewed
      {
        if slots[i].Pending() {
          ghost var was := slots[..];
          var _, did := Del(i, false);
          drops := drops + [Renewed];
          assert forall j :: 0 <= j < FD_ENTRIES && j != i ==> slots[j] == slots[..][j] == was[j];
          assert slots[i] == slots[..][i];
        }
        i := i + 1;
      }
    }

    /** fd_cache_close_inactive. Idle descriptors are released, others untouched. Errors leave
        only all together, exactly when there are some and every one of them is at least two
        hours old, and then the verifier is renewed last. */
    method CloseInactive() returns (ghost now: int, ghost swept: bool)
      requires Valid()
      modifies slots, os, this`readers, this`writers
      ensures Valid() && Loose() == old(Loose()) && Step(Sweeping(now), old(Snap()), Snap())
      ensures forall i :: 0 <= i < FD_ENTRIES ==>
                && (slots[i].Open() ==> slots[i] == old(slots[..])[i] && !slots[i].Idle(now))
                && (old(slots[..])[i].Open() && !old(slots[..])[i].Idle(now) ==> slots[i] == old(slots[..])[i])
      ensures forall i :: 0 <= i < FD_ENTRIES ==>
                old(slots[..])[i].Open() ==> (slots[i].Open() <==> old(slots[..])[i].use + 2 >= now)
      ensures swept ==> forall i :: 0 <= i < FD_ENTRIES && Erred(old(slots[..])[i], os.trace[|old(os.trace)|..]) ==>
                                      old(slots[..])[i].use + 7200 <= now
      ensures var s, did := old(slots[..]), os.trace[|old(os.trace)|..];
              && (swept <==> && (exists i :: 0 <= i < FD_ENTRIES && Erred(s[i], did))
                             && forall i :: 0 <= i < FD_ENTRIES && Erred(s[i], did) ==> !s[i].Recent(now))
              && (if swept
                  then did != [] && did[|did| - 1] == Renewed && forall i :: 0 <= i < FD_ENTRIES ==> !slots[i].Pending()
                  else Swept(s, did, slots[..], Some(now), FD_ENTRIES))
    {
      hide Tidy, Held, Count, Honest, IsPending, Failing;
      ghost var start := slots[..];
      ghost var before := os.trace;
      var time := os.Time();
      now := time;
      var foundError, activeError, did := CloseIdle(time);
      swept := foundError && !activeError;
      ghost var mid := slots[..];
      if foundError && !activeError {
        ghost var drops := DropPending();
        os.Renew();
        drops := drops + [Renewed];
        assert os.trace[|before|..] == did + drops;
        DropStep(start, did, mid, slots[..], now, drops);
      } else {
        assert os.trace[|before|..] == did;
        SweepStep(Sweeping(now), start, did, mid, Some(now));
      }
    }

    /** Any series of requests, from any state: its operations form a run, about which NoErrorLost
        speaks; `stops` are its states between requests, and every request did what it promises.
        No descriptor is left outside the table. */
    method Serve(requests: seq<Request>)
      returns (ghost run: seq<State>, ghost parts: seq<seq<Act>>, ghost stops: seq<State>)
      requires Valid()
      modifies slots, os, this`readers, this`writers
      ensures Valid() && Loose() == old(Loose())
      ensures |parts| == |requests| && |stops| == |requests| + 1 && stops[0] == old(Snap())
      ensures stops[|requests|] == Snap()
      ensures forall k :: 0 <= k < |requests| ==> Served(requests[k], parts[k], stops[k], stops[k + 1])
      ensures Run(run, Flat(parts)) && Passes(run, parts, stops)
      ensures old(Loose()) == {} ==> os.open == Held(slots[..]) && |os.open| <= FD_ENTRIES
    {
      hide Tidy, Held, Count, Step, Run, Served, Flat, Passes;
      run, parts, stops := [Snap()], [], [Snap()];
      RunStart(Snap());
      var k := 0;
      while k < |requests|
        invariant 0 <= k <= |requests| && Valid() && Loose() == old(Loose())
        invariant |parts| == k && |stops| == k + 1 && stops[0] == old(Snap()) && stops[k] == Snap()
        invariant forall j :: 0 <= j < k ==> Served(requests[j], parts[j], stops[j], stops[j + 1])
        invariant Run(run, Flat(parts)) && Passes(run, parts, stops)
      {
        ghost var more, acts := ServeOne(requests[k]);
        Continue(run, parts, stops, more, acts);
        run, parts, stops := run + more[1..], parts + [acts], stops + [Snap()];
        k := k + 1;
      }
      if old(Loose()) == {} { NoneLoose(slots[..], os.open); }
    }

    method ServeOne(request: Request) returns (ghost run: seq<State>, ghost acts: seq<Act>)
      requires Valid()
      modifies slots, os, this`readers, this`writers
      ensures Valid() && Loose() == old(Loose())
      ensures Run(run, acts) && run[0] == old(Snap()) && run[|acts|] == Snap()
      ensures Served(request, acts, old(Snap()), Snap())
    {
      hide Tidy, Held, Count, Step, Swept, Erred, IsPending, AnyFails, OthersPending, Written;
      ghost var before := Snap();
      match request {
        case Write3(key, unstable) => {
          var ok;
          ok, run, acts := WriteBracket(key, unstable);
        }
        case Commit3(key) => {
          var res := FdSync(key);
          run, acts := [before, Snap()], [Syncing(key, res)];
          OneStep(before, Snap(), Syncing(key, res));
          StepGrows(Syncing(key, res), before, Snap());
          assert forall i :: 0 <= i < FD_ENTRIES ==> slots[i] == slots[..][i];
        }
        case Unmount => {
          Purge();
          run, acts := [before, Snap()], [Purging];
          OneStep(before, Snap(), Purging);
        }
        case Timeout => {
          ghost var now, _ := CloseInactive();
          run, acts := [before, Snap()], [Sweeping(now)];
          OneStep(before, Snap(), Sweeping(now));
          assert forall i :: 0 <= i < FD_ENTRIES ==> slots[i] == slots[..][i];
        }
      }
    }
  }
}
