/** The table of the descriptor cache (src/fd_cache.c): slots that are unused, hold an open
    descriptor, or hold an fsync/close error still to be reported. The environment is a set of
    open descriptors with calls that may fail at will, and keeps a trace of what it did. */
module FdTable {
  import opened Wrappers

  const FD_ENTRIES: nat := 256
  const INACTIVE_TIMEOUT: nat := 2
  const PENDING_ERROR_TIMEOUT: nat := 7200

  datatype Kind = Read | Write
  datatype Key = Key(dev: nat, ino: nat, gen: nat)
  const ZERO := Key(0, 0, 0)

  datatype Slot = Slot(fd: int, kind: Kind, use: int, key: Key) {
    predicate Open() { use != 0 && fd != -1 }
    predicate Pending() { use != 0 && fd == -1 }
    predicate Idle(now: int) { Open() && use + INACTIVE_TIMEOUT < now }
    predicate Recent(now: int) { use + PENDING_ERROR_TIMEOUT > now }
    predicate IsFor(k: Kind, h: Key) { kind == k && key == h }
    function Cleared(): Slot { Slot(-1, kind, 0, ZERO) }
  }

  /** The fsync and close calls made, with their outcome, and renewals of the write verifier. */
  datatype Event = Synced(fd: int, ok: bool) | Closed(fd: int, ok: bool) | Renewed {
    predicate On(f: int) { !Renewed? && fd == f }
    predicate Fails(f: int) { On(f) && !ok }
  }

  /** The system calls and the write verifier; `open` holds the descriptors obtained through
      Open and not yet closed, `trace` what happened so far. Nothing else writes the trace. */
  class Os {
    var open: set<int>
    ghost var trace: seq<Event>

    method Open() returns (fd: int)
      modifies this`open
      ensures fd == -1 ==> open == old(open)
      ensures fd != -1 ==> fd >= 0 && fd !in old(open) && open == old(open) + {fd}
    {
      fd := *;
      if fd < 0 || fd in open { return -1; }
      open := open + {fd};
    }

    method Close(fd: int) returns (res: int)
      modifies this
      ensures open == old(open) - {fd} && (res == 0 || res == -1)
      ensures trace == old(trace) + [Closed(fd, res == 0)]
    {
      open := open - {fd};
      res :| res == 0 || res == -1;
      trace := trace + [Closed(fd, res == 0)];
    }

    method Fsync(fd: int) returns (res: int)
      modifies this`trace
      ensures (res == 0 || res == -1) && trace == old(trace) + [Synced(fd, res == 0)]
    {
      res :| res == 0 || res == -1;
      trace := trace + [Synced(fd, res == 0)];
    }

    /** regenerate_write_verifier (src/daemon.c) */
    method Renew()
      modifies this`trace
      ensures trace == old(trace) + [Renewed]
    {
      trace := trace + [Renewed];
    }

    /** The identity of an open file, None when fstat fails. */
    method Fstat(fd: int) returns (key: Option<Key>) { key := *; }

    method Time() returns (now: int)
      ensures now > 0
    {
      now :| now > 0;
    }
  }

  // -------------------------------------------------------------- slot tables

  ghost predicate Tidy(s: seq<Slot>) {
    && (forall i :: 0 <= i < |s| && s[i].use == 0 ==> s[i].fd == -1 && s[i].key == ZERO)
    && (forall i :: 0 <= i < |s| ==> s[i].fd >= -1)
    && (forall i, j :: 0 <= i < j < |s| && s[i].use != 0 && s[j].use != 0 ==> !s[i].IsFor(s[j].kind, s[j].key))
    && (forall i, j :: 0 <= i < j < |s| && s[i].Open() && s[j].Open() ==> s[i].fd != s[j].fd)
  }

  /** The descriptors the table holds. */
  ghost function Held(s: seq<Slot>): set<int> {
    set i | 0 <= i < |s| && s[i].Open() :: s[i].fd
  }

  /** The table has an error to report for a kind and handle. */
  ghost predicate IsPending(s: seq<Slot>, kind: Kind, key: Key) {
    exists k :: 0 <= k < |s| && s[k].Pending() && s[k].IsFor(kind, key)
  }

  /** The number of open slots of a kind. */
  function Count(s: seq<Slot>, kind: Kind): nat {
    if s == [] then 0
    else Count(s[..|s| - 1], kind) + (if s[|s| - 1].Open() && s[|s| - 1].kind == kind then 1 else 0)
  }

  lemma {:induction false} CountReplace(s: seq<Slot>, i: nat, x: Slot, kind: Kind)
    requires i < |s|
    ensures Count(s[i := x], kind) == Count(s, kind)
            - (if s[i].Open() && s[i].kind == kind then 1 else 0)
            + (if x.Open() && x.kind == kind then 1 else 0)
  {
    var k := |s| - 1;
    if i == k {
      assert s[i := x][..k] == s[..k];
    } else {
      CountReplace(s[..k], i, x, kind);
      assert s[i := x][..k] == s[..k][i := x];
    }
  }

  lemma {:induction false} CountPositive(s: seq<Slot>, i: nat)
    requires i < |s| && s[i].Open()
    ensures Count(s, s[i].kind) > 0
  {
    if i < |s| - 1 { CountPositive(s[..|s| - 1], i); }
  }

  lemma {:induction false} CountZero(s: seq<Slot>, kind: Kind)
    requires forall i :: 0 <= i < |s| ==> !s[i].Open()
    ensures Count(s, kind) == 0
  {
    if s != [] { CountZero(s[..|s| - 1], kind); }
  }

  /** A table of n slots holds at most n descriptors. */
  lemma {:induction false} HeldBound(s: seq<Slot>)
    ensures |Held(s)| <= |s|
  {
    if s == [] {
      assert Held(s) == {};
    } else {
      var k := |s| - 1;
      HeldBound(s[..k]);
      var last := if s[k].Open() then {s[k].fd} else {};
      assert Held(s) == Held(s[..k]) + last by {
        forall fd | fd in Held(s) ensures fd in Held(s[..k]) + last {
          var i :| 0 <= i < |s| && s[i].Open() && s[i].fd == fd;
          if i < k { assert s[..k][i] == s[i]; }
        }
        forall fd | fd in Held(s[..k]) ensures fd in Held(s) {
          var i :| 0 <= i < k && s[..k][i].Open() && s[..k][i].fd == fd;
          assert s[i].Open() && s[i].fd == fd;
        }
      }
    }
  }

  lemma NoneLoose(s: seq<Slot>, open: set<int>)
    requires Held(s) <= open && open - Held(s) == {}
    ensures open == Held(s) && |open| <= |s|
  {
    assert open == Held(s) + (open - Held(s));
    HeldBound(s);
  }

  /** Closing the descriptor of a slot removes it, and only it, from the held ones. */
  lemma HeldWithout(s: seq<Slot>, i: nat, x: Slot)
    requires i < |s| && Tidy(s) && !x.Open()
    ensures Held(s[i := x]) == if s[i].Open() then Held(s) - {s[i].fd} else Held(s)
  {
    var t := s[i := x];
    forall fd | fd in Held(t) ensures fd in Held(s) && (s[i].Open() ==> fd != s[i].fd) {
      var j :| 0 <= j < |t| && t[j].Open() && t[j].fd == fd;
      assert s[j] == t[j];
    }
    forall fd | fd in Held(s) && !(s[i].Open() && fd == s[i].fd) ensures fd in Held(t) {
      var j :| 0 <= j < |s| && s[j].Open() && s[j].fd == fd;
      assert t[j] == s[j];
    }
  }

  /** Filling an unused slot adds its descriptor. */
  lemma HeldWith(s: seq<Slot>, i: nat, x: Slot)
    requires i < |s| && !s[i].Open() && x.Open()
    ensures Held(s[i := x]) == Held(s) + {x.fd}
  {
    var t := s[i := x];
    assert t[i].Open();
    forall fd | fd in Held(s) ensures fd in Held(t) {
      var j :| 0 <= j < |s| && s[j].Open() && s[j].fd == fd;
      assert t[j] == s[j];
    }
    forall fd | fd in Held(t) && fd != x.fd ensures fd in Held(s) {
      var j :| 0 <= j < |t| && t[j].Open() && t[j].fd == fd;
      assert t[j] == s[j];
    }
  }

  /** A slot that lost its descriptor, and perhaps its key, leaves the table tidy. */
  lemma TidyWithout(s: seq<Slot>, i: nat, keep: bool)
    requires Tidy(s) && i < |s|
    ensures Tidy(s[i := if keep then s[i].(fd := -1) else s[i].Cleared()])
    ensures s[i].fd != -1 ==> s[i].Open() && s[i].fd in Held(s)
  {
  }

  /** Filling an unused slot for a kind and handle the table does not know. */
  lemma FillSlot(s: seq<Slot>, i: nat, x: Slot)
    requires Tidy(s) && i < |s| && s[i].use == 0 && x.Open() && x.fd >= 0 && x.fd !in Held(s)
    requires forall j :: 0 <= j < |s| ==> !s[j].IsFor(x.kind, x.key)
    ensures Tidy(s[i := x])
  {
    assert forall j :: 0 <= j < |s| && s[j].Open() ==> s[j].fd in Held(s);
  }

  /** A new time stamp on a used slot changes nothing else. */
  lemma Restamp(s: seq<Slot>, i: nat, now: int)
    requires Tidy(s) && i < |s| && s[i].Open() && now != 0
    ensures var t := s[i := s[i].(use := now)];
            && Tidy(t) && Held(t) == Held(s)
            && Count(t, Read) == Count(s, Read) && Count(t, Write) == Count(s, Write)
  {
    var x := s[i].(use := now);
    var t := s[i := x];
    CountReplace(s, i, x, Read);
    CountReplace(s, i, x, Write);
    assert forall j :: 0 <= j < |s| ==> t[j].Open() == s[j].Open() && t[j].fd == s[j].fd;
  }

  /** The slot found for a handle: its descriptor, and its error, are in no other slot. */
  lemma OneEntry(s: seq<Slot>, i: nat)
    requires Tidy(s) && i < |s|
    ensures s[i].fd != -1 ==> forall j :: 0 <= j < |s| && s[j].Open() && s[j].fd == s[i].fd ==> j == i
    ensures s[i].key != ZERO && IsPending(s, s[i].kind, s[i].key) ==> s[i].fd == -1
    ensures s[i].key != ZERO ==>
              s[i].use != 0 && forall j :: 0 <= j < |s| && s[j].IsFor(s[i].kind, s[i].key) ==> j == i
    ensures s[i].Open() ==> s[i].fd >= 0
  {
  }

  lemma NotHeld(s: seq<Slot>, fd: int, kind: Kind)
    requires forall i :: 0 <= i < |s| ==> !(s[i].fd == fd && s[i].kind == kind)
    requires forall i :: 0 <= i < |s| && s[i].Open() && s[i].fd == fd ==> s[i].kind == kind
    ensures fd !in Held(s)
  {
  }

  ghost predicate HasUnused(s: seq<Slot>) {
    exists i :: 0 <= i < |s| && s[i].use == 0
  }

  /** An unused slot received the descriptor. */
  ghost predicate Filled(s: seq<Slot>, t: seq<Slot>, fd: int, kind: Kind, key: Key) {
    exists i, now :: 0 <= i < |s| && s[i].use == 0 && now != 0 && t == s[i := Slot(fd, kind, now, key)]
  }
}
