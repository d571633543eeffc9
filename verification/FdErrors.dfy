/** The errors of the descriptor cache (src/fd_cache.c): what every operation keeps, and what
    follows for whole runs. */
module FdErrors {
  import opened Wrappers
  import opened FdTable

  // ------------------------------------------------------ what one operation may do

  ghost predicate Failing(did: seq<Event>, fd: int) {
    exists m :: 0 <= m < |did| && did[m].Fails(fd)
  }

  ghost predicate AnyFails(did: seq<Event>) {
    exists m :: 0 <= m < |did| && !did[m].Renewed? && !did[m].ok
  }

  /** A descriptor was closed, a writing one right after syncing it. */
  ghost predicate Released(did: seq<Event>, fd: int, kind: Kind) {
    exists m :: 0 <= m < |did| && did[m].Closed? && did[m].fd == fd &&
                (kind == Write ==> m > 0 && did[m - 1].Synced? && did[m - 1].fd == fd)
  }

  /** The calls that release one descriptor, and no more. */
  predicate Release(did: seq<Event>, fd: int, kind: Kind) {
    match kind
    case Read => |did| == 1 && did[0].Closed? && did[0].fd == fd
    case Write => |did| == 2 && did[0].Synced? && did[0].fd == fd && did[1].Closed? && did[1].fd == fd
  }

  /** The slot has an error to report, or got one from these calls. */
  ghost predicate Erred(o: Slot, did: seq<Event>) {
    o.Pending() || (o.Open() && Failing(did, o.fd))
  }

  /** An operation on the cache with its outcome. */
  datatype Act =
    | Opening(kind: Kind, key: Key, res: int)
    | Closing(fd: int, res: int)
    | Syncing(key: Key, res: int)
    | Purging
    | Sweeping(now: int)

  /** The ways an error may leave the table: a client is told -1 for that kind and handle, or a
      sweep finds every error at least two hours old and drops all of them. */
  ghost predicate Answered(act: Act, s: seq<Slot>, did: seq<Event>, t: seq<Slot>, kind: Kind, key: Key) {
    match act
    case Opening(k, h, res) => res == -1 && k == kind && h == key
    case Closing(fd, res) =>
      res == -1 && exists i :: 0 <= i < |s| && s[i].Open() && s[i].fd == fd && s[i].IsFor(kind, key)
    case Syncing(h, res) => res == -1 && kind == Write && h == key
    case Purging => false
    case Sweeping(now) =>
      && (forall i :: 0 <= i < |t| ==> !t[i].Pending())
      && forall i :: 0 <= i < |s| && Erred(s[i], did) ==> !s[i].Recent(now)
  }

  /** A pending error stays, or is answered with a new verifier. */
  ghost predicate ErrorsKept(act: Act, s: seq<Slot>, did: seq<Event>, t: seq<Slot>) {
    forall k, h :: IsPending(s, k, h) && !IsPending(t, k, h) ==> Answered(act, s, did, t, k, h) && Renewed in did
  }

  /** A failure on a cached descriptor becomes pending, or is answered with a verifier newer than it. */
  ghost predicate FailuresKept(act: Act, s: seq<Slot>, did: seq<Event>, t: seq<Slot>) {
    forall i, m :: 0 <= i < |s| && 0 <= m < |did| && s[i].Open() && did[m].Fails(s[i].fd) ==>
      || IsPending(t, s[i].kind, s[i].key)
      || (Answered(act, s, did, t, s[i].kind, s[i].key) && Renewed in did[m + 1..])
  }

  /** Only a failure makes an error pending. */
  ghost predicate NoneInvented(s: seq<Slot>, did: seq<Event>, t: seq<Slot>) {
    forall k, h :: IsPending(t, k, h) && !IsPending(s, k, h) ==>
      exists i :: 0 <= i < |s| && s[i].Open() && s[i].IsFor(k, h) && Failing(did, s[i].fd)
  }

  /** A descriptor leaves the table only by being synced, if written, and closed. */
  ghost predicate LeaveReleased(s: seq<Slot>, did: seq<Event>, t: seq<Slot>) {
    && |s| == |t|
    && forall i :: 0 <= i < |s| && s[i].Open() && !(t[i].Open() && t[i].fd == s[i].fd) ==>
         Released(did, s[i].fd, s[i].kind)
  }

  /** What every operation keeps, between table `s` and table `t` with calls `did`. */
  ghost predicate Honest(act: Act, s: seq<Slot>, did: seq<Event>, t: seq<Slot>) {
    && ErrorsKept(act, s, did, t) && FailuresKept(act, s, did, t)
    && NoneInvented(s, did, t) && LeaveReleased(s, did, t)
  }

  datatype State = State(slots: seq<Slot>, trace: seq<Event>, open: set<int>)

  ghost predicate Step(act: Act, a: State, b: State) {
    a.trace <= b.trace && Honest(act, a.slots, b.trace[|a.trace|..], b.slots)
  }

  /** A run of the cache: the states between its operations. */
  ghost predicate Run(run: seq<State>, acts: seq<Act>) {
    |run| == |acts| + 1 && forall k :: 0 <= k < |acts| ==> Step(acts[k], run[k], run[k + 1])
  }

  // ------------------------------------------------------------- errors over runs

  /** The trace only grows. */
  lemma {:induction false} RunGrows(run: seq<State>, acts: seq<Act>, a: nat, b: nat)
    requires Run(run, acts) && a <= b <= |acts|
    ensures run[a].trace <= run[b].trace
    decreases b - a
  {
    if a < b {
      RunGrows(run, acts, a, b - 1);
      assert Step(acts[b - 1], run[b - 1], run[b]);
    }
  }

  /** The verifier was renewed at or after `start` and after `from`. */
  ghost predicate RenewedAfter(trace: seq<Event>, start: nat, from: int) {
    exists r :: start <= r < |trace| && from < r && trace[r] == Renewed
  }

  /** Operation n answered the error and renewed the verifier after trace position `from`. */
  ghost predicate AnsweredAt(run: seq<State>, acts: seq<Act>, n: nat, from: int, kind: Kind, key: Key)
    requires Run(run, acts) && n < |acts|
  {
    var a, b := run[n], run[n + 1];
    && a.trace <= b.trace && Answered(acts[n], a.slots, b.trace[|a.trace|..], b.slots, kind, key)
    && RenewedAfter(b.trace, |a.trace|, from)
  }

  /** An error pending at some point of a run stays pending until it is answered. */
  lemma {:induction false} PendingUntilAnswered(run: seq<State>, acts: seq<Act>, k: nat, from: int,
                                                kind: Kind, key: Key)
    requires Run(run, acts) && k <= |acts| && IsPending(run[k].slots, kind, key) && from < |run[k].trace|
    ensures IsPending(run[|acts|].slots, kind, key) ||
            exists n :: k <= n < |acts| && AnsweredAt(run, acts, n, from, kind, key)
    decreases |acts| - k
  {
    hide Answered;
    if k < |acts| {
      var a, b := run[k], run[k + 1];
      assert Step(acts[k], a, b);
      if IsPending(b.slots, kind, key) {
        PendingUntilAnswered(run, acts, k + 1, from, kind, key);
      } else {
        var did := b.trace[|a.trace|..];
        var r :| 0 <= r < |did| && did[r] == Renewed;
        assert b.trace[|a.trace| + r] == Renewed;
        assert AnsweredAt(run, acts, k, from, kind, key);
      }
    }
  }

  /** A failure on a cached descriptor is pending after the operation, or answered by it. */
  lemma FailureAnswered(run: seq<State>, acts: seq<Act>, k: nat, i: nat, m: nat)
    requires Run(run, acts) && k < |acts| && i < |run[k].slots| && run[k].slots[i].Open()
    requires |run[k].trace| <= m < |run[k + 1].trace| && run[k + 1].trace[m].Fails(run[k].slots[i].fd)
    ensures var o := run[k].slots[i];
            IsPending(run[k + 1].slots, o.kind, o.key) || AnsweredAt(run, acts, k, m, o.kind, o.key)
  {
    hide Answered, ErrorsKept, NoneInvented, LeaveReleased, IsPending;
    var a, b := run[k], run[k + 1];
    assert Step(acts[k], a, b);
    var did := b.trace[|a.trace|..];
    assert did[m - |a.trace|].Fails(a.slots[i].fd);
    if !IsPending(b.slots, a.slots[i].kind, a.slots[i].key) {
      var late := did[m - |a.trace| + 1..];
      var r :| 0 <= r < |late| && late[r] == Renewed;
      assert b.trace[m + 1 + r] == Renewed;
    }
  }

  /** No write error is lost: in every run, an fsync or close call that fails on a descriptor
      the table held leaves its error pending to the end, or some operation answered it - the
      caller got -1 for that kind and handle, or all errors were two hours old - and the
      verifier was renewed after the failure, so that clients of earlier writes notice. */
  lemma NoErrorLost(run: seq<State>, acts: seq<Act>, k: nat, i: nat, m: nat)
    requires Run(run, acts) && k < |acts| && i < |run[k].slots| && run[k].slots[i].Open()
    requires |run[k].trace| <= m < |run[k + 1].trace| && run[k + 1].trace[m].Fails(run[k].slots[i].fd)
    ensures var o, end := run[k].slots[i], run[|acts|];
            || IsPending(end.slots, o.kind, o.key)
            || ((exists n :: k <= n < |acts| && AnsweredAt(run, acts, n, m, o.kind, o.key))
                && RenewedAfter(end.trace, |run[k].trace|, m))
  {
    hide Answered, Step, IsPending;
    var o, end := run[k].slots[i], run[|acts|];
    FailureAnswered(run, acts, k, i, m);
    if IsPending(run[k + 1].slots, o.kind, o.key) {
      PendingUntilAnswered(run, acts, k + 1, m, o.kind, o.key);
    }
    if !IsPending(end.slots, o.kind, o.key) {
      var n :| k <= n < |acts| && AnsweredAt(run, acts, n, m, o.kind, o.key);
      RunGrows(run, acts, k, n);
      RunGrows(run, acts, n + 1, |acts|);
      var b := run[n + 1].trace;
      assert AnsweredAt(run, acts, n, m, o.kind, o.key);
      var r :| |run[n].trace| <= r < |b| && m < r && b[r] == Renewed;
      assert end.trace[r] == Renewed;
    }
  }

  // ------------------------------------------------- calls on one descriptor

  lemma FailingAppend(did: seq<Event>, more: seq<Event>, f: int)
    ensures Failing(did + more, f) <==> Failing(did, f) || Failing(more, f)
  {
    var all := did + more;
    if Failing(did, f) {
      var m :| 0 <= m < |did| && did[m].Fails(f);
      assert all[m].Fails(f);
    }
    if Failing(more, f) {
      var m :| 0 <= m < |more| && more[m].Fails(f);
      assert all[|did| + m].Fails(f);
    }
  }

  lemma ReleasedLonger(did: seq<Event>, more: seq<Event>, fd: int, kind: Kind)
    requires Released(did, fd, kind)
    ensures Released(did + more, fd, kind)
  {
    var all := did + more;
    var m :| 0 <= m < |did| && did[m].Closed? && did[m].fd == fd &&
             (kind == Write ==> m > 0 && did[m - 1].Synced? && did[m - 1].fd == fd);
    assert all[m] == did[m] && (m > 0 ==> all[m - 1] == did[m - 1]);
  }

  /** Releasing one more descriptor says nothing new about another one `f`. */
  lemma ReleaseAfter(did: seq<Event>, more: seq<Event>, fd: int, kind: Kind, f: int)
    requires Release(more, fd, kind)
    ensures Released(did + more, fd, kind)
    ensures f != fd ==> (Failing(did + more, f) <==> Failing(did, f))
    ensures (forall m :: 0 <= m < |did| ==> !did[m].On(fd)) ==> (Failing(did + more, fd) <==> Failing(more, fd))
  {
    var all := did + more;
    assert all[|all| - 1] == more[|more| - 1];
    assert kind == Write ==> all[|all| - 2] == more[0];
    FailingAppend(did, more, f);
    FailingAppend(did, more, fd);
  }

  lemma NoneFails(did: seq<Event>, fd: int)
    requires forall m :: 0 <= m < |did| ==> did[m] == Renewed
    ensures !Failing(did, fd)
  {
  }

  /** A descriptor's release fails exactly if one of the calls made does. */
  lemma FailingOnly(did: seq<Event>, fd: int)
    requires forall m :: 0 <= m < |did| && !did[m].Renewed? ==> did[m].fd == fd
    ensures Failing(did, fd) <==> AnyFails(did)
  {
    if Failing(did, fd) {
      var m :| 0 <= m < |did| && did[m].Fails(fd);
      assert !did[m].Renewed? && !did[m].ok;
    }
    if AnyFails(did) {
      var m :| 0 <= m < |did| && !did[m].Renewed? && !did[m].ok;
      assert did[m].Fails(fd);
    }
  }

  /** The calls of one deletion that reports its error. */
  function Calls(did: seq<Event>, res: int): seq<Event> {
    did + (if res == -1 then [Renewed] else [])
  }

  lemma DelCalls(o: Slot, did: seq<Event>, res: int)
    requires if o.fd == -1 then did == [] else Release(did, o.fd, o.kind)
    requires res == -1 <==> o.fd == -1 || Failing(did, o.fd)
    ensures var all := Calls(did, res);
            && (forall m :: 0 <= m < |all| && !all[m].Renewed? ==> o.fd != -1 && all[m].fd == o.fd)
            && (o.fd != -1 ==> Released(all, o.fd, o.kind))
            && (Failing(all, o.fd) ==> res == -1)
            && (res == -1 <==> o.fd == -1 || AnyFails(all))
            && (res == -1 ==> all[|all| - 1] == Renewed)
  {
    hide Failing, AnyFails, Released;
    var more := if res == -1 then [Renewed] else [];
    var all := did + more;
    FailingAppend(did, more, o.fd);
    NoneFails(more, o.fd);
    FailingOnly(all, o.fd);
    if o.fd != -1 {
      assert [] + did == did;
      ReleaseAfter([], did, o.fd, o.kind, o.fd);
      ReleasedLonger(did, more, o.fd, o.kind);
    }
  }

  // -------------------------------------------- operations on at most one slot

  /** An operation that leaves pending slots and open descriptors alone, and calls nothing on these. */
  lemma QuietStep(act: Act, s: seq<Slot>, did: seq<Event>, t: seq<Slot>)
    requires |s| == |t|
    requires forall i :: 0 <= i < |s| && (s[i].Pending() || t[i].Pending()) ==> t[i] == s[i]
    requires forall i :: 0 <= i < |s| && s[i].Open() ==> t[i].Open() && t[i].fd == s[i].fd
    requires forall m :: 0 <= m < |did| && !did[m].Renewed? ==> did[m].fd !in Held(s)
    ensures Honest(act, s, did, t)
    ensures forall k, h :: IsPending(s, k, h) <==> IsPending(t, k, h)
  {
    forall k, h ensures IsPending(s, k, h) <==> IsPending(t, k, h) {
      if IsPending(s, k, h) {
        var i :| 0 <= i < |s| && s[i].Pending() && s[i].IsFor(k, h);
        assert t[i] == s[i];
      }
    }
    forall i, m | 0 <= i < |s| && 0 <= m < |did| && s[i].Open() ensures !did[m].Fails(s[i].fd) {
      assert s[i].fd in Held(s);
    }
  }

  lemma NotPending(s: seq<Slot>, kind: Kind, key: Key)
    requires forall i :: 0 <= i < |s| ==> !s[i].IsFor(kind, key)
    ensures !IsPending(s, kind, key)
  {
  }

  /** Errors for other kinds and handles stay pending. */
  ghost predicate OthersPending(s: seq<Slot>, t: seq<Slot>, kind: Kind, key: Key) {
    forall k, h :: IsPending(s, k, h) && !IsPending(t, k, h) ==> k == kind && h == key
  }

  /** Clearing one slot can only make its own pending error leave, and makes it leave. */
  lemma OnlyThisLeaves(s: seq<Slot>, i: nat)
    requires i < |s| && Tidy(s)
    ensures var t := s[i := s[i].Cleared()];
            && (forall k, h :: IsPending(s, k, h) && !IsPending(t, k, h) ==> s[i].Pending() && s[i].IsFor(k, h))
            && (forall k, h :: IsPending(t, k, h) ==> IsPending(s, k, h))
            && (s[i].use != 0 ==> !IsPending(t, s[i].kind, s[i].key))
  {
    var t := s[i := s[i].Cleared()];
    forall k, h | IsPending(s, k, h) && !(s[i].Pending() && s[i].IsFor(k, h)) ensures IsPending(t, k, h) {
      var j :| 0 <= j < |s| && s[j].Pending() && s[j].IsFor(k, h);
      assert t[j] == s[j];
    }
    forall k, h | IsPending(t, k, h) ensures IsPending(s, k, h) {
      var j :| 0 <= j < |t| && t[j].Pending() && t[j].IsFor(k, h);
      assert s[j] == t[j];
    }
  }

  /** An operation that clears slot i: its error, old or new, is answered and the verifier renewed last. */
  lemma ClearStep(act: Act, s: seq<Slot>, i: nat, did: seq<Event>)
    requires Tidy(s) && i < |s|
    requires forall m :: 0 <= m < |did| && !did[m].Renewed? ==> s[i].Open() && did[m].fd == s[i].fd
    requires s[i].Open() ==> Released(did, s[i].fd, s[i].kind)
    requires Erred(s[i], did) ==> && did != [] && did[|did| - 1] == Renewed
                                  && Answered(act, s, did, s[i := s[i].Cleared()], s[i].kind, s[i].key)
    ensures Honest(act, s, did, s[i := s[i].Cleared()])
    ensures OthersPending(s, s[i := s[i].Cleared()], s[i].kind, s[i].key)
  {
    hide Answered, Released, IsPending;
    OnlyThisLeaves(s, i);
    forall j, m | 0 <= j < |s| && 0 <= m < |did| && s[j].Open() && did[m].Fails(s[j].fd)
      ensures j == i && Erred(s[i], did) && Renewed in did[m + 1..]
    {
      assert Failing(did, s[i].fd);
      assert did[m + 1..][|did| - m - 2] == Renewed;
    }
    assert Erred(s[i], did) ==> Renewed in did;
  }

  /** Reporting a pending error through fd_open. */
  lemma ReportStep(s: seq<Slot>, i: nat)
    requires Tidy(s) && i < |s| && s[i].fd == -1
    ensures var t := s[i := s[i].Cleared()];
            && Honest(Opening(s[i].kind, s[i].key, -1), s, [Renewed], t)
            && OthersPending(s, t, s[i].kind, s[i].key)
  {
    ClearStep(Opening(s[i].kind, s[i].key, -1), s, i, [Renewed]);
  }

  /** fd_close of a cached descriptor that stays open. */
  lemma StampStep(s: seq<Slot>, i: nat, now: int)
    requires i < |s| && s[i].Open() && now != 0
    ensures var t := s[i := s[i].(use := now)];
            && Honest(Closing(s[i].fd, 0), s, [], t) && !AnyFails([])
            && (forall k, h :: IsPending(s, k, h) <==> IsPending(t, k, h))
  {
    QuietStep(Closing(s[i].fd, 0), s, [], s[i := s[i].(use := now)]);
  }

  /** fd_close of a descriptor that no slot holds. */
  lemma UncachedStep(s: seq<Slot>, fd: int, kind: Kind, did: seq<Event>, res: int)
    requires fd !in Held(s) && Release(did, fd, kind)
    ensures Honest(Closing(fd, res), s, did, s)
    ensures AnyFails(did) <==> !did[0].ok || !did[|did| - 1].ok
  {
    QuietStep(Closing(fd, res), s, did, s);
  }

  /** fd_close for real of the cached descriptor of slot i. */
  lemma CloseStep(s: seq<Slot>, i: nat, did: seq<Event>, res: int)
    requires Tidy(s) && i < |s| && s[i].Open() && Release(did, s[i].fd, s[i].kind)
    requires res == -1 <==> Failing(did, s[i].fd)
    ensures var all, t := Calls(did, res), s[i := s[i].Cleared()];
            && Honest(Closing(s[i].fd, res), s, all, t) && (res == -1 <==> AnyFails(all))
            && (forall k, h :: IsPending(s, k, h) <==> IsPending(t, k, h))
  {
    var all := Calls(did, res);
    DelCalls(s[i], did, res);
    ClearStep(Closing(s[i].fd, res), s, i, all);
    OnlyThisLeaves(s, i);
  }

  /** fd_sync of the write slot i. */
  lemma SyncStep(s: seq<Slot>, i: nat, did: seq<Event>, res: int)
    requires Tidy(s) && i < |s| && s[i].kind == Write
    requires if s[i].fd == -1 then did == [] else Release(did, s[i].fd, s[i].kind)
    requires res == -1 <==> s[i].fd == -1 || Failing(did, s[i].fd)
    ensures var all, t := Calls(did, res), s[i := s[i].Cleared()];
            && Honest(Syncing(s[i].key, res), s, all, t) && OthersPending(s, t, Write, s[i].key)
            && (s[i].key != ZERO ==> (res == -1 <==> IsPending(s, Write, s[i].key) || AnyFails(all)))
  {
    var all := Calls(did, res);
    DelCalls(s[i], did, res);
    ClearStep(Syncing(s[i].key, res), s, i, all);
    if s[i].key != ZERO {
      OneEntry(s, i);
      assert s[i].fd == -1 ==> s[i].Pending();
    }
  }

  // -------------------------------------------------------------------- sweeps

  /** The slots a sweep closes: all open ones, or those idle at a time. */
  predicate Due(o: Slot, now: Option<int>) {
    o.Open() && (now.Some? ==> o.Idle(now.value))
  }

  /** A closed slot keeps its error if and only if a call on its descriptor failed. */
  ghost predicate Closes(o: Slot, x: Slot, did: seq<Event>) {
    && Released(did, o.fd, o.kind)
    && x == if Failing(did, o.fd) then o.(fd := -1) else o.Cleared()
  }

  /** The first n slots have been swept: those due are closed, every call was for one of them. */
  ghost predicate Swept(s: seq<Slot>, did: seq<Event>, t: seq<Slot>, now: Option<int>, n: nat) {
    && |s| == |t| && n <= |s|
    && (forall i :: 0 <= i < n && Due(s[i], now) ==> Closes(s[i], t[i], did))
    && (forall i :: 0 <= i < |s| && (i >= n || !Due(s[i], now)) ==> t[i] == s[i])
    && (forall m :: 0 <= m < |did| ==>
          !did[m].Renewed? && exists i :: 0 <= i < n && Due(s[i], now) && s[i].fd == did[m].fd)
  }

  lemma SweepNothing(s: seq<Slot>, now: Option<int>)
    ensures Swept(s, [], s, now, 0)
  {
  }

  /** Slot n is still as it was. */
  lemma SweptHere(s: seq<Slot>, did: seq<Event>, t: seq<Slot>, now: Option<int>, n: nat)
    requires Swept(s, did, t, now, n) && n < |s|
    ensures t[n] == s[n]
  {
  }

  /** A sweep passes over a slot that is not due. */
  lemma SweepPast(s: seq<Slot>, did: seq<Event>, t: seq<Slot>, now: Option<int>, n: nat)
    requires Swept(s, did, t, now, n) && n < |s| && !Due(s[n], now)
    ensures Swept(s, did, t, now, n + 1)
  {
    forall m | 0 <= m < |did|
      ensures !did[m].Renewed? && exists i :: 0 <= i < n + 1 && Due(s[i], now) && s[i].fd == did[m].fd
    {
      assert !did[m].Renewed?;
      var i :| 0 <= i < n && Due(s[i], now) && s[i].fd == did[m].fd;
      assert Due(s[i], now);
    }
  }

  /** One more slot of a sweep. */
  lemma SweepOne(s: seq<Slot>, did: seq<Event>, t: seq<Slot>, now: Option<int>, n: nat, more: seq<Event>)
    requires Tidy(s) && Swept(s, did, t, now, n) && n < |s| && Due(s[n], now)
    requires Release(more, s[n].fd, s[n].kind)
    ensures var x := if Failing(more, s[n].fd) then s[n].(fd := -1) else s[n].Cleared();
            Swept(s, did + more, t[n := x], now, n + 1)
  {
    hide Released, Failing;
    var x := if Failing(more, s[n].fd) then s[n].(fd := -1) else s[n].Cleared();
    forall m | 0 <= m < |did| ensures !did[m].On(s[n].fd) {
      assert !did[m].Renewed?;
      var i :| 0 <= i < n && Due(s[i], now) && s[i].fd == did[m].fd;
    }
    forall i | 0 <= i < n + 1 && Due(s[i], now) ensures Closes(s[i], t[n := x][i], did + more) {
      ReleaseAfter(did, more, s[n].fd, s[n].kind, s[i].fd);
      if i < n { ReleasedLonger(did, more, s[i].fd, s[i].kind); }
    }
    forall m | 0 <= m < |did + more|
      ensures !(did + more)[m].Renewed? && exists i :: 0 <= i < n + 1 && Due(s[i], now) && s[i].fd == (did + more)[m].fd
    {
      if m >= |did| {
        assert (did + more)[m] == more[m - |did|] && (did + more)[m].fd == s[n].fd;
      }
    }
  }

  /** Only descriptors that are due are called on. */
  lemma FailingIsDue(s: seq<Slot>, did: seq<Event>, t: seq<Slot>, now: Option<int>, i: nat)
    requires Tidy(s) && Swept(s, did, t, now, |s|) && i < |s| && s[i].Open() && Failing(did, s[i].fd)
    ensures Due(s[i], now)
  {
    hide Closes;
    var m :| 0 <= m < |did| && did[m].Fails(s[i].fd);
    assert !did[m].Renewed?;
    var j :| 0 <= j < |s| && Due(s[j], now) && s[j].fd == did[m].fd;
    assert j == i;
  }

  /** After a sweep, the slots with an error are those that had one or whose calls failed. */
  lemma SweptErrors(s: seq<Slot>, did: seq<Event>, t: seq<Slot>, now: Option<int>, i: nat)
    requires Tidy(s) && Swept(s, did, t, now, |s|) && i < |s|
    ensures t[i].Pending() <==> Erred(s[i], did)
    ensures t[i].Pending() ==> t[i] == s[i].(fd := -1)
  {
    hide Failing, Released, Tidy;
    if s[i].Open() && Failing(did, s[i].fd) { FailingIsDue(s, did, t, now, i); }
    if Due(s[i], now) {
      assert Closes(s[i], t[i], did);
    } else {
      assert t[i] == s[i];
    }
  }

  /** A sweep keeps every error. */
  lemma SweepStep(act: Act, s: seq<Slot>, did: seq<Event>, t: seq<Slot>, now: Option<int>)
    requires Tidy(s) && Swept(s, did, t, now, |s|)
    ensures Honest(act, s, did, t)
    ensures forall k, h :: IsPending(s, k, h) ==> IsPending(t, k, h)
  {
    hide Answered, Released;
    forall i | 0 <= i < |s|
      ensures t[i].Pending() <==> Erred(s[i], did)
      ensures t[i].Pending() ==> t[i] == s[i].(fd := -1)
    {
      SweptErrors(s, did, t, now, i);
    }
    forall k, h | IsPending(s, k, h) ensures IsPending(t, k, h) {
      var i :| 0 <= i < |s| && s[i].Pending() && s[i].IsFor(k, h);
      assert t[i].Pending() && t[i].IsFor(k, h);
    }
    forall k, h | IsPending(t, k, h) && !IsPending(s, k, h)
      ensures exists i :: 0 <= i < |s| && s[i].Open() && s[i].IsFor(k, h) && Failing(did, s[i].fd)
    {
      var i :| 0 <= i < |t| && t[i].Pending() && t[i].IsFor(k, h);
      assert Erred(s[i], did) && s[i].IsFor(k, h);
    }
    forall i, m | 0 <= i < |s| && 0 <= m < |did| && s[i].Open() && did[m].Fails(s[i].fd)
      ensures IsPending(t, s[i].kind, s[i].key)
    {
      assert Failing(did, s[i].fd);
      assert t[i].Pending() && t[i].IsFor(s[i].kind, s[i].key);
    }
  }

  lemma PurgedHoldsNothing(s: seq<Slot>, did: seq<Event>, t: seq<Slot>)
    requires Swept(s, did, t, None, |s|)
    ensures Held(t) == {}
  {
    forall i | 0 <= i < |t| ensures !t[i].Open() {
      if Due(s[i], None) { assert Closes(s[i], t[i], did); } else { assert t[i] == s[i]; }
    }
  }

  /** What is left when every error has been dropped. */
  ghost predicate AllDropped(s: seq<Slot>, t: seq<Slot>) {
    |s| == |t| && forall i :: 0 <= i < |s| ==> t[i] == if s[i].Pending() then s[i].Cleared() else s[i]
  }

  /** Dropping all errors after a sweep that found only old ones. */
  lemma DropStep(s: seq<Slot>, did: seq<Event>, mid: seq<Slot>, t: seq<Slot>, now: int, drops: seq<Event>)
    requires Tidy(s) && Swept(s, did, mid, Some(now), |s|) && AllDropped(mid, t)
    requires drops != [] && forall m :: 0 <= m < |drops| ==> drops[m] == Renewed
    requires forall i :: 0 <= i < |mid| && mid[i].Pending() ==> !mid[i].Recent(now)
    ensures Honest(Sweeping(now), s, did + drops, t)
    ensures forall i :: 0 <= i < |s| ==> (Erred(s[i], did + drops) <==> mid[i].Pending())
  {
    hide Released;
    var all := did + drops;
    forall i | 0 <= i < |s|
      ensures Erred(s[i], all) <==> mid[i].Pending()
      ensures mid[i].Pending() ==> mid[i] == s[i].(fd := -1)
    {
      SweptErrors(s, did, mid, Some(now), i);
      FailingAppend(did, drops, s[i].fd);
      NoneFails(drops, s[i].fd);
    }
    assert all[|all| - 1] == Renewed;
    forall i, m | 0 <= i < |s| && 0 <= m < |all| && s[i].Open() && all[m].Fails(s[i].fd)
      ensures Renewed in all[m + 1..]
    {
      assert m < |all| - 1;
      assert all[m + 1..][|all| - m - 2] == Renewed;
    }
    forall k, h ensures Answered(Sweeping(now), s, all, t, k, h) {
    }
    forall k, h ensures !IsPending(t, k, h) {
    }
    forall i | 0 <= i < |s| && s[i].Open() && !(t[i].Open() && t[i].fd == s[i].fd)
      ensures Released(all, s[i].fd, s[i].kind)
    {
      assert Closes(s[i], mid[i], did);
      ReleasedLonger(did, drops, s[i].fd, s[i].kind);
    }
  }
}
