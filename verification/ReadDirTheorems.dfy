/** What READDIR promises across calls: exact paging, restart on stale cookies, and answers
    whose accounted size is their size on the wire. */
module ReadDirTheorems {
  import opened Wrappers
  import opened Protocol
  import opened Xdr
  import opened ReadDir

  // ------------------------------------------------------------------ cookies

  /** The cookie for position p under stamp rc. */
  function CookieOf(p: nat, rc: U64): U64
    requires Stamp(rc) && p < LOW
  {
    if p == 0 then 0 else rc + p
  }

  lemma CookieParts(p: nat, rc: U64)
    requires Stamp(rc) && 0 < p < LOW
    ensures CookieFor(p, rc) == rc + p == CookieOf(p, rc)
    ensures (rc + p) / LOW == rc / LOW && (rc + p) % LOW == p && Upper(rc + p) == rc
  {
  }

  lemma PositionOf(p: nat, rc: U64)
    requires Stamp(rc) && p < LOW
    ensures Position(CookieOf(p, rc), rc) == p
  {
    if p > 0 { CookieParts(p, rc); }
  }

  function BumpN(rc: U64, n: nat): U64 {
    if n == 0 then rc else Bump(BumpN(rc, n - 1))
  }

  lemma {:induction false} BumpNStamp(rc: U64, n: nat)
    requires Stamp(rc)
    ensures Stamp(BumpN(rc, n)) && BumpN(rc, n) / LOW == (rc / LOW + n) % LOW
  {
    hide Stamp, Bump;
    if n == 0 {
      BelowLow(rc);
    } else {
      BumpNStamp(rc, n - 1);
      BumpStamp(BumpN(rc, n - 1));
      OneMore(rc / LOW + n - 1);
    }
  }

  lemma BelowLow(rc: U64)
    ensures rc / LOW % LOW == rc / LOW
  {
  }

  lemma OneMore(m: nat)
    ensures (m % LOW + 1) % LOW == (m + 1) % LOW
  {
  }

  /** A cookie issued `age` bumps ago is honoured exactly if the age is a multiple of 2^32;
      otherwise the listing starts over. */
  lemma StaleIff(rc: U64, p: nat, age: nat)
    requires Stamp(rc) && 0 < p < LOW
    ensures Position(CookieFor(p, rc), BumpN(rc, age)) == if age % LOW == 0 then p else 0
  {
    CookieParts(p, rc);
    BumpNStamp(rc, age);
    SameResidue(rc / LOW, age);
    assert BumpN(rc, age) == BumpN(rc, age) / LOW * LOW;
  }

  /** The family of failures is not empty: after 2^32 changes a cookie for position 1 is taken
      for a current one. */
  lemma OldCookieHonoured()
    ensures var rc: U64 := 5 * LOW;
            Stamp(rc) && Position(CookieFor(1, rc), BumpN(rc, LOW)) == 1
  {
    hide BumpN, CookieFor, Position;
    StaleIff(5 * LOW, 1, LOW);
  }

  lemma SameResidue(u: nat, n: nat)
    requires u < LOW
    ensures (u + n) % LOW == u <==> n % LOW == 0
  {
    assert (u + n) % LOW == (u + n % LOW) % LOW;
  }

  // -------------------------------------------------------------------- pages

  /** The entry for stream element d at position v - 1. */
  function Listed(d: Dirent, v: nat, rc: U64): Entry
    requires v < 2 * LOW && Stamp(rc)
  {
    Entry(if d.ino.Some? then d.ino.value else 0, d.name, CookieFor(v, rc))
  }

  /** The whole directory as READDIR would list it under stamp rc. */
  function All(dir: seq<Dirent>, rc: U64): (es: seq<Entry>)
    requires Stamp(rc) && |dir| < LOW
    ensures |es| == |dir|
  {
    seq(|dir|, k requires 0 <= k < |dir| => Listed(dir[k], k + 1, rc))
  }

  /** A page is the stretch of the directory that starts where the cookie points. */
  lemma PageIsStretch(dir: seq<Dirent>, pathLen: nat, cookie: U64, rc: U64, count: nat)
    requires Stamp(rc) && |dir| < LOW && Page(dir, pathLen, cookie, rc, count).Ok?
    ensures var p, res := Position(cookie, rc), Page(dir, pathLen, cookie, rc, count);
            if p <= |dir| then
              && p + |res.entries| <= |dir| && res.entries == All(dir, rc)[p..p + |res.entries|]
              && (res.eof <==> p + |res.entries| == |dir|)
            else res.entries == [] && res.eof
  {
    hide FillFrom, CookieFor, Position, Stamp, Limit;
    var p, res := Position(cookie, rc), Page(dir, pathLen, cookie, rc, count);
    var n := |res.entries|;
    FilledAreGood(Rest(dir, p), pathLen, RESOK_SIZE, Limit(count), 0);
    if p <= |dir| {
      var part := All(dir, rc)[p..p + n];
      forall k | 0 <= k < n ensures res.entries[k] == part[k] {
        assert Rest(dir, p)[k] == dir[p + k];
        assert part[k] == All(dir, rc)[p + k] == Listed(dir[p + k], p + k + 1, rc);
      }
    }
  }

  /** Every entry can be stat'ed and named. */
  ghost predicate GoodDir(dir: seq<Dirent>, pathLen: nat) {
    |dir| < LOW && forall k :: 0 <= k < |dir| ==> dir[k].ino.Some? && pathLen + |dir[k].name| + 1 < NFS_MAXPATHLEN
  }

  lemma {:induction false} GoodFill(rest: seq<Dirent>, pathLen: nat, used: nat, count: nat, i: nat)
    requires forall k :: 0 <= k < |rest| ==> rest[k].ino.Some? && pathLen + |rest[k].name| + 1 < NFS_MAXPATHLEN
    ensures FillFrom(rest, pathLen, used, count, i).Taken?
    ensures rest != [] && used < count && i == 0 ==> FillFrom(rest, pathLen, used, count, i).n > 0
    decreases |rest|
  {
    if rest != [] { GoodFill(rest[1..], pathLen, used + 24 + Pad4(|rest[0].name|), count, i + 1); }
  }

  /** With room for more than the fixed part, a page of a good directory has an entry unless
      the end is reached. */
  lemma PageProgress(dir: seq<Dirent>, pathLen: nat, cookie: U64, rc: U64, count: nat)
    requires Stamp(rc) && GoodDir(dir, pathLen) && count > RESOK_SIZE
    ensures var res := Page(dir, pathLen, cookie, rc, count);
            res.Ok? && (Position(cookie, rc) < |dir| ==> |res.entries| > 0)
  {
    hide FillFrom;
    GoodFill(Rest(dir, Position(cookie, rc)), pathLen, RESOK_SIZE, Limit(count), 0);
  }

  // ------------------------------------------------------------------- paging

  function NextCookie(cookie: U64, es: seq<Entry>): U64 {
    if es == [] then cookie else es[|es| - 1].cookie
  }

  /** A client that follows the last cookie until eof, with these counts: what it gets. */
  function Collect(dir: seq<Dirent>, pathLen: nat, rc: U64, cookie: U64, counts: seq<nat>): (seq<Entry>, bool)
    requires Stamp(rc)
    decreases |counts|
  {
    if counts == [] then ([], false)
    else
      match Page(dir, pathLen, cookie, rc, counts[0])
      case Ok(es, eof) =>
        if eof then (es, true)
        else
          var more := Collect(dir, pathLen, rc, NextCookie(cookie, es), counts[1..]);
          (es + more.0, more.1)
      case _ => ([], false)
  }

  /** Paging from position p over an unchanged directory. */
  lemma {:induction false} PagingFrom(dir: seq<Dirent>, pathLen: nat, rc: U64, p: nat, counts: seq<nat>)
    requires Stamp(rc) && GoodDir(dir, pathLen) && p <= |dir|
    requires forall i :: 0 <= i < |counts| ==> counts[i] > RESOK_SIZE
    ensures var r := Collect(dir, pathLen, rc, CookieOf(p, rc), counts);
            && p + |r.0| <= |dir| && r.0 == All(dir, rc)[p..p + |r.0|]
            && (r.1 ==> p + |r.0| == |dir|)
            && (|counts| >= 1 && |counts| >= |dir| - p ==> r.1)
    decreases |counts|
  {
    hide Page, GoodDir, Stamp, All;
    if counts != [] {
      SmallDir(dir, pathLen);
      var cookie := CookieOf(p, rc);
      PositionOf(p, rc);
      PageProgress(dir, pathLen, cookie, rc, counts[0]);
      PageIsStretch(dir, pathLen, cookie, rc, counts[0]);
      var res := Page(dir, pathLen, cookie, rc, counts[0]);
      var q := p + |res.entries|;
      if !res.eof {
        LastCookie(dir, rc, p, q);
        PagingFrom(dir, pathLen, rc, q, counts[1..]);
        var more := Collect(dir, pathLen, rc, CookieOf(q, rc), counts[1..]);
        assert All(dir, rc)[p..q] + All(dir, rc)[q..q + |more.0|] == All(dir, rc)[p..q + |more.0|];
      }
    }
  }

  lemma SmallDir(dir: seq<Dirent>, pathLen: nat)
    requires GoodDir(dir, pathLen)
    ensures |dir| < LOW
  {
  }

  /** The last cookie of a stretch points at its end. */
  lemma LastCookie(dir: seq<Dirent>, rc: U64, p: nat, q: nat)
    requires Stamp(rc) && p < q <= |dir| < LOW
    ensures All(dir, rc)[p..q][q - p - 1].cookie == CookieOf(q, rc)
  {
    CookieParts(q, rc);
  }

  /** Paging is exact: from cookie 0, with any counts above 104, the pages joined are the
      directory in order, nothing lost or repeated, and max(1, n) calls reach eof. */
  lemma PagingIsExact(dir: seq<Dirent>, pathLen: nat, rc: U64, counts: seq<nat>)
    requires Stamp(rc) && GoodDir(dir, pathLen)
    requires forall i :: 0 <= i < |counts| ==> counts[i] > RESOK_SIZE
    ensures var r := Collect(dir, pathLen, rc, 0, counts);
            && r.0 <= All(dir, rc) && (r.1 ==> r.0 == All(dir, rc))
            && (|counts| >= 1 && |counts| >= |dir| ==> r.1)
  {
    hide Collect, All;
    PagingFrom(dir, pathLen, rc, 0, counts);
  }

  // ------------------------------------------------------- changes in between

  /** A server and one client: the client's last cookie and what it got since the listing last
      started over; `age` counts the bumps since that cookie was issued. */
  datatype World = World(dir: seq<Dirent>, rc: U64, cookie: U64, got: seq<Entry>, age: nat)

  /** A change comes with a bump (REMOVE, RMDIR, RENAME); a READDIR call has a count. */
  datatype Event = Change(dir: seq<Dirent>) | Read(count: nat)

  /** The next state, and whether the client was told that it has reached the end. */
  function Next(w: World, pathLen: nat, e: Event): (r: (World, bool))
    requires Stamp(w.rc)
    ensures Stamp(r.0.rc)
  {
    BumpStamp(w.rc);
    match e
    case Change(d) => (w.(dir := d, rc := Bump(w.rc), age := w.age + 1), false)
    case Read(count) =>
      match Page(w.dir, pathLen, w.cookie, w.rc, count)
      case Ok(es, eof) =>
        var got := (if Position(w.cookie, w.rc) == 0 then [] else w.got) + es;
        (w.(got := got, cookie := NextCookie(w.cookie, es), age := if es == [] then w.age else 0), eof)
      case _ => (w, false)
  }

  /** A cookie not bumped away since stands for exactly what the client holds. */
  ghost predicate Consistent(w: World) {
    && Stamp(w.rc) && |w.dir| < LOW
    && (w.cookie != 0 ==>
          && w.cookie % LOW > 0 && (w.cookie / LOW + w.age) % LOW == w.rc / LOW
          && (w.age == 0 ==> w.cookie % LOW <= |w.dir| && w.got == All(w.dir, w.rc)[..w.cookie % LOW]))
  }

  lemma ChangeConsistent(w: World, pathLen: nat, d: seq<Dirent>)
    requires Consistent(w) && |d| < LOW
    ensures Consistent(Next(w, pathLen, Change(d)).0)
  {
    hide Stamp, All, Bump;
    BumpStamp(w.rc);
    OneMore(w.cookie / LOW + w.age);
  }

  /** While fewer than 2^32 bumps separate a cookie from its use, a stale one restarts. */
  lemma WhereItStarts(w: World)
    requires Consistent(w) && w.age < LOW
    ensures var p := Position(w.cookie, w.rc);
            && (p > 0 <==> w.cookie != 0 && w.age == 0)
            && (p > 0 ==> p == w.cookie % LOW <= |w.dir| && w.got == All(w.dir, w.rc)[..p])
  {
    hide All;
    if w.cookie != 0 {
      BelowLow(w.cookie);
      SameResidue(w.cookie / LOW, w.age);
      assert w.rc == w.rc / LOW * LOW;
    }
  }

  /** After a READDIR call the client holds the directory up to where the page ends. */
  lemma GotAfter(w: World, pathLen: nat, count: nat) returns (q: nat)
    requires Consistent(w) && w.age < LOW && Page(w.dir, pathLen, w.cookie, w.rc, count).Ok?
    ensures var p, res := Position(w.cookie, w.rc), Page(w.dir, pathLen, w.cookie, w.rc, count);
            var all := All(w.dir, w.rc);
            && q == p + |res.entries| <= |w.dir| && (res.eof <==> q == |w.dir|)
            && res.entries == all[p..q] && (if p == 0 then [] else w.got) + res.entries == all[..q]
  {
    hide Page, All, CookieFor, Bump, Stamp, Position, Upper;
    var p, res := Position(w.cookie, w.rc), Page(w.dir, pathLen, w.cookie, w.rc, count);
    WhereItStarts(w);
    PageIsStretch(w.dir, pathLen, w.cookie, w.rc, count);
    q := p + |res.entries|;
    var all := All(w.dir, w.rc);
    assert all[..p] + all[p..q] == all[..q];
  }

  /** A cookie just issued stands for what has been read. */
  lemma JustIssued(dir: seq<Dirent>, rc: U64, q: nat)
    requires Stamp(rc) && 0 < q <= |dir| < LOW
    ensures Consistent(World(dir, rc, CookieOf(q, rc), All(dir, rc)[..q], 0))
  {
    hide All, Stamp;
    CookieParts(q, rc);
    BelowLow(rc);
  }

  /** An empty page changes nothing: without a current cookie, what the client holds does not matter. */
  lemma NothingRead(w: World)
    requires Consistent(w) && w.age < LOW
    ensures Consistent(w.(got := if Position(w.cookie, w.rc) == 0 then [] else w.got))
  {
    hide All, Position;
    WhereItStarts(w);
  }

  lemma ConsistentFits(w: World)
    requires Consistent(w)
    ensures |w.dir| < LOW && Stamp(w.rc)
  {
  }

  /** Reading keeps the invariant, and at eof the client holds the whole current directory. */
  lemma ReadConsistent(w: World, pathLen: nat, count: nat)
    requires Consistent(w) && w.age < LOW
    ensures var r := Next(w, pathLen, Read(count));
            Consistent(r.0) && (r.1 ==> r.0.got == All(r.0.dir, r.0.rc))
  {
    hide Page, All, CookieFor, CookieOf, Bump, Stamp, Position, Upper, Consistent;
    ConsistentFits(w);
    var res := Page(w.dir, pathLen, w.cookie, w.rc, count);
    if res.Ok? {
      var q := GotAfter(w, pathLen, count);
      var p, all := Position(w.cookie, w.rc), All(w.dir, w.rc);
      assert all[..|w.dir|] == all;
      if res.entries != [] {
        LastCookie(w.dir, w.rc, p, q);
        JustIssued(w.dir, w.rc, q);
      } else {
        var held := if p == 0 then [] else w.got;
        assert held + [] == held;
        assert Next(w, pathLen, Read(count)).0 == w.(got := held);
        NothingRead(w);
      }
    }
  }

  /** At every READDIR of a run, the cookie presented is less than 2^32 bumps old; directories
      stay below 2^32 entries. */
  ghost predicate Fresh(w: World, pathLen: nat, events: seq<Event>)
    requires Stamp(w.rc)
    decreases |events|
  {
    events != [] ==>
      && (if events[0].Change? then |events[0].dir| < LOW else w.age < LOW)
      && Fresh(Next(w, pathLen, events[0]).0, pathLen, events[1..])
  }

  /** Whenever eof is reported in a run, the entries since the last restart are the whole
      directory as it then is. */
  ghost predicate WholeAtEof(w: World, pathLen: nat, events: seq<Event>)
    requires Stamp(w.rc)
    decreases |events|
  {
    events != [] ==>
      var r := Next(w, pathLen, events[0]);
      && |r.0.dir| < LOW
      && (r.1 ==> r.0.got == All(r.0.dir, r.0.rc))
      && WholeAtEof(r.0, pathLen, events[1..])
  }

  /** Any interleaving of changes that bump the stamp with READDIR calls. */
  lemma {:induction false} RunIsWhole(w: World, pathLen: nat, events: seq<Event>)
    requires Consistent(w) && Fresh(w, pathLen, events)
    ensures WholeAtEof(w, pathLen, events)
    decreases |events|
  {
    if events != [] {
      if events[0].Change? {
        ChangeConsistent(w, pathLen, events[0].dir);
      } else {
        ReadConsistent(w, pathLen, events[0].count);
      }
      hide Next, All;
      RunIsWhole(Next(w, pathLen, events[0]).0, pathLen, events[1..]);
    }
  }

  // --------------------------------------------------------------------- sizes

  lemma {:induction false} FillSize(rest: seq<Dirent>, pathLen: nat, used: nat, count: nat, i: nat)
    requires FillFrom(rest, pathLen, used, count, i).Taken?
    ensures var n := FillFrom(rest, pathLen, used, count, i).n;
            && n <= |rest|
            && (n > (if i == 0 then 1 else 0) ==> used + StreamSize(rest[..n]) <= count)
    decreases |rest|
  {
    hide Pad4;
    var n := FillFrom(rest, pathLen, used, count, i).n;
    if n > 0 {
      var used' := used + 24 + Pad4(|rest[0].name|);
      FillSize(rest[1..], pathLen, used', count, i + 1);
      assert rest[..n][0] == rest[0] && rest[..n][1..] == rest[1..][..n - 1];
      if n == 1 { assert StreamSize(rest[1..][..0]) == 0; }
    }
  }

  function StreamSize(ds: seq<Dirent>): nat {
    if ds == [] then 0 else 24 + Pad4(|ds[0].name|) + StreamSize(ds[1..])
  }

  lemma {:induction false} SizesAgree(ds: seq<Dirent>, es: seq<Entry>)
    requires |ds| == |es| && forall k :: 0 <= k < |ds| ==> es[k].name == ds[k].name
    ensures ListSize(es) == StreamSize(ds)
  {
    if ds != [] { SizesAgree(ds[1..], es[1..]); }
  }

  lemma {:induction false} ManyEntries(ds: seq<Dirent>)
    requires forall k :: 0 <= k < |ds| ==> ds[k].name != []
    ensures StreamSize(ds) >= 28 * |ds|
  {
    if ds != [] { ManyEntries(ds[1..]); }
  }

  /** Why the fill loop stops before the end of the stream. */
  lemma {:induction false} FillIsFull(rest: seq<Dirent>, pathLen: nat, used: nat, count: nat, i: nat)
    requires FillFrom(rest, pathLen, used, count, i).Taken? && FillFrom(rest, pathLen, used, count, i).n < |rest|
    ensures var n := FillFrom(rest, pathLen, used, count, i).n;
            || i + n >= MAX_ENTRIES || used + StreamSize(rest[..n]) >= count
            || (i + n > 0 && used + StreamSize(rest[..n]) + 24 + Pad4(|rest[n].name|) > count)
    decreases |rest|
  {
    var n := FillFrom(rest, pathLen, used, count, i).n;
    if n > 0 {
      FillIsFull(rest[1..], pathLen, used + 24 + Pad4(|rest[0].name|), count, i + 1);
      assert rest[..n][1..] == rest[1..][..n - 1];
    }
  }

  /** A page that does not reach the end has no room for the next entry, or has 143. */
  lemma PageIsFull(dir: seq<Dirent>, pathLen: nat, cookie: U64, rc: U64, count: nat)
    requires Stamp(rc) && Page(dir, pathLen, cookie, rc, count).Ok? && !Page(dir, pathLen, cookie, rc, count).eof
    ensures var res := Page(dir, pathLen, cookie, rc, count);
            var next := Position(cookie, rc) + |res.entries|;
            && next < |dir|
            && (|res.entries| >= MAX_ENTRIES || 104 + ListSize(res.entries) >= Limit(count)
                || (res.entries != [] && 104 + ListSize(res.entries) + 24 + Pad4(|dir[next].name|) > Limit(count)))
  {
    hide FillFrom, ListSize, StreamSize, Pad4, CookieFor, Position;
    var res := Page(dir, pathLen, cookie, rc, count);
    var rest, n := Rest(dir, Position(cookie, rc)), |res.entries|;
    FilledAreGood(rest, pathLen, RESOK_SIZE, Limit(count), 0);
    FillIsFull(rest, pathLen, RESOK_SIZE, Limit(count), 0);
    SizesAgree(rest[..n], res.entries);
  }

  /** Where the fill loop gives up: at the first entry that is too long to name or cannot be
      stat'ed, if there was room for it. */
  lemma {:induction false} FillFails(rest: seq<Dirent>, pathLen: nat, used: nat, count: nat, i: nat) returns (n: nat)
    requires !FillFrom(rest, pathLen, used, count, i).Taken?
    ensures n < |rest| && i + n < MAX_ENTRIES && used + StreamSize(rest[..n]) < count
    ensures forall k :: 0 <= k < n ==> rest[k].ino.Some? && pathLen + |rest[k].name| + 1 < NFS_MAXPATHLEN
    ensures FillFrom(rest, pathLen, used, count, i) ==
            if pathLen + |rest[n].name| + 1 >= NFS_MAXPATHLEN then BadName else BadStat
    ensures pathLen + |rest[n].name| + 1 >= NFS_MAXPATHLEN || rest[n].ino.None?
    decreases |rest|
  {
    if pathLen + |rest[0].name| + 1 >= NFS_MAXPATHLEN || rest[0].ino.None? {
      n := 0;
    } else {
      n := FillFails(rest[1..], pathLen, used + 24 + Pad4(|rest[0].name|), count, i + 1);
      n := n + 1;
      assert rest[..n][1..] == rest[1..][..n - 1];
    }
  }

  /** READDIR fails exactly at an entry that does: the error tells which way. */
  lemma PageFails(dir: seq<Dirent>, pathLen: nat, cookie: U64, rc: U64, count: nat) returns (at: nat)
    requires Stamp(rc) && !Page(dir, pathLen, cookie, rc, count).Ok?
    ensures Position(cookie, rc) <= at < |dir|
    ensures pathLen + |dir[at].name| + 1 >= NFS_MAXPATHLEN || dir[at].ino.None?
    ensures Page(dir, pathLen, cookie, rc, count) ==
            if pathLen + |dir[at].name| + 1 >= NFS_MAXPATHLEN then NameErr else StatErr
    ensures forall k :: Position(cookie, rc) <= k < at ==>
              dir[k].ino.Some? && pathLen + |dir[k].name| + 1 < NFS_MAXPATHLEN
  {
    hide FillFrom, StreamSize, Position;
    var p := Position(cookie, rc);
    var n := FillFails(Rest(dir, p), pathLen, RESOK_SIZE, Limit(count), 0);
    at := p + n;
    assert forall k :: 0 <= k <= n ==> Rest(dir, p)[k] == dir[p + k];
    forall k | p <= k < at ensures dir[k].ino.Some? && pathLen + |dir[k].name| + 1 < NFS_MAXPATHLEN {
      assert Rest(dir, p)[k - p] == dir[k];
    }
  }

  /** The accounted size of an answer is its size on the wire; with more than one entry it
      respects the client's count and the 4096 byte limit; nonempty names never fill the
      143 slots. */
  lemma AnswerSize(dir: seq<Dirent>, pathLen: nat, cookie: U64, rc: U64, count: nat, attr: Fattr, verf: seq<Byte>)
    requires Stamp(rc) && |verf| == VERFSIZE && Page(dir, pathLen, cookie, rc, count).Ok?
    ensures var res := Page(dir, pathLen, cookie, rc, count);
            && ValidList(res.entries)
            && |EncResok(Some(attr), verf, res.entries, res.eof)| == RESOK_SIZE + ListSize(res.entries)
            && (|res.entries| > 1 ==> 104 + ListSize(res.entries) <= count && 104 + ListSize(res.entries) <= 4096)
            && |res.entries| <= MAX_ENTRIES
            && ((forall k :: 0 <= k < |dir| ==> dir[k].name != []) ==> |res.entries| < MAX_ENTRIES)
  {
    hide FillFrom, EncResok, ListSize, StreamSize, Pad4, CookieFor;
    var res := Page(dir, pathLen, cookie, rc, count);
    var rest, n := Rest(dir, Position(cookie, rc)), |res.entries|;
    FilledAreGood(rest, pathLen, RESOK_SIZE, Limit(count), 0);
    FillSize(rest, pathLen, RESOK_SIZE, Limit(count), 0);
    SizesAgree(rest[..n], res.entries);
    ResokSize(Some(attr), verf, res.entries, res.eof);
    if forall k :: 0 <= k < |dir| ==> dir[k].name != [] { ManyEntries(rest[..n]); }
  }
}
