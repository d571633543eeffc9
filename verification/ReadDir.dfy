/** READDIR paging (src/readdir.c) and the generation stamp of its cookies (src/daemon.c). */
module ReadDir {
  import opened Wrappers
  import opened Protocol
  import opened Xdr

  const MAX_ENTRIES: nat := 143
  const RESOK_SIZE: nat := 104
  const MAX_COUNT: nat := 4096
  const LOW: nat := 0x1_0000_0000

  /** One entry of the directory stream: its name and what lstat says about its inode. */
  datatype Dirent = Dirent(name: seq<Byte>, ino: Option<U64>)

  datatype Res = Ok(entries: seq<Entry>, eof: bool) | OpenErr | StatErr | NameErr

  // ------------------------------------------------------------------ cookies

  function Upper(c: U64): U64 { c / LOW * LOW }

  /** change_readdir_cookie: shift right, increment, shift left, in 64 bits */
  function Bump(rc: U64): U64 { (rc / LOW + 1) % LOW * LOW }

  predicate Stamp(rc: U64) { rc % LOW == 0 }

  lemma BumpStamp(rc: U64)
    ensures Stamp(Bump(rc)) && Bump(rc) / LOW == (rc / LOW + 1) % LOW
  {
  }

  /** The position a cookie stands for: a nonzero cookie with another stamp starts over. */
  function Position(cookie: U64, rc: U64): (p: nat)
    ensures p < LOW
  {
    if cookie != 0 && Upper(cookie) != rc then 0 else cookie % LOW
  }

  /** (cookie + 1 + i) | rcookie. The stamp has no low bits; a position of 2^32 or more reaches
      into its lowest bit. */
  function CookieFor(v: nat, rc: U64): U64
    requires v < 2 * LOW && Stamp(rc)
  {
    var u := rc / LOW;
    (if v >= LOW && u % 2 == 0 then u + 1 else u) * LOW + v % LOW
  }

  // --------------------------------------------------------------------- pages

  /** Outcome of the fill loop over the rest of the stream: how many entries are returned. */
  datatype Fill = Taken(n: nat) | BadStat | BadName

  function Plus(n: nat, f: Fill): Fill { if f.Taken? then Taken(f.n + n) else f }

  function FillFrom(rest: seq<Dirent>, pathLen: nat, used: nat, count: nat, i: nat): (f: Fill)
    ensures f.Taken? ==> f.n <= |rest|
  {
    if rest == [] || used >= count || i >= MAX_ENTRIES then Taken(0)
    else if pathLen + |rest[0].name| + 1 >= NFS_MAXPATHLEN then BadName
    else if rest[0].ino.None? then BadStat
    else
      var used' := used + 24 + Pad4(|rest[0].name|);
      if used' > count && i > 0 then Taken(0)
      else Plus(1, FillFrom(rest[1..], pathLen, used', count, i + 1))
  }

  /** One trip of the fill loop. */
  lemma FillStep(rest: seq<Dirent>, at: nat, pathLen: nat, used: nat, count: nat, i: nat)
    requires at < |rest| && used < count && i < MAX_ENTRIES
    ensures FillFrom(rest[at..], pathLen, used, count, i) ==
            if pathLen + |rest[at].name| + 1 >= NFS_MAXPATHLEN then BadName
            else if rest[at].ino.None? then BadStat
            else if used + 24 + Pad4(|rest[at].name|) > count && i > 0 then Taken(0)
            else Plus(1, FillFrom(rest[at + 1..], pathLen, used + 24 + Pad4(|rest[at].name|), count, i + 1))
  {
    assert rest[at..][1..] == rest[at + 1..];
  }

  lemma FillStops(rest: seq<Dirent>, pathLen: nat, used: nat, count: nat, i: nat)
    requires rest == [] || used >= count || i >= MAX_ENTRIES
    ensures FillFrom(rest, pathLen, used, count, i) == Taken(0)
  {
  }

  function Rest(dir: seq<Dirent>, p: nat): seq<Dirent> { if p <= |dir| then dir[p..] else [] }

  function Limit(count: nat): nat { if count > MAX_COUNT then MAX_COUNT else count }

  /** Entry k of a page that starts at position p. */
  function EntryAt(d: Dirent, v: nat, rc: U64): Entry
    requires d.ino.Some? && v < 2 * LOW && Stamp(rc)
  {
    Entry(d.ino.value, d.name, CookieFor(v, rc))
  }

  lemma {:induction false} FilledAreGood(rest: seq<Dirent>, pathLen: nat, used: nat, count: nat, i: nat)
    requires FillFrom(rest, pathLen, used, count, i).Taken?
    ensures forall k :: 0 <= k < FillFrom(rest, pathLen, used, count, i).n ==>
              rest[k].ino.Some? && pathLen + |rest[k].name| + 1 < NFS_MAXPATHLEN
    ensures i + FillFrom(rest, pathLen, used, count, i).n <= (if i <= MAX_ENTRIES then MAX_ENTRIES else i)
    decreases |rest|
  {
    if !(rest == [] || used >= count || i >= MAX_ENTRIES) {
      var used' := used + 24 + Pad4(|rest[0].name|);
      if !(used' > count && i > 0) {
        FilledAreGood(rest[1..], pathLen, used', count, i + 1);
        forall k | 0 < k < FillFrom(rest, pathLen, used, count, i).n
          ensures rest[k].ino.Some? && pathLen + |rest[k].name| + 1 < NFS_MAXPATHLEN
        {
          assert rest[k] == rest[1..][k - 1];
        }
      }
    }
  }

  /** The entries a page of n entries from position p holds. */
  function Entries(rest: seq<Dirent>, n: nat, p: nat, rc: U64): (es: seq<Entry>)
    requires Stamp(rc) && n <= |rest| && p + n < LOW + MAX_ENTRIES && forall k :: 0 <= k < n ==> rest[k].ino.Some?
    ensures |es| == n
  {
    seq(n, k requires 0 <= k < n => EntryAt(rest[k], p + 1 + k, rc))
  }

  /** The answer to one READDIR call on directory `dir`. */
  function Page(dir: seq<Dirent>, pathLen: nat, cookie: U64, rc: U64, count: nat): Res
    requires Stamp(rc)
  {
    var p := Position(cookie, rc);
    var rest := Rest(dir, p);
    match FillFrom(rest, pathLen, RESOK_SIZE, Limit(count), 0)
    case BadName => NameErr
    case BadStat => StatErr
    case Taken(n) =>
      FilledAreGood(rest, pathLen, RESOK_SIZE, Limit(count), 0);
      Ok(Entries(rest, n, p, rc), n == |rest|)
  }

  // ------------------------------------------------------------- the operation

  /** A slot of the static entry array; `next` is nextentry as an index. */
  datatype Cell = Cell(entry: Entry, next: Option<nat>)
  const BLANK := Cell(Entry(0, [], 0), None)

  predicate LinksForward(cells: seq<Cell>) {
    forall k :: 0 <= k < |cells| && cells[k].next.Some? ==> k < cells[k].next.value < |cells|
  }

  /** The list read off the array by following the links from slot i. */
  function Follow(cells: seq<Cell>, i: nat): seq<Entry>
    requires i < |cells| && LinksForward(cells)
    decreases |cells| - i
  {
    [cells[i].entry] + if cells[i].next.None? then [] else Follow(cells, cells[i].next.value)
  }

  lemma {:induction false} FollowRun(cells: seq<Cell>, i: nat, n: nat)
    requires i < n <= |cells| && LinksForward(cells)
    requires forall k :: i <= k < n - 1 ==> cells[k].next == Some(k + 1)
    requires cells[n - 1].next == None
    ensures |Follow(cells, i)| == n - i
    ensures forall j :: i <= j < n ==> Follow(cells, i)[j - i] == cells[j].entry
    decreases n - i
  {
    hide Follow, LinksForward;
    FollowStep(cells, i);
    if i + 1 < n {
      FollowRun(cells, i + 1, n);
      forall j | i <= j < n ensures Follow(cells, i)[j - i] == cells[j].entry {
        if j > i { assert Follow(cells, i)[j - i] == Follow(cells, i + 1)[j - (i + 1)]; }
      }
    }
  }

  lemma FollowStep(cells: seq<Cell>, i: nat)
    requires i < |cells| && LinksForward(cells)
    ensures Follow(cells, i) ==
            [cells[i].entry] + if cells[i].next.None? then [] else Follow(cells, cells[i].next.value)
  {
  }

  class Server {
    var rcookie: U64
    const cells: array<Cell>

    ghost predicate Valid()
      reads this, cells
    {
      Stamp(rcookie) && cells.Length == MAX_ENTRIES && LinksForward(cells[..])
    }

    constructor ()
      ensures Valid() && rcookie == 0 && fresh(cells)
    {
      rcookie := 0;
      cells := new Cell[MAX_ENTRIES](_ => BLANK);
    }

    /** change_readdir_cookie */
    method ChangeCookie()
      requires Valid()
      modifies this`rcookie
      ensures Valid() && rcookie == Bump(old(rcookie))
    {
      BumpStamp(rcookie);
      hide Stamp;
      var rc := rcookie / LOW;
      rc := rc + 1;
      rcookie := rc % LOW * LOW;
    }

    /** read_dir; `stream` is what opendir and readdir give, `removable` whether the path is a
        removable export point (then a failed opendir means an empty directory). */
    method Read(stream: Option<seq<Dirent>>, pathLen: nat, removable: bool, cookie: U64, count: nat) returns (res: Res)
      requires Valid()
      modifies cells
      ensures Valid()
      ensures res == if stream.Some? then Page(stream.value, pathLen, cookie, rcookie, count)
                     else if removable then Ok([], true) else OpenErr
    {
      hide Stamp, FillFrom, LinksForward;
      var start := cookie;
      if cookie != 0 && Upper(cookie) != rcookie { start := 0; }
      start := start % LOW;
      var limit := if count > MAX_COUNT then MAX_COUNT else count;
      if stream.None? { return if removable then Ok([], true) else OpenErr; }
      var dir := stream.value;
      var first := SkipEntries(dir, start);
      var rest := dir[first..];
      var listed, at, err := FillCells(rest, pathLen, start, limit);
      if err.Some? { return err.value; }
      FilledAreGood(rest, pathLen, RESOK_SIZE, limit, 0);
      assert listed == Entries(rest, |listed|, start, rcookie);
      return Ok(listed, at == |rest|);
    }

    /** The skip loop: the index of the entry it stops at, |dir| for the end of the stream. */
    method SkipEntries(dir: seq<Dirent>, start: nat) returns (at: nat)
      ensures at == if start <= |dir| then start else |dir|
    {
      at := 0;
      var i := 0;
      while i < start
        invariant 0 <= i <= start && at == if i <= |dir| then i else |dir|
      {
        if at < |dir| { at := at + 1; }
        i := i + 1;
      }
    }

    /** The fill loop over the stream after the skipped entries: the list in the static array,
        the index it stopped at, or an error. */
    method FillCells(rest: seq<Dirent>, pathLen: nat, start: nat, limit: nat)
      returns (listed: seq<Entry>, at: nat, err: Option<Res>)
      requires Valid() && start < LOW
      modifies cells
      ensures Valid()
      ensures match FillFrom(rest, pathLen, RESOK_SIZE, limit, 0)
              case BadName => err == Some(NameErr)
              case BadStat => err == Some(StatErr)
              case Taken(n) =>
                && err == None && at == n == |listed| <= MAX_ENTRIES
                && forall k :: 0 <= k < n ==> rest[k].ino.Some? && listed[k] == EntryAt(rest[k], start + 1 + k, rcookie)
    {
      hide EntryAt, Stamp, Pad4, LinksForward, Follow, FillFrom;
      at := 0;
      listed := [];
      err := None;
      var used: nat := RESOK_SIZE;
      var i: nat := 0;
      ghost var over := false;
      assert rest[0..] == rest;
      while at < |rest| && used < limit && i < MAX_ENTRIES
        invariant Valid() && at <= |rest| && i <= MAX_ENTRIES
        invariant i == at + (if over then 1 else 0) && (over ==> used > limit && at > 0)
        invariant Holds(rest, at, start)
        invariant FillFrom(rest, pathLen, RESOK_SIZE, limit, 0) ==
                  Plus(at, if over then Taken(0) else FillFrom(rest[at..], pathLen, used, limit, i))
        decreases MAX_ENTRIES - i
      {
        FillStep(rest, at, pathLen, used, limit, i);
        if pathLen + |rest[at].name| + 1 >= NFS_MAXPATHLEN { Link(i); return [], at, Some(NameErr); }
        if rest[at].ino.None? { Link(i); return [], at, Some(StatErr); }
        Store(rest, i, start);
        used := used + 24 + Pad4(|rest[at].name|);
        if used > limit && i > 0 {
          Unlink(rest, i, start);
          over := true;
        } else {
          at := at + 1;
        }
        i := i + 1;
      }
      FillStops(rest[at..], pathLen, used, limit, i);
      if i > 0 {
        FollowRun(cells[..], 0, at);
        listed := Follow(cells[..], 0);
        assert forall k :: 0 <= k < at ==> listed[k - 0] == cells[..][k].entry;
      }
    }

    /** The first n slots hold the first n entries and are linked into a list. */
    ghost predicate Holds(rest: seq<Dirent>, n: nat, start: nat)
      reads this, cells
      requires Valid() && start < LOW && n <= |rest|
    {
      && n <= MAX_ENTRIES
      && (forall k :: 0 <= k < n ==> rest[k].ino.Some? && cells[k].entry == EntryAt(rest[k], start + 1 + k, rcookie))
      && (forall k :: 0 <= k < n ==> cells[k].next == if k + 1 < n then Some(k + 1) else None)
    }

    /** entry[i - 1].nextentry = &entry[i] */
    method Link(i: nat)
      requires Valid() && i < MAX_ENTRIES
      modifies cells
      ensures Valid()
      ensures forall k :: 0 <= k < MAX_ENTRIES ==>
                cells[k] == if k + 1 == i then old(cells[k]).(next := Some(i)) else old(cells[k])
    {
      if i > 0 { cells[i - 1] := cells[i - 1].(next := Some(i)); }
    }

    /** Slot i takes the next entry and becomes the end of the list. */
    method Store(rest: seq<Dirent>, i: nat, start: nat)
      requires Valid() && start < LOW && i < MAX_ENTRIES && i < |rest| && rest[i].ino.Some? && Holds(rest, i, start)
      modifies cells
      ensures Valid() && Holds(rest, i + 1, start)
    {
      Link(i);
      cells[i] := Cell(EntryAt(rest[i], start + 1 + i, rcookie), None);
    }

    /** The entry in slot i does not fit: the list ends before it. */
    method Unlink(rest: seq<Dirent>, i: nat, start: nat)
      requires Valid() && start < LOW && 0 < i < |rest| && Holds(rest, i + 1, start)
      modifies cells
      ensures Valid() && Holds(rest, i, start)
    {
      cells[i - 1] := cells[i - 1].(next := None);
    }
  }
}
