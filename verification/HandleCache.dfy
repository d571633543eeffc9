/** The file handle cache (src/fh_cache.c): 4096 slots replaced least recently used first,
    in front of the search and the brute-force fallback. The file system may change in any
    way between calls, so cached paths may be stale. */
module HandleCache {
  import opened Wrappers
  import opened Protocol
  import opened FileSystem
  import opened FileHandle
  import opened HandleTheorems
  import Locate

  const CACHE_ENTRIES: nat := 4096
  const UINT_MODULUS: nat := 0x1_0000_0000

  /** A slot is blank when its key is zero; `use` is the pseudo-time of its last use. */
  datatype Slot = Slot(dev: nat, ino: bv64, path: string, use: nat) {
    predicate Holds(d: nat, i: bv64) { dev == d && ino == i }
    predicate Blank() { Holds(0, 0) }
  }

  const EMPTY := Slot(0, 0, "", 0)

  /** Tick of the last access to slot `i` in a history with one slot per tick; 0 if never. */
  function LastTick(history: seq<nat>, i: nat): (t: nat)
    ensures t <= |history| && (t > 0 ==> history[t - 1] == i)
    ensures forall k :: t <= k < |history| ==> history[k] != i
  {
    if history == [] then 0
    else if history[|history| - 1] == i then |history|
    else LastTick(history[..|history| - 1], i)
  }

  lemma LastTickSnoc(history: seq<nat>, j: nat, i: nat)
    ensures LastTick(history + [j], i) == if i == j then |history| + 1 else LastTick(history, i)
  {
    assert (history + [j])[..|history|] == history;
  }

  /** No two slots share a nonzero key. */
  ghost predicate DistinctKeys(s: seq<Slot>) {
    forall i, j :: 0 <= i < j < |s| && s[i].Holds(s[j].dev, s[j].ino) ==> s[i].Blank()
  }

  /** While the table is not full, the slots from `max` on are blank. */
  ghost predicate BlankFrom(s: seq<Slot>, max: nat) {
    max < CACHE_ENTRIES - 1 ==> forall i :: max <= i < |s| ==> s[i].Blank()
  }

  /** Before the clock wraps, `use` is the tick of the slot's last access, and zero only in a blank slot. */
  ghost predicate UseIsTick(s: seq<Slot>, history: seq<nat>) {
    |history| < UINT_MODULUS ==>
      forall i :: 0 <= i < |s| ==> if s[i].use == 0 then s[i].Blank() else s[i].use == LastTick(history, i)
  }

  /** Before the clock wraps, slot `idx` is blank or the least recently accessed but for `last`. */
  ghost predicate LeastRecent(s: seq<Slot>, history: seq<nat>, last: int, idx: nat)
    requires idx < |s|
  {
    |history| < UINT_MODULUS && !s[idx].Blank() ==>
      forall j :: 0 <= j < |s| && j != last ==> LastTick(history, idx) <= LastTick(history, j)
  }

  /** The path a slot remembers for a key now names that object. */
  predicate Current(fs: Fs, s: Slot, dev: nat, ino: bv64) {
    && s.Holds(dev, ino)
    && var now := fs.lstat(s.path);
       now.Some? && now.value.dev == dev && now.value.ino == ino
  }

  lemma TouchKeepsKeys(s: seq<Slot>, max: nat, idx: nat, entry: Slot)
    requires idx < |s| && DistinctKeys(s) && BlankFrom(s, max)
    requires max < CACHE_ENTRIES - 1 && idx >= max ==> entry.Blank()
    requires entry.Blank() || forall j :: 0 <= j < |s| && j != idx ==> !s[j].Holds(entry.dev, entry.ino)
    ensures DistinctKeys(s[idx := entry]) && BlankFrom(s[idx := entry], max)
  {
  }

  lemma TouchKeepsTicks(s: seq<Slot>, history: seq<nat>, idx: nat, entry: Slot)
    requires idx < |s| && UseIsTick(s, history)
    requires |history| + 1 < UINT_MODULUS ==> entry.use == |history| + 1
    ensures UseIsTick(s[idx := entry], history + [idx])
  {
    forall i: nat | i < |s|
      ensures LastTick(history + [idx], i) == if i == idx then |history| + 1 else LastTick(history, i)
    {
      LastTickSnoc(history, idx, i);
    }
  }

  /** Some slot remembers a path that still names the object. */
  ghost predicate Known(fs: Fs, s: seq<Slot>, dev: nat, ino: bv64) {
    exists j :: 0 <= j < |s| && Current(fs, s[j], dev, ino)
  }

  /** Only a slot with the key, if there is one, has been emptied. */
  ghost predicate Forgotten(s: seq<Slot>, t: seq<Slot>, dev: nat, ino: bv64) {
    if exists j :: 0 <= j < |s| && s[j].Holds(dev, ino)
    then exists j :: 0 <= j < |s| && s[j].Holds(dev, ino) && t == s[j := EMPTY]
    else t == s
  }

  lemma NoneKnown(fs: Fs, s: seq<Slot>, dev: nat, ino: bv64)
    requires forall j :: 0 <= j < |s| ==> !s[j].Holds(dev, ino)
    ensures !Known(fs, s, dev, ino) && Forgotten(s, s, dev, ino)
  {
  }

  /** What slot i, holding the key, says about the whole table. */
  lemma HeldKey(fs: Fs, s: seq<Slot>, max: nat, i: nat, dev: nat, ino: bv64)
    requires |s| == CACHE_ENTRIES && i < |s| && s[i].Holds(dev, ino) && Posix(fs)
    requires DistinctKeys(s) && BlankFrom(s, max)
    ensures Known(fs, s, dev, ino) <==> Current(fs, s[i], dev, ino)
    ensures Forgotten(s, s[i := EMPTY], dev, ino)
    ensures Current(fs, s[i], dev, ino) ==> dev != 0 || ino != 0
    ensures dev != 0 || ino != 0 ==>
              && (forall j :: 0 <= j < |s| && j != i ==> !s[j].Holds(dev, ino))
              && (max < CACHE_ENTRIES - 1 ==> i < max)
  {
  }

  class Cache {
    const slots: array<Slot>
    var max: nat
    var time: nat
    var last: int
    const sc: StatCache
    ghost var history: seq<nat>

    ghost predicate Valid()
      reads this, slots
    {
      && slots.Length == CACHE_ENTRIES && max <= CACHE_ENTRIES - 1
      && -1 <= last < (if max < CACHE_ENTRIES - 1 then max else CACHE_ENTRIES)
      && (forall i :: 0 <= i < slots.Length ==> slots[i].use < UINT_MODULUS)
      && time == |history| % UINT_MODULUS
      && DistinctKeys(slots[..]) && BlankFrom(slots[..], max) && UseIsTick(slots[..], history)
    }

    ghost predicate Cached(dev: nat, ino: bv64, path: string)
      reads slots
    {
      exists i :: 0 <= i < slots.Length && slots[i].Holds(dev, ino) && slots[i].path == path
    }

    /** The path was entered for the key in one slot of table `s`, as the access after `before`. */
    ghost predicate Entered(s: seq<Slot>, before: seq<nat>, dev: nat, ino: bv64, path: string)
      reads this, slots
    {
      exists i :: 0 <= i < |s| && slots[..] == s[i := Slot(dev, ino, path, time)] && history == before + [i]
    }

    /** The access after `before` found the path in slot `last` of table `s`, still right. */
    ghost predicate Found(fs: Fs, s: seq<Slot>, before: seq<nat>, dev: nat, ino: bv64, path: string)
      reads this, slots
    {
      && 0 <= last < |s| && Current(fs, s[last], dev, ino) && s[last].path == path
      && slots[..] == s[last := s[last].(use := time)] && history == before + [last]
    }

    constructor (s: StatCache)
      ensures Valid() && fresh(slots) && sc == s && last == -1 && max == 0
      ensures forall i :: 0 <= i < slots.Length ==> slots[i] == EMPTY
    {
      slots := new Slot[CACHE_ENTRIES](_ => EMPTY);
      max, time, last, sc, history := 0, 0, -1, s, [];
    }

    /** fh_cache_lru: the next slot while the table is not full, otherwise a slot of least
        `use` among all but the last returned entry, whatever the `use` values are. */
    method Lru() returns (idx: nat)
      requires Valid()
      modifies this`max
      ensures Valid() && idx < CACHE_ENTRIES && idx != last
      ensures old(max) < CACHE_ENTRIES - 1 ==> idx == old(max) && max == old(max) + 1 && slots[idx].Blank()
      ensures old(max) == CACHE_ENTRIES - 1 ==>
                && max == old(max)
                && (forall j :: 0 <= j < CACHE_ENTRIES && j != last ==> slots[idx].use <= slots[j].use)
                && LeastRecent(slots[..], history, last, idx)
    {
      if max < CACHE_ENTRIES - 1 {
        idx := max;
        max := max + 1;
        return;
      }
      var best := UINT_MODULUS - 1;
      idx := 0;
      var i := 0;
      while i < CACHE_ENTRIES
        invariant 0 <= i <= CACHE_ENTRIES && idx < CACHE_ENTRIES
        invariant forall j :: 0 <= j < i && j != last ==> best <= slots[j].use && slots[j].use != 0
        invariant if best == UINT_MODULUS - 1 then idx == 0 else idx < i && idx != last && slots[idx].use == best
      {
        if i != last {
          if slots[i].use == 0 { return i; }
          if slots[i].use < best {
            best, idx := slots[i].use, i;
          }
        }
        i := i + 1;
      }
      if idx == 0 && last == 0 { idx := 1; }
    }

    /** fh_cache_inval */
    method Inval(idx: nat)
      requires Valid() && idx < CACHE_ENTRIES
      modifies slots
      ensures Valid() && slots[..] == old(slots[..])[idx := slots[idx]]
      ensures slots[idx] == EMPTY
    {
      slots[idx] := slots[idx].(dev := 0, ino := 0, use := 0, path := "");
      assert slots[..] == old(slots[..])[idx := slots[idx]];
    }

    /** fh_cache_index: scanning 0..max finds a key exactly when some slot of the table holds it. */
    method Index(dev: nat, ino: bv64) returns (res: int)
      requires Valid()
      ensures -1 <= res < CACHE_ENTRIES
      ensures res == -1 <==> forall j :: 0 <= j < CACHE_ENTRIES ==> !slots[j].Holds(dev, ino)
      ensures res >= 0 ==> slots[res].Holds(dev, ino)
    {
      var i := 0;
      while i < max + 1
        invariant 0 <= i <= max + 1
        invariant forall j :: 0 <= j < i ==> !slots[j].Holds(dev, ino)
      {
        if slots[i].Holds(dev, ino) { return i; }
        i := i + 1;
      }
      if max < CACHE_ENTRIES - 1 {
        assert slots[..][max].Blank();
        forall j | 0 <= j < CACHE_ENTRIES ensures !slots[j].Holds(dev, ino) {
          if j > max { assert slots[..][j].Blank(); }
        }
      }
      return -1;
    }

    /** One tick of the pseudo clock, spent on slot `idx` holding `s`. */
    method Touch(idx: nat, s: Slot)
      requires Valid() && idx < CACHE_ENTRIES
      requires max < CACHE_ENTRIES - 1 && idx >= max ==> s.Blank()
      requires s.Blank() || forall j :: 0 <= j < CACHE_ENTRIES && j != idx ==> !slots[j].Holds(s.dev, s.ino)
      modifies slots, this`time, this`history
      ensures Valid() && history == old(history) + [idx]
      ensures slots[..] == old(slots[..])[idx := s.(use := time)]
    {
      hide DistinctKeys, BlankFrom, UseIsTick;
      time := (time + 1) % UINT_MODULUS;
      ghost var before := slots[..];
      TouchKeepsKeys(before, max, idx, s.(use := time));
      TouchKeepsTicks(before, history, idx, s.(use := time));
      history := history + [idx];
      slots[idx] := s.(use := time);
      assert slots[..] == before[idx := s.(use := time)];
    }

    /** fh_cache_add: the entry is stored, nothing else changes, and the last returned entry
        is not disturbed by entries for other keys. */
    method Add(dev: nat, ino: bv64, path: string) returns (idx: nat)
      requires Valid() && |path| < NFS_MAXPATHLEN
      modifies slots, this`max, this`time, this`history
      ensures Valid() && idx < CACHE_ENTRIES
      ensures slots[..] == old(slots[..])[idx := Slot(dev, ino, path, time)] && history == old(history) + [idx]
      ensures last >= 0 && !old(slots[last]).Holds(dev, ino) ==> slots[last] == old(slots[last])
      ensures var s := old(slots[..]);
              if exists j :: 0 <= j < CACHE_ENTRIES && s[j].Holds(dev, ino) then s[idx].Holds(dev, ino)
              else if old(max) < CACHE_ENTRIES - 1 then idx == old(max) && s[idx].Blank()
              else && idx != last && LeastRecent(s, old(history), last, idx)
                   && forall j :: 0 <= j < CACHE_ENTRIES && j != last ==> s[idx].use <= s[j].use
    {
      var i := Index(dev, ino);
      if i == -1 {
        idx := Lru();
      } else {
        idx := i;
      }
      Touch(idx, Slot(dev, ino, path, 0));
    }

    /** fh_cache_lookup: hits exactly when a slot remembers a path that now names the object.
        A hit stamps that slot; a miss blanks the slot of the key, if there is one. */
    method Lookup(fs: Fs, dev: nat, ino: bv64) returns (result: Option<string>)
      requires Valid() && Posix(fs)
      modifies slots, this`time, this`history, this`last, sc
      ensures Valid()
      ensures result.Some? <==> Known(fs, old(slots[..]), dev, ino)
      ensures result.Some? ==>
                && Found(fs, old(slots[..]), old(history), dev, ino, result.value) && (dev != 0 || ino != 0)
                && sc.valid && fs.lstat(result.value) == Some(sc.stat)
      ensures result.None? ==>
                && last == old(last) && history == old(history) && sc.valid == old(sc.valid) && sc.stat == old(sc.stat)
                && Forgotten(old(slots[..]), slots[..], dev, ino)
                && ((dev != 0 || ino != 0) ==> forall j :: 0 <= j < CACHE_ENTRIES ==> !slots[j].Holds(dev, ino))
    {
      hide DistinctKeys, BlankFrom, UseIsTick, Posix, Known, Forgotten;
      var i := Index(dev, ino);
      ghost var before := slots[..];
      if i == -1 {
        assert forall j :: 0 <= j < CACHE_ENTRIES ==> before[j] == slots[j];
        NoneKnown(fs, before, dev, ino);
        return None;
      }
      assert before[i] == slots[i];
      HeldKey(fs, before, max, i, dev, ino);
      var res := fs.lstat(slots[i].path);
      if res.None? {
        Inval(i);
        return None;
      }
      if res.value.dev == dev && res.value.ino == ino {
        assert forall j :: 0 <= j < CACHE_ENTRIES ==> before[j] == slots[j];
        Touch(i, slots[i]);
        sc.valid, sc.stat, last := true, res.value, i;
        assert slots[i] == slots[..][i];
        return Some(slots[i].path);
      }
      Inval(i);
      return None;
    }

    /** fh_decomp, with the mount table, the brute-force option and export_point_from_fsid as
        parameters. `named` says that the handle names a removable export point. */
    method Decomp(fs: Fs, fh: Handle, dataLen: nat, word: nat, exportOf: nat -> Option<string>,
                  mounts: seq<string>, bruteForce: bool)
      returns (result: Option<string>)
      requires Valid() && Posix(fs)
      modifies slots, this`max, this`time, this`history, this`last, sc
      ensures Valid()
      ensures !NfhValid(dataLen, fh, word) ==>
                result.None? && !sc.valid && slots[..] == old(slots[..]) && history == old(history)
      ensures NfhValid(dataLen, fh, word) ==>
                var named := exportOf(fh.dev).Some? && fh.ino == 1;
                && (named ==> result == exportOf(fh.dev) && sc.valid && sc.stat.dev == fh.dev && sc.stat.ino == 1)
                && (!named && fh.inos == [] ==> result.Some?)
                && (!named && fh.inos == [] && !Known(fs, old(slots[..]), fh.dev, fh.ino) ==> result == Some("/"))
                && (!named && fh.inos != [] ==> Refines(fs, fh, mounts, bruteForce, result, sc.valid, sc.stat))
                && (!named && result.Some? ==> Cached(fh.dev, fh.ino, result.value))
                && (named ==> slots[..] == old(slots[..]) && history == old(history))
                && (!named && Known(fs, old(slots[..]), fh.dev, fh.ino) ==>
                      result.Some? && Found(fs, old(slots[..]), old(history), fh.dev, fh.ino, result.value))
                && (!named && !Known(fs, old(slots[..]), fh.dev, fh.ino) ==>
                      exists mid ::
                        && Forgotten(old(slots[..]), mid, fh.dev, fh.ino)
                        && if result.None? then slots[..] == mid && history == old(history)
                           else Entered(mid, old(history), fh.dev, fh.ino, result.value))
    {
      hide Posix, Search, DistinctKeys, BlankFrom, UseIsTick, Locate.File, Locate.MountOf;
      if !NfhValid(dataLen, fh, word) {
        sc.valid := false;
        return None;
      }
      result := exportOf(fh.dev);
      if result.Some? && fh.ino == 1 {
        sc.valid, sc.stat := true, sc.stat.(dev := fh.dev, ino := 1);
        return;
      }
      result := Lookup(fs, fh.dev, fh.ino);
      if result.Some? {
        assert slots[last] == slots[..][last];
        return;
      }
      ghost var mid := slots[..];
      result := ResolveMiss(fs, fh, mounts, bruteForce);
      assert Forgotten(old(slots[..]), mid, fh.dev, fh.ino);
    }

    /** fh_decomp after a cache miss: the hashed search, then the brute-force one. */
    method ResolveMiss(fs: Fs, fh: Handle, mounts: seq<string>, bruteForce: bool) returns (result: Option<string>)
      requires Valid() && Posix(fs)
      modifies slots, this`max, this`time, this`history, sc
      ensures Valid()
      ensures if fh.inos == [] then result == Some("/")
              else Refines(fs, fh, mounts, bruteForce, result, sc.valid, sc.stat)
      ensures if result.None? then slots[..] == old(slots[..]) && history == old(history)
              else && Entered(old(slots[..]), old(history), fh.dev, fh.ino, result.value)
                   && Cached(fh.dev, fh.ino, result.value)
    {
      hide Posix, DistinctKeys, BlankFrom, UseIsTick, LeastRecent, Refines;
      result := HardWay(fs, fh, mounts, bruteForce, sc);
      if result.None? { return; }
      var idx := Add(fh.dev, fh.ino, result.value);
      result := Some(slots[idx].path);
      assert slots[idx] == slots[..][idx];
    }

    /** fh_comp: the composed handle with the export's password hash, entered in the cache if valid. */
    method Comp(fs: Fs, path: string, exp: ExportCheck, needDir: bool, pwhash: nat) returns (fh: Handle)
      requires Valid() && Posix(fs) && |path| < NFS_MAXPATHLEN
      modifies slots, this`max, this`time, this`history
      ensures Valid() && fh == CompRaw(fs, path, exp, needDir).(pwhash := pwhash)
      ensures FhValid(fh) ==>
                Cached(fh.dev, fh.ino, path) && Entered(old(slots[..]), old(history), fh.dev, fh.ino, path)
      ensures !FhValid(fh) ==> slots[..] == old(slots[..]) && history == old(history)
      ensures last >= 0 && !old(slots[last]).Holds(fh.dev, fh.ino) ==> slots[last] == old(slots[last])
    {
      fh := FhCompRaw(fs, path, exp, needDir);
      if FhValid(fh) {
        var idx := Add(fh.dev, fh.ino, path);
        assert slots[..][idx] == slots[idx];
      }
      fh := fh.(pwhash := pwhash);
    }

    /** The entry of the last successful lookup survives any number of additions for other
        keys, also across a wrap of the clock. */
    method AddOthers(items: seq<(nat, bv64, string)>)
      requires Valid() && last >= 0
      requires forall k :: 0 <= k < |items| ==>
                 |items[k].2| < NFS_MAXPATHLEN && !slots[last].Holds(items[k].0, items[k].1)
      modifies slots, this`max, this`time, this`history
      ensures Valid() && slots[last] == old(slots[last])
    {
      var k := 0;
      while k < |items|
        invariant 0 <= k <= |items| && Valid() && slots[last] == old(slots[last])
      {
        var idx := Add(items[k].0, items[k].1, items[k].2);
        k := k + 1;
      }
    }
  }

  /** Cached resolution against the raw one: a path that now names the handle's object, with
      its stat cached, or NULL with the stat cache invalid - and then neither the hashed
      search nor the brute-force one finds anything. For the invalid handle (device and inode
      zero) the path is one that cannot be stat'ed. */
  ghost predicate Refines(fs: Fs, fh: Handle, mounts: seq<string>, bruteForce: bool,
                          result: Option<string>, valid: bool, stat: Stat)
    requires fh.inos != []
  {
    match result
    case None =>
      && !valid && DecompRaw(fs, fh) == None
      && Locate.File(fs, mounts, bruteForce, fh.dev, fh.ino) == None
    case Some(path) =>
      && valid
      && if FhValid(fh) then fs.lstat(path) == Some(stat) && Matches(fh, stat) else fs.lstat(path) == None
  }

  /** The two searches, and the stat cache they leave. */
  method HardWay(fs: Fs, fh: Handle, mounts: seq<string>, bruteForce: bool, sc: StatCache)
    returns (result: Option<string>)
    requires Posix(fs)
    modifies sc
    ensures if fh.inos == [] then result == Some("/")
            else Refines(fs, fh, mounts, bruteForce, result, sc.valid, sc.stat)
    ensures result.Some? ==> |result.value| <= NFS_MAXPATHLEN - 2
  {
    hide Posix, Search, Locate.File, Locate.MountOf;
    result := FhDecompRaw(fs, fh, sc);
    if fh.inos != [] { DecompRawSound(fs, fh); }
    if result.None? {
      result := Locate.LocateFile(fs, mounts, bruteForce, fh.dev, fh.ino, sc);
      FallbackSound(fs, mounts, bruteForce, fh.dev, fh.ino);
    }
    if result.None? { sc.valid := false; }
  }

  lemma FallbackSound(fs: Fs, mounts: seq<string>, bruteForce: bool, dev: nat, ino: bv64)
    requires Posix(fs)
    ensures var r := Locate.File(fs, mounts, bruteForce, dev, ino);
            r.Some? ==> && fs.lstat(r.value.path) == Some(r.value.stat)
                        && r.value.stat.dev == dev && r.value.stat.ino == ino
                        && (dev != 0 || ino != 0) && |r.value.path| <= NFS_MAXPATHLEN - 2
  {
    var mount := if bruteForce then Locate.MountOf(fs, mounts, dev) else None;
    if mount.Some? {
      var chain := Locate.PfxSound(fs, mount.value, dev, ino);
    }
  }
}
