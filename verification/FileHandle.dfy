/** File handles (src/fh.c): composing one from a path, extending one by a child,
    and the backtracking search that resolves one. */
module FileHandle {
  import opened Wrappers
  import opened Protocol
  import opened FileSystem

  const FH_MINLEN: nat := 21
  const FH_MAXLEN: nat := 43

  /** `inos` holds the first `len` bytes of the struct's array, so `len` is |inos|. */
  datatype Handle = Handle(dev: nat, ino: bv64, gen: nat, pwhash: nat, inos: seq<bv8>)

  const INVALID := Handle(0, 0, 0, 0, [])

  /** Global `st_cache` and `st_cache_valid`. */
  class StatCache {
    var valid: bool
    var stat: Stat
    constructor (s: Stat) ensures !valid && stat == s { valid := false; stat := s; }
  }

  /** The 8-bit inode hash FH_HASH: the xor of the eight bytes. */
  function Hash(n: bv64): bv8 {
    ((n ^ (n >> 8) ^ (n >> 16) ^ (n >> 24) ^ (n >> 32) ^ (n >> 40) ^ (n >> 48) ^ (n >> 56)) & 0xFF) as bv8
  }

  // ------------------------------------------------------------ wire length

  /** Length in bytes when `uint32` occupies `word` bytes. */
  function FhLength(fh: Handle, word: nat): nat { |fh.inos| + 1 + word + 8 + word + word }

  predicate FhValid(fh: Handle) { fh.dev != 0 || fh.ino != 0 }

  /** `dataLen` is the length the RPC layer delivered. */
  predicate NfhValid(dataLen: nat, fh: Handle, word: nat) {
    dataLen >= FH_MINLEN && dataLen == FhLength(fh, word)
  }

  // ------------------------------------------------------------ composition

  /** strchr(s + from, '/') */
  function NextSlash(s: string, from: nat): (r: Option<nat>)
    requires from <= |s|
    ensures r.Some? ==> from <= r.value < |s| && s[r.value] == '/' && forall i :: from <= i < r.value ==> s[i] != '/'
    ensures r.None? ==> forall i :: from <= i < |s| ==> s[i] != '/'
    decreases |s| - from
  {
    if from == |s| then None
    else if s[from] == '/' then Some(from)
    else NextSlash(s, from + 1)
  }

  /** What the export table says about the path being composed (only asked when a request is given). */
  datatype ExportCheck = NotExportPoint | NoAccess | Fixed | Removable(fsid: nat)

  /** Hashes of the path prefixes that end at a slash after `from`, and of the whole path;
      None when a prefix does not resolve or more than `room` of them are needed. */
  function HashFrom(fs: Fs, work: string, from: nat, room: nat): (r: Option<seq<bv8>>)
    requires from < |work| && room > 0
    ensures r.Some? ==> 0 < |r.value| <= room
    decreases room
  {
    var next := NextSlash(work, from + 1);
    var st := fs.lstat(if next.None? then work else work[..next.value]);
    if st.None? then None
    else if next.None? then Some([Hash(st.value.ino)])
    else if room == 1 then None
    else
      Prepend([Hash(st.value.ino)], HashFrom(fs, work, next.value, room - 1))
  }

  function Prepend<T>(a: seq<T>, b: Option<seq<T>>): Option<seq<T>> {
    match b
    case None => None
    case Some(s) => Some(a + s)
  }

  lemma PrependNone<T>(b: Option<seq<T>>)
    ensures Prepend([], b) == b
  {
    if b.Some? { assert [] + b.value == b.value; }
  }

  lemma PrependTwice<T>(a: seq<T>, b: seq<T>, c: Option<seq<T>>)
    ensures Prepend(a, Prepend(b, c)) == Prepend(a + b, c)
  {
    if c.Some? { assert a + (b + c.value) == (a + b) + c.value; }
  }

  /** `pwhash` is left zero here; the callers of fh_comp_raw set it. */
  function CompRaw(fs: Fs, path: string, exp: ExportCheck, needDir: bool): Handle {
    if exp.NoAccess? then INVALID
    else if exp.Removable? then Handle(exp.fsid, 1, 0, 0, [])
    else
      var st := fs.lstat(path);
      if st.None? || (needDir && !st.value.isDir) || path == "" then INVALID
      else
        var base := Handle(st.value.dev, st.value.ino, st.value.gen, 0, []);
        if path == "/" then base
        else
          var hs := HashFrom(fs, "/" + path[1..], 0, FH_MAXLEN);
          if hs.None? then INVALID else base.(inos := hs.value)
  }

  /** The do-while loop of fh_comp_raw over its work buffer; `last` is the index of the slash
      most recently replaced by a terminator. */
  method HashComponents(fs: Fs, work: string, room: nat) returns (r: Option<seq<bv8>>)
    requires work != "" && room > 0
    ensures r == HashFrom(fs, work, 0, room)
  {
    hide Hash, NextSlash;
    var last: Option<nat> := Some(0);
    var inos: seq<bv8> := [];
    PrependNone(HashFrom(fs, work, 0, room));
    while last.Some? && |inos| < room
      invariant last.Some? ==> last.value < |work|
      invariant |inos| <= room
      invariant HashFrom(fs, work, 0, room) ==
                if last.None? then Some(inos)
                else if |inos| == room then None
                else Prepend(inos, HashFrom(fs, work, last.value, room - |inos|))
      decreases room - |inos|
    {
      ghost var left := room - |inos|;
      last := NextSlash(work, last.value + 1);
      var res := fs.lstat(if last.None? then work else work[..last.value]);
      if res.None? { return None; }
      var hash := Hash(res.value.ino);
      if last.Some? && left > 1 {
        PrependTwice(inos, [hash], HashFrom(fs, work, last.value, left - 1));
      }
      inos := inos + [hash];
    }
    return if last.Some? then None else Some(inos);
  }

  /** fh_comp_raw; the work buffer holds NFS_MAXPATHLEN bytes. */
  method FhCompRaw(fs: Fs, path: string, exp: ExportCheck, needDir: bool) returns (fh: Handle)
    requires fs.lstat("") == None && |path| < NFS_MAXPATHLEN
    ensures fh == CompRaw(fs, path, exp, needDir)
  {
    if exp.NoAccess? { return INVALID; }
    if exp.Removable? { return Handle(exp.fsid, 1, 0, 0, []); }
    var st := fs.lstat(path);
    if st.None? { return INVALID; }
    if needDir && !st.value.isDir { return INVALID; }
    fh := Handle(st.value.dev, st.value.ino, st.value.gen, 0, []);
    if path == "/" { return; }
    var inos := HashComponents(fs, "/" + path[1..], FH_MAXLEN);
    if inos.None? { return INVALID; }
    fh := fh.(inos := inos.value);
  }

  /** fh_extend; `exportOf` is export_point_from_fsid and `pwhash` the current export's password hash. */
  function FhExtend(fs: Fs, fh: Handle, dev: nat, ino: bv64, gen: nat, pwhash: nat, exportOf: nat -> Option<string>)
    : Option<Handle>
  {
    var point := if fh.inos == [] then exportOf(fh.dev) else None;
    var base := if point.Some? then CompRaw(fs, point.value, NotExportPoint, false) else fh;
    if point.Some? && !FhValid(base) then None
    else if |base.inos| == FH_MAXLEN then None
    else Some(Handle(dev, ino, gen, pwhash, base.inos + [Hash(ino)]))
  }

  // ------------------------------------------------------------- resolution

  /** A path found together with the stat buffer stored in the stat cache. */
  datatype Hit = Hit(path: string, stat: Stat)

  /** The stat buffer after a failed lstat: device and inode are cleared. */
  const CLEARED := Stat(0, 0, 0, false)

  function StatOf(fs: Fs, obj: string): Stat {
    match fs.lstat(obj)
    case None => CLEARED
    case Some(s) => s
  }

  predicate Matches(fh: Handle, s: Stat) { s.dev == fh.dev && s.ino == fh.ino }

  /** The recursive search below directory `lead`, at position `pos` of the inode hashes. */
  function Search(fs: Fs, fh: Handle, pos: nat, lead: string): Option<Hit>
    requires pos <= |fh.inos| && lead != ""
    decreases |fh.inos| - pos, 1, 0
  {
    if pos == |fh.inos| then None
    else
      var names := fs.list(lead);
      if names.None? then None else Scan(fs, fh, pos, lead, names.value)
  }

  /** The rest of the readdir loop, with `names` still unread. */
  function Scan(fs: Fs, fh: Handle, pos: nat, lead: string, names: seq<string>): Option<Hit>
    requires pos < |fh.inos| && lead != ""
    decreases |fh.inos| - pos, 0, |names|
  {
    if names == [] then None
    else
      var name := names[0];
      if |lead| + |name| + 1 >= NFS_MAXPATHLEN then Scan(fs, fh, pos, lead, names[1..])
      else
        var obj := lead + "/" + name;
        var buf := StatOf(fs, obj);
        if Matches(fh, buf) then Some(Hit(lead[1..] + "/" + name, buf))
        else if name != ".." && name != "." && Hash(buf.ino) == fh.inos[pos] then
          var rec := Search(fs, fh, pos + 1, obj);
          if rec.Some? then rec else Scan(fs, fh, pos, lead, names[1..])
        else Scan(fs, fh, pos, lead, names[1..])
  }

  /** fh_rec: the loop leaves the stat cache alone unless it finds the object. */
  method FhRec(fs: Fs, fh: Handle, pos: nat, lead: string, sc: StatCache) returns (result: Option<string>)
    requires pos <= |fh.inos| && lead != ""
    modifies sc
    ensures var r := Search(fs, fh, pos, lead);
            if r.None? then result.None? && sc.valid == old(sc.valid) && sc.stat == old(sc.stat)
            else result == Some(r.value.path) && sc.valid && sc.stat == r.value.stat
    decreases |fh.inos| - pos
  {
    if pos == |fh.inos| { return None; }
    var search := fs.list(lead);
    if search.None? { return None; }
    var names := search.value;
    var i := 0;
    while i < |names|
      invariant 0 <= i <= |names|
      invariant sc.valid == old(sc.valid) && sc.stat == old(sc.stat)
      invariant Search(fs, fh, pos, lead) == Scan(fs, fh, pos, lead, names[i..])
    {
      var name := names[i];
      assert names[i..][1..] == names[i + 1..];
      if |lead| + |name| + 1 < NFS_MAXPATHLEN {
        var obj := lead + "/" + name;
        var buf := StatOf(fs, obj);
        if Matches(fh, buf) {
          sc.valid, sc.stat := true, buf;
          return Some(lead[1..] + "/" + name);
        }
        if name != ".." && name != "." && Hash(buf.ino) == fh.inos[pos] {
          result := FhRec(fs, fh, pos + 1, obj, sc);
          if result.Some? { return; }
        }
      }
      i := i + 1;
    }
    return None;
  }

  function DecompRaw(fs: Fs, fh: Handle): Option<Hit>
    requires fh.inos != []
  {
    Search(fs, fh, 0, "/")
  }

  /** fh_decomp_raw: a handle without hashes is the root and leaves the stat cache alone. */
  method FhDecompRaw(fs: Fs, fh: Handle, sc: StatCache) returns (result: Option<string>)
    modifies sc
    ensures fh.inos == [] ==> result == Some("/") && sc.valid == old(sc.valid) && sc.stat == old(sc.stat)
    ensures fh.inos != [] ==>
              var r := DecompRaw(fs, fh);
              if r.None? then result.None? && sc.valid == old(sc.valid) && sc.stat == old(sc.stat)
              else result == Some(r.value.path) && sc.valid && sc.stat == r.value.stat
  {
    if fh.inos == [] { return Some("/"); }
    result := FhRec(fs, fh, 0, "/", sc);
  }
}
