/** Brute-force search for an object by device and inode (src/locate.c). */
module Locate {
  import opened Wrappers
  import opened Protocol
  import opened FileSystem
  import opened FileHandle

  /** What is left of the path buffer below `pfx`; every descent shrinks it. */
  function Room(pfx: string): nat { if |pfx| < NFS_MAXPATHLEN then NFS_MAXPATHLEN - |pfx| else 0 }

  predicate TooLong(pfx: string, name: string) { |pfx| + |name| + 2 >= NFS_MAXPATHLEN }

  predicate IsObject(s: Stat, dev: nat, ino: bv64) { s.dev == dev && s.ino == ino }

  predicate Descend(s: Stat, dev: nat, name: string) { s.dev == dev && s.isDir && name != "." && name != ".." }

  /** The first hit of the recursive search below `pfx`. */
  function Pfx(fs: Fs, pfx: string, dev: nat, ino: bv64): Option<Hit>
    decreases Room(pfx), 1, 0
  {
    var names := fs.list(pfx);
    if names.None? then None else PfxScan(fs, pfx, dev, ino, names.value)
  }

  function PfxScan(fs: Fs, pfx: string, dev: nat, ino: bv64, names: seq<string>): Option<Hit>
    decreases Room(pfx), 0, |names|
  {
    if names == [] then None
    else if TooLong(pfx, names[0]) then PfxScan(fs, pfx, dev, ino, names[1..])
    else
      var path := pfx + "/" + names[0];
      var res := fs.lstat(path);
      if res.None? then PfxScan(fs, pfx, dev, ino, names[1..])
      else if IsObject(res.value, dev, ino) then Some(Hit(path, res.value))
      else
        var rec := if Descend(res.value, dev, names[0]) then Pfx(fs, path, dev, ino) else None;
        if rec.Some? then rec else PfxScan(fs, pfx, dev, ino, names[1..])
  }

  /** locate_pfx. Terminates on any directory graph, cyclic ones included: the path buffer is finite. */
  method LocatePfx(fs: Fs, pfx: string, dev: nat, ino: bv64, sc: StatCache) returns (result: Option<string>)
    modifies sc
    ensures var r := Pfx(fs, pfx, dev, ino);
            if r.None? then result.None? && sc.valid == old(sc.valid) && sc.stat == old(sc.stat)
            else result == Some(r.value.path) && sc.valid && sc.stat == r.value.stat
    decreases Room(pfx)
  {
    var search := fs.list(pfx);
    if search.None? { return None; }
    var names := search.value;
    var i := 0;
    while i < |names|
      invariant 0 <= i <= |names|
      invariant sc.valid == old(sc.valid) && sc.stat == old(sc.stat)
      invariant Pfx(fs, pfx, dev, ino) == PfxScan(fs, pfx, dev, ino, names[i..])
    {
      assert names[i..][1..] == names[i + 1..];
      var name := names[i];
      i := i + 1;
      if TooLong(pfx, name) { continue; }
      var path := pfx + "/" + name;
      var res := fs.lstat(path);
      if res.None? { continue; }
      if IsObject(res.value, dev, ino) {
        sc.stat, sc.valid := res.value, true;
        return Some(path);
      }
      if Descend(res.value, dev, name) {
        result := LocatePfx(fs, path, dev, ino, sc);
        if result.Some? { return; }
      }
    }
    return None;
  }

  /** The first mounted file system on the device. */
  function MountOf(fs: Fs, mounts: seq<string>, dev: nat): Option<string> {
    if mounts == [] then None
    else if fs.lstat(mounts[0]).Some? && fs.lstat(mounts[0]).value.dev == dev then Some(mounts[0])
    else MountOf(fs, mounts[1..], dev)
  }

  /** The mount point is itself on the device. */
  predicate Mounted(fs: Fs, mount: string, dev: nat) {
    var st := fs.lstat(mount);
    st.Some? && st.value.dev == dev
  }

  /** Entry i of the mount table is the first one on the device. */
  ghost predicate FirstMounted(fs: Fs, mounts: seq<string>, dev: nat, i: nat) {
    i < |mounts| && Mounted(fs, mounts[i], dev) && forall j :: 0 <= j < i ==> !Mounted(fs, mounts[j], dev)
  }

  lemma {:induction false} MountIsFirst(fs: Fs, mounts: seq<string>, dev: nat) returns (i: nat)
    ensures MountOf(fs, mounts, dev).None? <==> forall j :: 0 <= j < |mounts| ==> !Mounted(fs, mounts[j], dev)
    ensures MountOf(fs, mounts, dev).Some? ==>
              FirstMounted(fs, mounts, dev, i) && MountOf(fs, mounts, dev).value == mounts[i]
  {
    i := 0;
    if mounts != [] && !Mounted(fs, mounts[0], dev) {
      var k := MountIsFirst(fs, mounts[1..], dev);
      i := k + 1;
      assert forall j :: 0 < j < |mounts| ==> mounts[j] == mounts[1..][j - 1];
    }
  }

  /** locate_file finds the object exactly if brute force is enabled and a chain of same-device
      directories leads to it from the first mount point on the device. */
  lemma FileFindsIff(fs: Fs, mounts: seq<string>, bruteForce: bool, dev: nat, ino: bv64)
    ensures File(fs, mounts, bruteForce, dev, ino).Some? <==>
            bruteForce && exists i: nat, chain ::
              FirstMounted(fs, mounts, dev, i) && Reaches(fs, mounts[i], dev, ino, chain)
  {
    hide Pfx, Reaches, MountOf;
    var i := MountIsFirst(fs, mounts, dev);
    if i < |mounts| { FindsIffReachable(fs, mounts[i], dev, ino); }
  }

  function File(fs: Fs, mounts: seq<string>, bruteForce: bool, dev: nat, ino: bv64): Option<Hit> {
    var mount := if bruteForce then MountOf(fs, mounts, dev) else None;
    if mount.None? then None else Pfx(fs, mount.value, dev, ino)
  }

  /** locate_file, with the mount table as a parameter. */
  method LocateFile(fs: Fs, mounts: seq<string>, bruteForce: bool, dev: nat, ino: bv64, sc: StatCache)
    returns (result: Option<string>)
    modifies sc
    ensures var r := File(fs, mounts, bruteForce, dev, ino);
            if r.None? then result.None? && sc.valid == old(sc.valid) && sc.stat == old(sc.stat)
            else result == Some(r.value.path) && sc.valid && sc.stat == r.value.stat
  {
    if !bruteForce { return None; }
    var i := 0;
    while i < |mounts|
      invariant 0 <= i <= |mounts| && sc.valid == old(sc.valid) && sc.stat == old(sc.stat)
      invariant MountOf(fs, mounts, dev) == MountOf(fs, mounts[i..], dev)
    {
      assert mounts[i..][1..] == mounts[i + 1..];
      if fs.lstat(mounts[i]).Some? && fs.lstat(mounts[i]).value.dev == dev {
        result := LocatePfx(fs, mounts[i], dev, ino, sc);
        return;
      }
      i := i + 1;
    }
    return None;
  }

  // ------------------------------------------------------------- what it finds

  /** `chain` leads from directory `pfx` to the object through directories on its device,
      within the length limit. */
  ghost predicate Reaches(fs: Fs, pfx: string, dev: nat, ino: bv64, chain: seq<string>)
    decreases |chain|
  {
    && chain != [] && fs.list(pfx).Some? && chain[0] in fs.list(pfx).value && !TooLong(pfx, chain[0])
    && var path := pfx + "/" + chain[0];
       && fs.lstat(path).Some?
       && if |chain| == 1 then IsObject(fs.lstat(path).value, dev, ino)
          else Descend(fs.lstat(path).value, dev, chain[0]) && Reaches(fs, path, dev, ino, chain[1..])
  }

  lemma {:induction false} PfxSound(fs: Fs, pfx: string, dev: nat, ino: bv64) returns (chain: seq<string>)
    ensures var r := Pfx(fs, pfx, dev, ino);
            r.Some? ==>
              && fs.lstat(r.value.path) == Some(r.value.stat) && IsObject(r.value.stat, dev, ino)
              && Reaches(fs, pfx, dev, ino, chain) && r.value.path == pfx + Join(chain)
              && |r.value.path| <= NFS_MAXPATHLEN - 2
    decreases Room(pfx), 1, 0
  {
    chain := [];
    if fs.list(pfx).Some? {
      chain := ScanSound(fs, pfx, dev, ino, fs.list(pfx).value);
    }
  }

  lemma {:induction false} ScanSound(fs: Fs, pfx: string, dev: nat, ino: bv64, names: seq<string>)
    returns (chain: seq<string>)
    requires fs.list(pfx).Some? && forall n :: n in names ==> n in fs.list(pfx).value
    ensures var r := PfxScan(fs, pfx, dev, ino, names);
            r.Some? ==>
              && fs.lstat(r.value.path) == Some(r.value.stat) && IsObject(r.value.stat, dev, ino)
              && Reaches(fs, pfx, dev, ino, chain) && r.value.path == pfx + Join(chain)
              && |r.value.path| <= NFS_MAXPATHLEN - 2
    decreases Room(pfx), 0, |names|
  {
    hide Pfx, Join;
    chain := [];
    if names != [] {
      chain := ScanSound(fs, pfx, dev, ino, names[1..]);
      var path := pfx + "/" + names[0];
      if !TooLong(pfx, names[0]) && fs.lstat(path).Some? {
        var st := fs.lstat(path).value;
        if IsObject(st, dev, ino) {
          chain := [names[0]];
          JoinOne(names[0]);
          assert pfx + Join(chain) == path;
        } else if Descend(st, dev, names[0]) && Pfx(fs, path, dev, ino).Some? {
          var below := PfxSound(fs, path, dev, ino);
          chain := [names[0]] + below;
          assert chain[1..] == below;
          JoinCons(names[0], below);
        }
      }
    }
  }

  lemma JoinOne(name: string)
    ensures Join([name]) == "/" + name
  {
    assert [name][..0] == [];
  }

  lemma {:induction false} JoinCons(name: string, names: seq<string>)
    ensures Join([name] + names) == "/" + name + Join(names)
  {
    var all := [name] + names;
    if names == [] {
      assert all[..0] == [];
      assert all == [name];
    } else {
      var k := |names| - 1;
      JoinCons(name, names[..k]);
      assert all[..|all| - 1] == [name] + names[..k];
    }
  }

  lemma {:induction false} PfxComplete(fs: Fs, pfx: string, dev: nat, ino: bv64, chain: seq<string>)
    requires Reaches(fs, pfx, dev, ino, chain)
    ensures Pfx(fs, pfx, dev, ino).Some?
    decreases |chain|, 1, 0
  {
    ScanComplete(fs, pfx, dev, ino, chain, fs.list(pfx).value);
  }

  lemma {:induction false} ScanComplete(fs: Fs, pfx: string, dev: nat, ino: bv64, chain: seq<string>,
                                        names: seq<string>)
    requires Reaches(fs, pfx, dev, ino, chain) && chain[0] in names
    ensures PfxScan(fs, pfx, dev, ino, names).Some?
    decreases |chain|, 0, |names|
  {
    if names[0] == chain[0] {
      if |chain| > 1 {
        PfxComplete(fs, pfx + "/" + chain[0], dev, ino, chain[1..]);
      }
    } else {
      ScanComplete(fs, pfx, dev, ino, chain, names[1..]);
    }
  }

  /** locate_pfx finds the object if and only if some chain of same-device directories within
      the length limit leads to it, whatever the directory graph looks like. */
  lemma FindsIffReachable(fs: Fs, pfx: string, dev: nat, ino: bv64)
    ensures Pfx(fs, pfx, dev, ino).Some? <==> exists chain :: Reaches(fs, pfx, dev, ino, chain)
  {
    hide Pfx;
    if Pfx(fs, pfx, dev, ino).Some? {
      var chain := PfxSound(fs, pfx, dev, ino);
      assert Reaches(fs, pfx, dev, ino, chain);
    }
    if exists chain :: Reaches(fs, pfx, dev, ino, chain) {
      var chain :| Reaches(fs, pfx, dev, ino, chain);
      PfxComplete(fs, pfx, dev, ino, chain);
    }
  }

  /** The directories strictly between `dirs` and its descendant `t` are on device `dev`. */
  ghost predicate OnDevice(root: Node, dirs: seq<string>, t: seq<string>, dev: nat)
    decreases |t|
  {
    |t| > 1 ==>
      && At(root, dirs + [t[0]]).Some? && At(root, dirs + [t[0]]).value.stat.dev == dev
      && OnDevice(root, dirs + [t[0]], t[1..], dev)
  }

  /** In a tree: an object below directory `dirs` is found when the directories between are
      on its device and its path string stays short enough. */
  lemma FindsInTree(root: Node, pfx: string, dirs: seq<string>, t: seq<string>)
    requires ValidTree(root) && At(root, dirs + t).Some? && t != []
    requires Components(pfx) == dirs && pfx != "" && |pfx| + |Join(t)| <= NFS_MAXPATHLEN - 2
    requires OnDevice(root, dirs, t, At(root, dirs + t).value.stat.dev)
    ensures var s := At(root, dirs + t).value.stat; Pfx(TreeFs(root), pfx, s.dev, s.ino).Some?
  {
    var s := At(root, dirs + t).value.stat;
    ReachesInTree(root, pfx, dirs, t, s);
    PfxComplete(TreeFs(root), pfx, s.dev, s.ino, t);
  }

  /** The first step of a descent: `name` is listed in `dirs` and lstat finds it. */
  lemma StepInTree(root: Node, pfx: string, dirs: seq<string>, t: seq<string>)
    requires ValidTree(root) && At(root, dirs + t).Some? && t != [] && Components(pfx) == dirs && pfx != ""
    ensures var fs := TreeFs(root);
            && ValidName(t[0]) && Components(pfx + "/" + t[0]) == dirs + [t[0]]
            && At(root, dirs + [t[0]]).Some? && (|t| > 1 ==> At(root, dirs + [t[0]]).value.stat.isDir)
            && fs.list(pfx).Some? && t[0] in fs.list(pfx).value
            && fs.lstat(pfx + "/" + t[0]) == Some(At(root, dirs + [t[0]]).value.stat)
  {
    hide ValidTree, Components, At, Resolve, Find;
    var all := dirs + t;
    AtPrefix(root, all, |dirs|);
    AtPrefix(root, all, |dirs| + 1);
    assert all[..|dirs|] == dirs;
    assert all[..|dirs| + 1] == dirs + [t[0]];
    AtNamesValid(root, all);
    assert ValidName(all[|dirs|]);
    ResolveNames(root, pfx, dirs);
    ResolveEntry(root, pfx, dirs, t[0]);
    ComponentsSnoc(pfx, t[0]);
    AtSnoc(root, dirs, t[0]);
    FoundIsListed(At(root, dirs).value.entries, t[0]);
  }

  /** One step of a chain, from what the file system says about its first name. */
  lemma ChainStep(fs: Fs, pfx: string, dev: nat, ino: bv64, chain: seq<string>)
    requires chain != [] && fs.list(pfx).Some? && chain[0] in fs.list(pfx).value && !TooLong(pfx, chain[0])
    requires fs.lstat(pfx + "/" + chain[0]).Some?
    requires var s := fs.lstat(pfx + "/" + chain[0]).value;
             if |chain| == 1 then IsObject(s, dev, ino)
             else Descend(s, dev, chain[0]) && Reaches(fs, pfx + "/" + chain[0], dev, ino, chain[1..])
    ensures Reaches(fs, pfx, dev, ino, chain)
  {
  }

  lemma {:induction false} ReachesInTree(root: Node, pfx: string, dirs: seq<string>, t: seq<string>, s: Stat)
    requires ValidTree(root) && At(root, dirs + t).Some? && t != [] && At(root, dirs + t).value.stat == s
    requires Components(pfx) == dirs && pfx != "" && |pfx| + |Join(t)| <= NFS_MAXPATHLEN - 2
    requires OnDevice(root, dirs, t, s.dev)
    ensures Reaches(TreeFs(root), pfx, s.dev, s.ino, t)
    decreases |t|
  {
    hide ValidTree, At, Components, TreeLstat, TreeList, Reaches, Join;
    StepInTree(root, pfx, dirs, t);
    assert t == [t[0]] + t[1..];
    JoinCons(t[0], t[1..]);
    if |t| > 1 {
      assert dirs + [t[0]] + t[1..] == dirs + t;
      ReachesInTree(root, pfx + "/" + t[0], dirs + [t[0]], t[1..], s);
    } else {
      assert dirs + [t[0]] == dirs + t;
    }
    ChainStep(TreeFs(root), pfx, s.dev, s.ino, t);
  }
}
