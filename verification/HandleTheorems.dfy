/** What file handles are for: a handle composed for a path resolves back to that path,
    and handles built step by step by LOOKUP are the handles composed directly. */
module HandleTheorems {
  import opened Wrappers
  import opened Protocol
  import opened FileSystem
  import opened FileHandle

  // ------------------------------------------------------------ composition

  /** The handle of the object at `names`, read off the tree. */
  ghost function HandleOf(root: Node, names: seq<string>): Handle
    requires At(root, names).Some?
  {
    var s := At(root, names).value.stat;
    Handle(s.dev, s.ino, s.gen, 0, HashesOf(root, names))
  }

  /** One hash per path component, outermost first. */
  ghost function HashesOf(root: Node, names: seq<string>): (hs: seq<bv8>)
    requires At(root, names).Some?
    ensures |hs| == |names|
  {
    if names == [] then []
    else
      var k := |names| - 1;
      AtPrefix(root, names, k);
      HashesOf(root, names[..k]) + [Hash(At(root, names).value.stat.ino)]
  }

  lemma {:induction false} HashesAt(root: Node, names: seq<string>, k: nat)
    requires At(root, names).Some? && k < |names|
    ensures At(root, names[..k + 1]).Some?
    ensures HashesOf(root, names)[k] == Hash(At(root, names[..k + 1]).value.stat.ino)
    decreases |names|
  {
    var m := |names| - 1;
    AtPrefix(root, names, k + 1);
    AtPrefix(root, names, m);
    if k == m {
      assert names[..k + 1] == names;
    } else {
      HashesAt(root, names[..m], k);
      assert names[..m][..k + 1] == names[..k + 1];
    }
  }

  lemma {:induction false} JoinAppend(a: seq<string>, b: seq<string>)
    ensures Join(a + b) == Join(a) + Join(b)
    decreases |b|
  {
    if b == [] {
      assert a + b == a;
    } else {
      var m := |b| - 1;
      assert (a + b)[..|a + b| - 1] == a + b[..m];
      JoinAppend(a, b[..m]);
    }
  }

  lemma JoinStarts(names: seq<string>)
    requires names != []
    ensures Join(names) != "" && Join(names)[0] == '/'
  {
    JoinAppend(names[..1], names[1..]);
    assert names[..1] + names[1..] == names;
    assert Join(names[..1]) == Join([]) + "/" + names[0] by { assert names[..1][..0] == []; }
  }

  /** The next slash after component k is where component k + 1 starts. */
  lemma NextComponent(names: seq<string>, k: nat)
    requires forall n :: n in names ==> ValidName(n)
    requires k < |names|
    ensures |Join(names[..k])| < |Join(names)|
    ensures NextSlash(Join(names), |Join(names[..k])| + 1) ==
            if k + 1 == |names| then None else Some(|Join(names[..k + 1])|)
  {
    var here, upto := Join(names[..k]), Join(names[..k + 1]);
    assert names[..k + 1] == names[..k] + [names[k]];
    JoinSnoc(names[..k], names[k]);
    assert names == names[..k + 1] + names[k + 1..];
    JoinAppend(names[..k + 1], names[k + 1..]);
    assert ValidName(names[k]);
    var work := Join(names);
    assert work == here + "/" + names[k] + Join(names[k + 1..]);
    forall i | |here| < i < |upto| ensures work[i] != '/' {
      assert work[i] == names[k][i - |here| - 1];
    }
    if k + 1 < |names| {
      JoinStarts(names[k + 1..]);
      assert work[|upto|] == '/';
    } else {
      assert work == upto;
    }
  }

  lemma PrefixResolves(root: Node, names: seq<string>)
    requires ValidTree(root) && At(root, names).Some? && names != []
    ensures TreeLstat(root, Join(names)) == Some(At(root, names).value.stat)
  {
    AtNamesValid(root, names);
    ComponentsJoin(names);
    JoinStarts(names);
    ResolveNames(root, Join(names), names);
  }

  /** One trip of the hash loop of fh_comp_raw: the prefix it stats is the k-th ancestor. */
  lemma HashStep(root: Node, names: seq<string>, k: nat)
    requires ValidTree(root) && At(root, names).Some? && k < |names|
    ensures |Join(names[..k])| < |Join(names)|
    ensures At(root, names[..k + 1]).Some?
    ensures var next := NextSlash(Join(names), |Join(names[..k])| + 1);
            && next == (if k + 1 == |names| then None else Some(|Join(names[..k + 1])|))
            && TreeLstat(root, if next.None? then Join(names) else Join(names)[..next.value])
               == Some(At(root, names[..k + 1]).value.stat)
  {
    hide At, Components, Resolve, NextSlash;
    AtNamesValid(root, names);
    NextComponent(names, k);
    var upto := names[..k + 1];
    AtPrefix(root, names, k + 1);
    JoinAppend(upto, names[k + 1..]);
    assert names == upto + names[k + 1..];
    assert Join(names)[..|Join(upto)|] == Join(upto);
    PrefixResolves(root, upto);
    if k + 1 == |names| { assert upto == names; }
  }

  /** The hash loop of fh_comp_raw visits exactly the ancestors of the object. */
  lemma {:induction false} HashLoop(root: Node, names: seq<string>, k: nat, room: nat)
    requires ValidTree(root) && At(root, names).Some? && k < |names| && room > 0
    ensures |Join(names[..k])| < |Join(names)|
    ensures HashFrom(TreeFs(root), Join(names), |Join(names[..k])|, room) ==
            if |names| - k <= room then Some(HashesOf(root, names)[k..]) else None
    decreases room
  {
    hide Hash, At, ValidTree, NextSlash;
    HashStep(root, names, k);
    HashesAt(root, names, k);
    var hs := HashesOf(root, names);
    if k + 1 == |names| {
      assert hs[k..] == [hs[k]];
    } else if room > 1 {
      HashLoop(root, names, k + 1, room - 1);
      assert hs[k..] == [hs[k]] + hs[k + 1..];
    }
  }

  /** fh_comp_raw of a normalised path is the handle read off the tree, up to the depth limit. */
  lemma ComposeIsHandleOf(root: Node, names: seq<string>)
    requires ValidTree(root) && At(root, names).Some?
    ensures CompRaw(TreeFs(root), PathOf(names), NotExportPoint, false) ==
            if |names| <= FH_MAXLEN then HandleOf(root, names) else INVALID
  {
    AtNamesValid(root, names);
    ComponentsJoin(names);
    if names == [] {
      LeadingSlash("");
      assert "/" + "" == "/";
      ResolveNames(root, "/", []);
    } else {
      JoinStarts(names);
      ResolveNames(root, Join(names), names);
      HashLoop(root, names, 0, FH_MAXLEN);
      assert names[..0] == [];
      assert "/" + Join(names)[1..] == Join(names);
      LeadingSlash("");
      assert "/" + "" == "/";
    }
  }

  /** Which handles are composed: none without access to the export; a preset one for a
      removable export, the media being in or not; otherwise one with the object's identity,
      exactly if it exists, is a directory where one is needed, and its hashes can be read. */
  lemma ComposedWhen(fs: Fs, path: string, exp: ExportCheck, needDir: bool)
    requires Posix(fs) && path != ""
    ensures var fh, st := CompRaw(fs, path, exp, needDir), fs.lstat(path);
            if exp.NoAccess? then !FhValid(fh)
            else if exp.Removable? then fh.dev == exp.fsid && fh.ino == 1 && fh.inos == []
            else
              && (FhValid(fh) ==>
                    st.Some? && fh.dev == st.value.dev && fh.ino == st.value.ino && fh.gen == st.value.gen)
              && (FhValid(fh) <==>
                    && st.Some? && (needDir ==> st.value.isDir)
                    && (path == "/" || HashFrom(fs, "/" + path[1..], 0, FH_MAXLEN).Some?))
  {
    hide HashFrom;
  }

  // --------------------------------------------------------------- round trip

  /** The directory string the search uses for `dirs`: a doubled leading slash. */
  function Lead(dirs: seq<string>): string { "/" + Join(dirs) }

  lemma LeadComponents(root: Node, dirs: seq<string>)
    requires ValidTree(root) && At(root, dirs).Some?
    ensures Components(Lead(dirs)) == dirs
  {
    AtNamesValid(root, dirs);
    ComponentsJoin(dirs);
    LeadingSlash(Join(dirs));
  }

  /** `t` is looked for below `dirs` and is not one of the directories passed on the way. */
  ghost predicate Searching(root: Node, t: seq<string>, dirs: seq<string>) {
    && ValidTree(root) && UniqueIds(root)
    && At(root, t).Some? && At(root, dirs).Some?
    && t != [] && |dirs| <= |t| && !(t <= dirs)
  }

  /** The search builds one slash more than the path and stays below NFS_MAXPATHLEN. */
  predicate Fits(t: seq<string>) { |Join(t)| <= NFS_MAXPATHLEN - 2 }

  ghost function Answer(root: Node, t: seq<string>, here: bool): Option<Hit>
    requires At(root, t).Some?
  {
    if here then Some(Hit(Join(t), At(root, t).value.stat)) else None
  }

  lemma UniqueAt(root: Node, p: seq<string>, q: seq<string>)
    requires UniqueIds(root) && At(root, p).Some? && At(root, q).Some?
    requires SameId(At(root, p).value.stat, At(root, q).value.stat)
    ensures p == q
  {
  }

  /** What lstat says about each listed entry: only the child on the target's path can match. */
  lemma EntryCases(root: Node, t: seq<string>, dirs: seq<string>, name: string)
    requires Searching(root, t, dirs) && At(root, dirs).value.stat.isDir
    requires name == "." || name == ".." || (ValidName(name) && At(root, dirs + [name]).Some?)
    ensures var buf := StatOf(TreeFs(root), Lead(dirs) + "/" + name);
            && (Matches(HandleOf(root, t), buf) <==> ValidName(name) && dirs + [name] == t)
            && (ValidName(name) ==> buf == At(root, dirs + [name]).value.stat)
  {
    LeadComponents(root, dirs);
    ResolveEntry(root, Lead(dirs), dirs, name);
    var buf := StatOf(TreeFs(root), Lead(dirs) + "/" + name);
    var fh := HandleOf(root, t);
    if name == "." {
      if Matches(fh, buf) { UniqueAt(root, t, dirs); }
    } else if name == ".." {
      var up := if dirs == [] then [] else dirs[..|dirs| - 1];
      AtPrefix(root, dirs, |up|);
      assert up == dirs[..|up|];
      if Matches(fh, buf) { UniqueAt(root, t, up); }
    } else {
      if Matches(fh, buf) { UniqueAt(root, t, dirs + [name]); }
    }
  }

  lemma OnPath(t: seq<string>, dirs: seq<string>, name: string)
    requires |dirs| < |t|
    ensures dirs + [name] <= t <==> dirs <= t && name == t[|dirs|]
    ensures t <= dirs + [name] <==> t == dirs + [name] || t <= dirs
  {
    if dirs + [name] <= t {
      assert t[..|dirs| + 1] == dirs + [name];
      assert t[..|dirs|] == (dirs + [name])[..|dirs|] == dirs;
    }
    if dirs <= t && name == t[|dirs|] {
      assert t[..|dirs| + 1] == t[..|dirs|] + [t[|dirs|]];
    }
  }

  /** The search from `dirs` finds the target exactly when `dirs` lies on its path. */
  lemma {:induction false} SearchFinds(root: Node, t: seq<string>, dirs: seq<string>)
    requires Searching(root, t, dirs)
    ensures Search(TreeFs(root), HandleOf(root, t), |dirs|, Lead(dirs)) == Answer(root, t, dirs <= t && Fits(t))
    decreases |t| - |dirs|, 1, 0
  {
    hide At, ValidTree, Components, Resolve, Scan, Find;
    if |dirs| < |t| {
      LeadComponents(root, dirs);
      ResolveNames(root, Lead(dirs), dirs);
      var dir := At(root, dirs).value;
      if dir.stat.isDir {
        ScanFinds(root, t, dirs, dir.entries);
        if dirs <= t {
          assert dirs + [t[|dirs|]] == t[..|dirs| + 1] by { assert t[..|dirs|] == dirs; }
          AtPrefix(root, t, |dirs| + 1);
          AtSnoc(root, dirs, t[|dirs|]);
          FoundIsListed(dir.entries, t[|dirs|]);
        }
      } else if dirs <= t {
        assert t[..|dirs|] == dirs;
        AtPrefix(root, t, |dirs|);
      }
    }
  }

  ghost predicate Suffix<T>(a: seq<T>, b: seq<T>) { |a| <= |b| && a == b[|b| - |a|..] }

  /** Every listed name is ".", ".." or the name of an existing child. */
  lemma ListedName(root: Node, dirs: seq<string>, i: nat)
    requires ValidTree(root) && At(root, dirs).Some? && At(root, dirs).value.stat.isDir
    requires i < |At(root, dirs).value.entries|
    ensures var name := EntryName(At(root, dirs).value.entries[i]);
            name == "." || name == ".." || (ValidName(name) && At(root, dirs + [name]).Some?)
  {
    var dir := At(root, dirs).value;
    assert ValidNode(dir);
    if dir.entries[i].Child? {
      FindListed(dir.entries, i);
      AtSnoc(root, dirs, dir.entries[i].name);
    }
  }

  /** A component on the way to the target passes the length test if the whole path fits. */
  lemma ShortEnough(root: Node, t: seq<string>, dirs: seq<string>, name: string)
    requires Searching(root, t, dirs) && dirs + [name] <= t
    ensures Fits(t) ==> |Lead(dirs)| + |name| + 1 < NFS_MAXPATHLEN
    ensures dirs + [name] == t && |Lead(dirs)| + |name| + 1 < NFS_MAXPATHLEN ==> Fits(t)
  {
    JoinSnoc(dirs, name);
    JoinPrefix(t, |dirs| + 1);
    assert t[..|dirs| + 1] == dirs + [name];
  }

  /** The step that meets the target itself. */
  lemma ScanHits(root: Node, t: seq<string>, dirs: seq<string>, names: seq<string>)
    requires Searching(root, t, dirs) && At(root, dirs).value.stat.isDir
    requires names != [] && ValidName(names[0]) && t == dirs + [names[0]]
    ensures Scan(TreeFs(root), HandleOf(root, t), |dirs|, Lead(dirs), names) ==
            if Fits(t) then Answer(root, t, true)
            else Scan(TreeFs(root), HandleOf(root, t), |dirs|, Lead(dirs), names[1..])
  {
    ShortEnough(root, t, dirs, names[0]);
    EntryCases(root, t, dirs, names[0]);
    JoinSnoc(dirs, names[0]);
    assert Lead(dirs)[1..] == Join(dirs);
  }

  /** An entry that is neither the object nor leads to it is passed over. */
  lemma SkipEntry(fs: Fs, fh: Handle, pos: nat, lead: string, names: seq<string>)
    requires pos < |fh.inos| && lead != "" && names != []
    requires var obj := lead + "/" + names[0];
             || |lead| + |names[0]| + 1 >= NFS_MAXPATHLEN
             || (!Matches(fh, StatOf(fs, obj)) &&
                 (names[0] == "." || names[0] == ".." || Search(fs, fh, pos + 1, obj) == None))
    ensures Scan(fs, fh, pos, lead, names) == Scan(fs, fh, pos, lead, names[1..])
  {
  }

  /** A directory whose hash agrees and below which the object is found ends the loop. */
  lemma DescendEntry(fs: Fs, fh: Handle, pos: nat, lead: string, names: seq<string>)
    requires pos < |fh.inos| && lead != "" && names != []
    requires |lead| + |names[0]| + 1 < NFS_MAXPATHLEN && names[0] != "." && names[0] != ".."
    requires var obj := lead + "/" + names[0];
             && !Matches(fh, StatOf(fs, obj))
             && Hash(StatOf(fs, obj).ino) == fh.inos[pos]
             && Search(fs, fh, pos + 1, obj).Some?
    ensures Scan(fs, fh, pos, lead, names) == Search(fs, fh, pos + 1, lead + "/" + names[0])
  {
  }

  /** A step that does not meet the target: descend when the hash agrees, then go on. */
  lemma ScanPasses(root: Node, t: seq<string>, dirs: seq<string>, names: seq<string>, found: bool)
    requires Searching(root, t, dirs) && |dirs| < |t| && At(root, dirs).value.stat.isDir
    requires names != [] && t != dirs + [names[0]]
    requires names[0] == "." || names[0] == ".." || (ValidName(names[0]) && At(root, dirs + [names[0]]).Some?)
    requires found <==> ValidName(names[0]) && dirs + [names[0]] <= t && Fits(t)
    requires ValidName(names[0]) ==>
               Search(TreeFs(root), HandleOf(root, t), |dirs| + 1, Lead(dirs + [names[0]])) == Answer(root, t, found)
    ensures Scan(TreeFs(root), HandleOf(root, t), |dirs|, Lead(dirs), names) ==
            if found then Answer(root, t, true)
            else Scan(TreeFs(root), HandleOf(root, t), |dirs|, Lead(dirs), names[1..])
  {
    hide Hash, Scan, Search, UniqueIds, ValidTree, At, Fits, Components;
    var name := names[0];
    EntryCases(root, t, dirs, name);
    JoinSnoc(dirs, name);
    assert Lead(dirs) + "/" + name == Lead(dirs + [name]);
    if found {
      ShortEnough(root, t, dirs, name);
      HashesAt(root, t, |dirs|);
      assert t[..|dirs| + 1] == dirs + [name];
      DescendEntry(TreeFs(root), HandleOf(root, t), |dirs|, Lead(dirs), names);
    } else {
      SkipEntry(TreeFs(root), HandleOf(root, t), |dirs|, Lead(dirs), names);
    }
  }

  lemma {:induction false} ScanFinds(root: Node, t: seq<string>, dirs: seq<string>, es: seq<Dirent>)
    requires Searching(root, t, dirs) && |dirs| < |t| && At(root, dirs).value.stat.isDir
    requires Suffix(es, At(root, dirs).value.entries)
    ensures Scan(TreeFs(root), HandleOf(root, t), |dirs|, Lead(dirs), Names(es)) ==
            Answer(root, t, dirs <= t && t[|dirs|] in Names(es) && Fits(t))
    decreases |t| - |dirs|, 0, |es|
  {
    if es != [] {
      var all := At(root, dirs).value.entries;
      var name := EntryName(es[0]);
      assert es[0] == all[|all| - |es|];
      assert es[1..] == all[|all| - |es| + 1..];
      assert Names(es)[1..] == Names(es[1..]);
      ListedName(root, dirs, |all| - |es|);
      ScanFinds(root, t, dirs, es[1..]);
      OnPath(t, dirs, name);
      AtNamesValid(root, t);
      assert ValidName(t[|dirs|]);
      if t == dirs + [name] {
        ScanHits(root, t, dirs, Names(es));
      } else {
        if ValidName(name) { SearchFinds(root, t, dirs + [name]); }
        ScanPasses(root, t, dirs, Names(es), ValidName(name) && dirs + [name] <= t && Fits(t));
      }
    }
  }

  /** Composing a handle and resolving it gives the path back, with the object's stat for the
      stat cache, however many hash collisions the search runs into. Beyond 1022 characters
      the search cannot build the path and finds nothing. */
  lemma RoundTrip(root: Node, names: seq<string>)
    requires ValidTree(root) && UniqueIds(root) && At(root, names).Some?
    requires 0 < |names| <= FH_MAXLEN
    ensures var fh := CompRaw(TreeFs(root), PathOf(names), NotExportPoint, false);
            && fh.inos != []
            && DecompRaw(TreeFs(root), fh) ==
               if |PathOf(names)| <= NFS_MAXPATHLEN - 2 then Some(Hit(PathOf(names), At(root, names).value.stat))
               else None
  {
    ComposeIsHandleOf(root, names);
    SearchFinds(root, names, []);
    assert "/" + "" == "/";
    assert [] <= names;
  }

  // ---------------------------------------------------------------- soundness

  /** The shape of the directory strings the search passes down. */
  predicate SearchLead(lead: string) {
    lead != "" && lead[0] == '/' && (|lead| > 1 ==> lead[1] == '/')
  }

  /** A hit is what lstat now says about the returned path, unless the handle is the invalid
      one: then it is an entry whose lstat failed. */
  ghost predicate GoodHit(fs: Fs, fh: Handle, h: Hit) {
    && |h.path| <= NFS_MAXPATHLEN - 2
    && if FhValid(fh) then fs.lstat(h.path) == Some(h.stat) && Matches(fh, h.stat)
       else fs.lstat(h.path) == None
  }

  lemma {:induction false} SearchSound(fs: Fs, fh: Handle, pos: nat, lead: string)
    requires Posix(fs) && pos <= |fh.inos| && SearchLead(lead)
    ensures var r := Search(fs, fh, pos, lead); r.Some? ==> GoodHit(fs, fh, r.value)
    decreases |fh.inos| - pos, 1, 0
  {
    if pos < |fh.inos| && fs.list(lead).Some? {
      ScanSound(fs, fh, pos, lead, fs.list(lead).value);
    }
  }

  lemma {:induction false} ScanSound(fs: Fs, fh: Handle, pos: nat, lead: string, names: seq<string>)
    requires Posix(fs) && pos < |fh.inos| && SearchLead(lead)
    ensures var r := Scan(fs, fh, pos, lead, names); r.Some? ==> GoodHit(fs, fh, r.value)
    decreases |fh.inos| - pos, 0, |names|
  {
    hide Hash;
    if names != [] {
      ScanSound(fs, fh, pos, lead, names[1..]);
      var obj := lead + "/" + names[0];
      SearchSound(fs, fh, pos + 1, obj);
      var path := lead[1..] + "/" + names[0];
      assert obj == "/" + path;
      assert path[0] == '/';
    }
  }

  /** fh_decomp_raw in any file system: the path it returns resolves to the handle's object
      exactly when the handle is a valid one. */
  lemma DecompRawSound(fs: Fs, fh: Handle)
    requires Posix(fs) && fh.inos != []
    ensures var r := DecompRaw(fs, fh);
            r.Some? ==>
              && |r.value.path| <= NFS_MAXPATHLEN - 2
              && (FhValid(fh) ==> fs.lstat(r.value.path) == Some(r.value.stat) && Matches(fh, r.value.stat))
              && (!FhValid(fh) ==> fs.lstat(r.value.path) == None)
  {
    SearchSound(fs, fh, 0, "/");
  }

  /** The second case happens: an all-zero handle is resolved to an entry that cannot be stat'ed. */
  lemma ZeroHandleResolvesToMissingObject()
    ensures var fs := Fs(p => None, p => if p == "/" then Some(["gone"]) else None);
            var fh := Handle(0, 0, 0, 0, [0]);
            Posix(fs) && !FhValid(fh) && DecompRaw(fs, fh) == Some(Hit("/gone", CLEARED)) && fs.lstat("/gone") == None
  {
    var fs := Fs(p => None, p => if p == "/" then Some(["gone"]) else None);
    var fh := Handle(0, 0, 0, 0, [0]);
    assert "/"[1..] + "/" + "gone" == "/gone";
    assert StatOf(fs, "/" + "/" + "gone") == CLEARED;
  }

  // -------------------------------------------------------- extending handles

  /** No export claims this device number as its static file system id. */
  predicate AwayFromExports(fh: Handle, exportOf: nat -> Option<string>) {
    fh.inos == [] ==> exportOf(fh.dev) == None
  }

  /** Extending a directory's handle by a child is composing the child's path, up to the
      password hash that fh_extend stamps; it is refused exactly at depth 43. */
  lemma ExtendCommutes(root: Node, dirs: seq<string>, name: string, pw: nat, exportOf: nat -> Option<string>)
    requires ValidTree(root) && At(root, dirs + [name]).Some? && |dirs| <= FH_MAXLEN
    requires AwayFromExports(HandleOf(root, dirs), exportOf)
    ensures var s := At(root, dirs + [name]).value.stat;
            var dir := CompRaw(TreeFs(root), PathOf(dirs), NotExportPoint, false);
            var child := CompRaw(TreeFs(root), PathOf(dirs + [name]), NotExportPoint, false);
            FhExtend(TreeFs(root), dir, s.dev, s.ino, s.gen, pw, exportOf) ==
            if |dirs| == FH_MAXLEN then None else Some(child.(pwhash := pw))
  {
    hide Hash;
    AtPrefix(root, dirs + [name], |dirs|);
    assert (dirs + [name])[..|dirs|] == dirs;
    ComposeIsHandleOf(root, dirs);
    ComposeIsHandleOf(root, dirs + [name]);
  }

  /** The handle a client holds after mounting the root and LOOKUPs of `names` in turn. */
  ghost function LookupChain(root: Node, names: seq<string>, pw: nat, exportOf: nat -> Option<string>): Option<Handle>
    requires At(root, names).Some?
  {
    if names == [] then Some(CompRaw(TreeFs(root), "/", NotExportPoint, false).(pwhash := pw))
    else
      var k := |names| - 1;
      AtPrefix(root, names, k);
      var dir := LookupChain(root, names[..k], pw, exportOf);
      var s := At(root, names).value.stat;
      if dir.None? then None
      else FhExtend(TreeFs(root), dir.value, s.dev, s.ino, s.gen, pw, exportOf)
  }

  /** Every LOOKUP chain gives the directly composed handle; it breaks off exactly below
      depth 43, and every handle on it passes nfh_valid and, with 4-byte words, fits 64 bytes. */
  lemma {:induction false} LookupChainComposes(root: Node, names: seq<string>, pw: nat,
                                               exportOf: nat -> Option<string>, word: nat)
    requires ValidTree(root) && At(root, names).Some? && word >= 4
    requires AwayFromExports(HandleOf(root, []), exportOf)
    ensures var r := LookupChain(root, names, pw, exportOf);
            var direct := CompRaw(TreeFs(root), PathOf(names), NotExportPoint, false);
            if |names| <= FH_MAXLEN then
              && r == Some(direct.(pwhash := pw))
              && NfhValid(FhLength(r.value, word), r.value, word)
              && (FhLength(r.value, word) <= NFS3_FHSIZE <==> |names| + 3 * word <= 55)
            else r == None
  {
    hide Hash, ValidTree, CompRaw;
    ComposeIsHandleOf(root, names);
    if names != [] {
      var k := |names| - 1;
      AtPrefix(root, names, k);
      LookupChainComposes(root, names[..k], pw, exportOf, word);
      ComposeIsHandleOf(root, names[..k]);
      assert names == names[..k] + [names[k]];
      if k <= FH_MAXLEN {
        ExtendCommutes(root, names[..k], names[k], pw, exportOf);
      }
    }
  }

  // -------------------------------------------------- trees are file systems

  /** Resolution never leaves the tree. */
  lemma {:induction false} WalkStays(root: Node, at: seq<string>, comps: seq<string>) returns (to: seq<string>)
    requires At(root, at).Some?
    ensures var r := Walk(Chain(root, at), comps);
            r.Some? ==> At(root, to).Some? && r.value == Chain(root, to)
    decreases |comps|
  {
    to := at;
    var stack := Chain(root, at);
    var here := At(root, at).value;
    if comps != [] && here.stat.isDir {
      if comps[0] == "." {
        to := WalkStays(root, at, comps[1..]);
      } else if comps[0] == ".." {
        if at == [] {
          to := WalkStays(root, at, comps[1..]);
        } else {
          AtPrefix(root, at, |at| - 1);
          assert stack[..|stack| - 1] == Chain(root, at[..|at| - 1]);
          to := WalkStays(root, at[..|at| - 1], comps[1..]);
        }
      } else if Find(here.entries, comps[0]).Some? {
        AtSnoc(root, at, comps[0]);
        assert (at + [comps[0]])[..|at|] == at;
        assert stack + [Find(here.entries, comps[0]).value] == Chain(root, at + [comps[0]]);
        to := WalkStays(root, at + [comps[0]], comps[1..]);
      }
    }
  }

  /** A tree without zero identities meets the POSIX assumptions. */
  lemma TreeIsPosix(root: Node)
    requires forall p: seq<string> :: At(root, p).Some? ==>
               At(root, p).value.stat.dev != 0 || At(root, p).value.stat.ino != 0
    ensures Posix(TreeFs(root))
  {
    var fs := TreeFs(root);
    forall p: string | p != "" && p[0] == '/' ensures fs.lstat("/" + p) == fs.lstat(p) {
      LeadingSlash(p);
    }
    forall p: string | fs.lstat(p).Some? ensures fs.lstat(p).value.dev != 0 || fs.lstat(p).value.ino != 0 {
      var to := WalkStays(root, [], Components(p));
    }
  }
}
