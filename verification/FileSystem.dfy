/** The file system as the server sees it: `lstat` and `readdir` over path strings.
    `Fs` is any such pair of functions; `TreeFs` is the pair a symlink-free tree gives. */
module FileSystem {
  import opened Wrappers

  /** What `lstat` reports; `gen` is what `get_gen` derives from it. */
  datatype Stat = Stat(dev: nat, ino: bv64, gen: nat, isDir: bool)

  /** `lstat` fails with None; `list` is opendir plus the readdir stream, None when opendir fails. */
  datatype Fs = Fs(lstat: string -> Option<Stat>, list: string -> Option<seq<string>>)

  /** POSIX facts the server relies on: the empty path does not resolve, a doubled
      leading slash means the root, and no object has device and inode both zero. */
  ghost predicate Posix(fs: Fs) {
    && fs.lstat("") == None
    && (forall p: string :: p != "" && p[0] == '/' ==> fs.lstat("/" + p) == fs.lstat(p))
    && (forall p: string :: fs.lstat(p).Some? ==> fs.lstat(p).value.dev != 0 || fs.lstat(p).value.ino != 0)
  }

  // ---------------------------------------------------------------- paths

  /** The components of a path: maximal runs without a slash, `cur` being the run read so far. */
  function Split(path: string, cur: string): seq<string> {
    if path == "" then (if cur == "" then [] else [cur])
    else if path[0] == '/' then (if cur == "" then [] else [cur]) + Split(path[1..], "")
    else Split(path[1..], cur + [path[0]])
  }

  function Components(path: string): seq<string> { Split(path, "") }

  predicate ValidName(name: string) {
    name != "" && name != "." && name != ".." && '/' !in name
  }

  /** "/a/b" for [a, b]; the empty string for []. */
  function Join(names: seq<string>): string {
    if names == [] then "" else Join(names[..|names| - 1]) + "/" + names[|names| - 1]
  }

  /** The normalised absolute path of a list of names. */
  function PathOf(names: seq<string>): string {
    if names == [] then "/" else Join(names)
  }

  lemma {:induction false} SplitPlain(name: string, cur: string)
    requires '/' !in name
    ensures Split(name, cur) == if cur + name == "" then [] else [cur + name]
  {
    if name == "" {
      assert cur + name == cur;
    } else {
      SplitPlain(name[1..], cur + [name[0]]);
      assert cur + [name[0]] + name[1..] == cur + name;
    }
  }

  lemma {:induction false} SplitAtSlash(a: string, b: string, cur: string)
    ensures Split(a + "/" + b, cur) == Split(a, cur) + Split(b, "")
  {
    var ab := a + "/" + b;
    if a == "" {
      assert ab[1..] == b;
    } else {
      assert ab[1..] == a[1..] + "/" + b;
      SplitAtSlash(a[1..], b, if a[0] == '/' then "" else cur + [a[0]]);
    }
  }

  /** One more component: what sprintf("%s/%s") does to a path. */
  lemma ComponentsSnoc(lead: string, name: string)
    requires name != "" && '/' !in name
    ensures Components(lead + "/" + name) == Components(lead) + [name]
  {
    SplitAtSlash(lead, name, "");
    SplitPlain(name, "");
    assert "" + name == name;
  }

  lemma LeadingSlash(path: string)
    ensures Components("/" + path) == Components(path)
  {
    assert ("/" + path)[1..] == path;
  }

  lemma {:induction false} ComponentsJoin(names: seq<string>)
    requires forall n :: n in names ==> ValidName(n)
    ensures Components(Join(names)) == names
  {
    if names != [] {
      var k := |names| - 1;
      ComponentsJoin(names[..k]);
      assert ValidName(names[k]);
      ComponentsSnoc(Join(names[..k]), names[k]);
      assert names == names[..k] + [names[k]];
    }
  }

  lemma JoinSnoc(names: seq<string>, name: string)
    ensures Join(names + [name]) == Join(names) + "/" + name
  {
    assert (names + [name])[..|names|] == names;
  }

  lemma {:induction false} JoinPrefix(names: seq<string>, k: nat)
    requires k <= |names|
    ensures |Join(names[..k])| <= |Join(names)|
    ensures Join(names[..k]) <= Join(names)
    decreases |names|
  {
    if k == |names| {
      assert names[..k] == names;
    } else {
      var m := |names| - 1;
      JoinPrefix(names[..m], k);
      assert names[..m][..k] == names[..k];
    }
  }

  // ----------------------------------------------------------------- trees

  datatype Dirent = Self | Parent | Child(name: string, node: Node)
  datatype Node = Node(stat: Stat, entries: seq<Dirent>)

  function EntryName(e: Dirent): string {
    match e
    case Self => "."
    case Parent => ".."
    case Child(name, _) => name
  }

  function Names(es: seq<Dirent>): (names: seq<string>)
    ensures |names| == |es|
    ensures forall i :: 0 <= i < |es| ==> names[i] == EntryName(es[i])
  {
    if es == [] then [] else [EntryName(es[0])] + Names(es[1..])
  }

  function Find(es: seq<Dirent>, name: string): Option<Node> {
    if es == [] then None
    else if es[0].Child? && es[0].name == name then Some(es[0].node)
    else Find(es[1..], name)
  }

  lemma {:induction false} FindListed(es: seq<Dirent>, i: nat)
    requires i < |es| && es[i].Child?
    ensures Find(es, es[i].name).Some?
  {
    if i > 0 {
      FindListed(es[1..], i - 1);
    }
  }

  lemma {:induction false} FoundIsListed(es: seq<Dirent>, name: string)
    requires Find(es, name).Some?
    ensures exists i :: 0 <= i < |es| && es[i].Child? && es[i].name == name
  {
    if !(es[0].Child? && es[0].name == name) {
      FoundIsListed(es[1..], name);
      var i :| 0 <= i < |es[1..]| && es[1..][i].Child? && es[1..][i].name == name;
      assert es[i + 1] == es[1..][i];
    }
  }

  /** The object reached by descending through the named children. */
  function At(root: Node, names: seq<string>): Option<Node> {
    if names == [] then Some(root)
    else
      var dir := At(root, names[..|names| - 1]);
      if dir.None? || !dir.value.stat.isDir then None
      else Find(dir.value.entries, names[|names| - 1])
  }

  lemma AtSnoc(root: Node, names: seq<string>, name: string)
    ensures At(root, names + [name]) ==
            if At(root, names).None? || !At(root, names).value.stat.isDir then None
            else Find(At(root, names).value.entries, name)
  {
    assert (names + [name])[..|names|] == names;
  }

  lemma {:induction false} AtPrefix(root: Node, names: seq<string>, k: nat)
    requires At(root, names).Some? && k <= |names|
    ensures At(root, names[..k]).Some?
    ensures k < |names| ==> At(root, names[..k]).value.stat.isDir
    decreases |names|
  {
    if k == |names| {
      assert names[..k] == names;
    } else {
      var m := |names| - 1;
      AtPrefix(root, names[..m], k);
      assert names[..m][..k] == names[..k];
    }
  }

  /** Path resolution with "." and "..": `stack` holds the directories from the root to here. */
  function Walk(stack: seq<Node>, comps: seq<string>): (r: Option<seq<Node>>)
    requires stack != []
    ensures r.Some? ==> r.value != []
    decreases |comps|
  {
    if comps == [] then Some(stack)
    else
      var here := stack[|stack| - 1];
      if !here.stat.isDir then None
      else if comps[0] == "." then Walk(stack, comps[1..])
      else if comps[0] == ".." then
        Walk(if |stack| > 1 then stack[..|stack| - 1] else stack, comps[1..])
      else
        match Find(here.entries, comps[0])
        case None => None
        case Some(n) => Walk(stack + [n], comps[1..])
  }

  lemma {:induction false} WalkAppend(stack: seq<Node>, a: seq<string>, b: seq<string>)
    requires stack != []
    ensures Walk(stack, a + b) == if Walk(stack, a).None? then None else Walk(Walk(stack, a).value, b)
    decreases |a|
  {
    if a == [] {
      assert a + b == b;
    } else {
      assert (a + b)[1..] == a[1..] + b;
      var here := stack[|stack| - 1];
      if here.stat.isDir {
        if a[0] == "." {
          WalkAppend(stack, a[1..], b);
        } else if a[0] == ".." {
          WalkAppend(if |stack| > 1 then stack[..|stack| - 1] else stack, a[1..], b);
        } else if Find(here.entries, a[0]).Some? {
          WalkAppend(stack + [Find(here.entries, a[0]).value], a[1..], b);
        }
      }
    }
  }

  /** The chain of objects from the root down to `names`. */
  function Chain(root: Node, names: seq<string>): (s: seq<Node>)
    requires At(root, names).Some?
    ensures |s| == |names| + 1
    ensures s[|names|] == At(root, names).value
  {
    if names == [] then [root]
    else Chain(root, names[..|names| - 1]) + [At(root, names).value]
  }

  lemma {:induction false} WalkNames(root: Node, names: seq<string>)
    requires forall n :: n in names ==> ValidName(n)
    ensures Walk([root], names) == if At(root, names).Some? then Some(Chain(root, names)) else None
  {
    if names != [] {
      var k := |names| - 1;
      WalkNames(root, names[..k]);
      assert names == names[..k] + [names[k]];
      WalkAppend([root], names[..k], [names[k]]);
      if At(root, names[..k]).Some? {
        var stack := Chain(root, names[..k]);
        assert Walk(stack, [names[k]]) ==
          if !stack[|stack| - 1].stat.isDir then None
          else if Find(stack[|stack| - 1].entries, names[k]).None? then None
          else Some(stack + [Find(stack[|stack| - 1].entries, names[k]).value])
        by {
          assert ValidName(names[k]);
          assert [names[k]][1..] == [];
        }
      }
    }
  }

  function Resolve(root: Node, path: string): Option<Node> {
    if path == "" then None
    else
      var r := Walk([root], Components(path));
      if r.None? then None else Some(r.value[|r.value| - 1])
  }

  function TreeLstat(root: Node, path: string): Option<Stat> {
    var r := Resolve(root, path);
    if r.None? then None else Some(r.value.stat)
  }

  function TreeList(root: Node, path: string): Option<seq<string>> {
    var r := Resolve(root, path);
    if r.None? || !r.value.stat.isDir then None else Some(Names(r.value.entries))
  }

  function TreeFs(root: Node): Fs {
    Fs(p => TreeLstat(root, p), p => TreeList(root, p))
  }

  /** Every child name is a name a directory can hold. */
  ghost predicate ValidNode(n: Node) {
    forall i :: 0 <= i < |n.entries| && n.entries[i].Child? ==> ValidName(n.entries[i].name)
  }

  ghost predicate ValidTree(root: Node) {
    forall p: seq<string> {:trigger ValidNode(At(root, p).value)} :: At(root, p).Some? ==> ValidNode(At(root, p).value)
  }

  predicate SameId(a: Stat, b: Stat) { a.dev == b.dev && a.ino == b.ino }

  /** No two objects of the tree share (dev, ino). */
  ghost predicate UniqueIds(root: Node) {
    forall p: seq<string>, q: seq<string> {:trigger SameId(At(root, p).value.stat, At(root, q).value.stat)} |
      At(root, p).Some? && At(root, q).Some? && SameId(At(root, p).value.stat, At(root, q).value.stat) :: p == q
  }

  lemma {:induction false} AtNamesValid(root: Node, names: seq<string>)
    requires ValidTree(root) && At(root, names).Some?
    ensures forall n :: n in names ==> ValidName(n)
  {
    if names != [] {
      var k := |names| - 1;
      AtPrefix(root, names, k);
      AtNamesValid(root, names[..k]);
      assert ValidNode(At(root, names[..k]).value);
      FoundIsListed(At(root, names[..k]).value.entries, names[k]);
      assert names == names[..k] + [names[k]];
    }
  }

  /** A path string whose components are child names resolves to the object `At` gives. */
  lemma ResolveNames(root: Node, path: string, names: seq<string>)
    requires ValidTree(root) && At(root, names).Some?
    requires path != "" && Components(path) == names
    ensures Resolve(root, path) == At(root, names)
  {
    AtNamesValid(root, names);
    WalkNames(root, names);
  }

  /** How lstat resolves `lead/name` for an entry of the directory `lead`. */
  lemma ResolveEntry(root: Node, lead: string, dirs: seq<string>, name: string)
    requires ValidTree(root) && At(root, dirs).Some? && At(root, dirs).value.stat.isDir
    requires Components(lead) == dirs && name != "" && '/' !in name
    ensures Resolve(root, lead + "/" + name) ==
            if name == "." then At(root, dirs)
            else if name == ".." then At(root, if dirs == [] then [] else dirs[..|dirs| - 1])
            else At(root, dirs + [name])
  {
    AtNamesValid(root, dirs);
    WalkNames(root, dirs);
    ComponentsSnoc(lead, name);
    WalkAppend([root], dirs, [name]);
    AtSnoc(root, dirs, name);
    var stack := Chain(root, dirs);
    assert [name][1..] == [];
    if name == ".." && dirs != [] {
      AtPrefix(root, dirs, |dirs| - 1);
      assert stack[..|stack| - 1] == Chain(root, dirs[..|dirs| - 1]);
    }
  }
}
