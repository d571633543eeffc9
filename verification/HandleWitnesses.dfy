/** Trees in which the limits of src/fh.c are reached. */
module HandleWitnesses {
  import opened Wrappers
  import opened Protocol
  import opened FileSystem
  import opened FileHandle
  import opened HandleTheorems

  /** Directories nested along `names` on one device, with these inode numbers. */
  function Line(names: seq<string>, inos: seq<bv64>): Node
    requires |inos| == |names| + 1
  {
    Node(Stat(1, inos[0], 0, true),
         [Self, Parent] + if names == [] then [] else [Child(names[0], Line(names[1..], inos[1..]))])
  }

  lemma FindInLine(names: seq<string>, inos: seq<bv64>, name: string)
    requires |inos| == |names| + 1
    ensures Find(Line(names, inos).entries, name) ==
            if names != [] && names[0] == name then Some(Line(names[1..], inos[1..])) else None
  {
    var es := Line(names, inos).entries;
    assert es[0] == Self && es[1..][0] == Parent;
    var rest := es[1..][1..];
    assert Find(es, name) == Find(es[1..], name) == Find(rest, name);
    if names == [] {
      assert rest == [];
    } else {
      assert rest == [Child(names[0], Line(names[1..], inos[1..]))] && rest[1..] == [];
      assert names[0] != name ==> Find(rest, name) == Find([], name) == None;
    }
  }

  lemma {:induction false} AtLine(names: seq<string>, inos: seq<bv64>, p: seq<string>)
    requires |inos| == |names| + 1
    ensures At(Line(names, inos), p) == if p <= names then Some(Line(names[|p|..], inos[|p|..])) else None
  {
    hide Find, Line;
    if p == [] {
      assert names[0..] == names && inos[0..] == inos;
    } else {
      var k := |p| - 1;
      AtLine(names, inos, p[..k]);
      if p[..k] <= names {
        FindInLine(names[k..], inos[k..], p[k]);
        LineIsDir(names[k..], inos[k..]);
        if k < |names| { assert names[k..][1..] == names[k + 1..] && inos[k..][1..] == inos[k + 1..]; }
      }
    }
  }

  lemma LineIsDir(names: seq<string>, inos: seq<bv64>)
    requires |inos| == |names| + 1
    ensures var n := Line(names, inos); n.stat.isDir && n.stat.ino == inos[0]
    ensures (forall n :: n in names ==> ValidName(n)) ==> ValidNode(Line(names, inos))
  {
  }

  lemma LineIsValid(names: seq<string>, inos: seq<bv64>)
    requires |inos| == |names| + 1 && forall n :: n in names ==> ValidName(n)
    ensures ValidTree(Line(names, inos)) && At(Line(names, inos), names).Some?
  {
    hide At, Line, ValidNode;
    forall p: seq<string> | At(Line(names, inos), p).Some? ensures ValidNode(At(Line(names, inos), p).value) {
      AtLine(names, inos, p);
      LineIsDir(names[|p|..], inos[|p|..]);
    }
    AtLine(names, inos, names);
  }

  lemma LineIsUnique(names: seq<string>, inos: seq<bv64>)
    requires |inos| == |names| + 1 && forall i, j :: 0 <= i < j < |inos| ==> inos[i] != inos[j]
    ensures UniqueIds(Line(names, inos))
  {
    hide At, Line;
    var root := Line(names, inos);
    forall p: seq<string>, q: seq<string>
      | At(root, p).Some? && At(root, q).Some? && SameId(At(root, p).value.stat, At(root, q).value.stat)
      ensures p == q
    {
      AtLine(names, inos, p);
      AtLine(names, inos, q);
      LineIsDir(names[|p|..], inos[|p|..]);
      LineIsDir(names[|q|..], inos[|q|..]);
      assert inos[|p|] == inos[|q|];
      assert p == names[..|p|] && q == names[..|q|];
    }
  }

  function Repeat(c: char, n: nat): (s: string)
    ensures |s| == n && forall i :: 0 <= i < n ==> s[i] == c
  {
    seq(n, _ => c)
  }

  /** Four components, none longer than 255 characters, that make a path of 1023. */
  function LongPath(): seq<string> { [Repeat('a', 255), Repeat('b', 255), Repeat('c', 255), Repeat('d', 254)] }

  lemma FourNames(a: string, b: string, c: string, d: string)
    ensures |PathOf([a, b, c, d])| == |a| + |b| + |c| + |d| + 4
  {
    hide Join;
    JoinNone();
    JoinSnoc([], a);
    JoinSnoc([a], b);
    JoinSnoc([a, b], c);
    JoinSnoc([a, b, c], d);
    assert [] + [a] == [a] && [a] + [b] == [a, b] && [a, b] + [c] == [a, b, c] && [a, b, c] + [d] == [a, b, c, d];
  }

  lemma JoinNone()
    ensures Join([]) == ""
  {
  }

  lemma LongPathLength()
    ensures |PathOf(LongPath())| == 1023 && forall n :: n in LongPath() ==> ValidName(n)
  {
    FourNames(Repeat('a', 255), Repeat('b', 255), Repeat('c', 255), Repeat('d', 254));
  }

  const FIVE_INODES: seq<bv64> := [2, 3, 4, 5, 6]

  /** A path of 1023 characters, which fh_comp_raw accepts, gets a handle that cannot be resolved. */
  lemma LongPathIsLost()
    ensures var fs, path := TreeFs(Line(LongPath(), FIVE_INODES)), PathOf(LongPath());
            var fh := CompRaw(fs, path, NotExportPoint, false);
            |path| == 1023 < NFS_MAXPATHLEN && fh.inos != [] && DecompRaw(fs, fh) == None
  {
    hide UniqueIds, ValidTree, At, Line, CompRaw, DecompRaw, PathOf, Repeat;
    LongPathLength();
    LineIsValid(LongPath(), FIVE_INODES);
    LineIsUnique(LongPath(), FIVE_INODES);
    RoundTrip(Line(LongPath(), FIVE_INODES), LongPath());
  }

  /** 32 nested directories. */
  function Deep(): (names: seq<string>)
    ensures |names| == 32 && forall n :: n in names ==> ValidName(n)
  {
    seq(32, _ => "d")
  }

  function DeepInodes(): seq<bv64> { seq(33, i requires 0 <= i < 33 => (i + 2) as bv64) }

  function DeepTree(): Node { Line(Deep(), DeepInodes()) }

  /** With 8-byte words, LOOKUPs down 32 directories give a handle of 65 bytes. */
  lemma DeepHandleTooLong()
    ensures At(DeepTree(), Deep()).Some?
    ensures var fh := LookupChain(DeepTree(), Deep(), 0, _ => None);
            fh.Some? && FhLength(fh.value, 8) > NFS3_FHSIZE
  {
    hide At, Line, ValidTree, LookupChain, CompRaw, Deep;
    LineIsValid(Deep(), DeepInodes());
    LookupChainComposes(DeepTree(), Deep(), 0, _ => None, 8);
  }
}
