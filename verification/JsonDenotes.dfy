/** The values that the parser (src/utils/json.c) builds against the tree a text denotes. */
module JsonDenotes {
  import opened Wrappers
  import opened Json
  import opened JsonControl
  import opened JsonTree
  import opened JsonLayout
  import G = JsonGrammar

  /** Value v is the root of tree t: its type, the length of a string with its buffer, and in
      order the members, which have v as their parent. */
  ghost predicate Denotes(vals: seq<Value>, v: nat, t: G.Tree)
    decreases t
  {
    && v < |vals|
    && match t
       case Text(n) => vals[v].ty == Text && vals[v].length == n && |vals[v].mem| == n + 1
       case Number(double) => vals[v].ty == if double then Double else Integer
       case Boolean => vals[v].ty == Boolean
       case Null => vals[v].ty == Null
       case Array(items) =>
         vals[v].ty == Array && HasMembers(vals, v, |items|) &&
         forall k :: 0 <= k < |items| ==> Denotes(vals, vals[v].table[k].child.value, items[k])
       case Object(_, values) =>
         vals[v].ty == Object && HasMembers(vals, v, |values|) &&
         forall k :: 0 <= k < |values| ==> Denotes(vals, vals[v].table[k].child.value, values[k])
  }

  /** The table of v holds n values whose parent is v. */
  ghost predicate HasMembers(vals: seq<Value>, v: nat, n: nat)
    requires v < |vals|
  {
    && |vals[v].table| == vals[v].length == n
    && forall k :: 0 <= k < n ==>
         var c := vals[v].table[k].child;
         c.Some? && c.value < |vals| && vals[c.value].parent == Some(v)
  }

  // ------------------------------------------------------------ the places of kids

  function Size(t: G.Tree): nat {
    match t
    case Array(items) => 1 + SizeAll(items)
    case Object(_, values) => 1 + SizeAll(values)
    case _ => 1
  }

  function SizeAll(ts: seq<G.Tree>): nat {
    if ts == [] then 0 else Size(ts[0]) + SizeAll(ts[1..])
  }

  lemma {:induction false} LayoutSize(t: G.Tree, base: nat, parent: Option<nat>)
    ensures |Layout(t, base, parent)| == Size(t) > 0
    decreases t
  {
    match t
    case Array(items) => LayoutAllSize(items, base + 1, base);
    case Object(_, values) => LayoutAllSize(values, base + 1, base);
    case _ =>
  }

  lemma {:induction false} LayoutAllSize(ts: seq<G.Tree>, base: nat, parent: nat)
    ensures |LayoutAll(ts, base, parent)| == SizeAll(ts)
    decreases ts
  {
    if ts != [] {
      LayoutSize(ts[0], base, Some(parent));
      LayoutAllSize(ts[1..], base + Size(ts[0]), parent);
    }
  }

  /** Where the k-th of several trees starts. */
  function KidAt(ts: seq<G.Tree>, base: nat, k: nat): nat
    requires k <= |ts|
    decreases k
  {
    if k == 0 then base else KidAt(ts[1..], base + Size(ts[0]), k - 1)
  }

  lemma {:induction false} KidLayout(ts: seq<G.Tree>, base: nat, parent: nat, k: nat)
    requires k < |ts|
    ensures var all, at := LayoutAll(ts, base, parent), KidAt(ts, base, k);
            && base <= at && at + Size(ts[k]) <= base + |all| && Size(ts[k]) > 0
            && all[at - base..at - base + Size(ts[k])] == Layout(ts[k], at, Some(parent))
    decreases k
  {
    hide *;
    LayoutFirst(ts, base, parent);
    var first := Layout(ts[0], base, Some(parent));
    var rest := LayoutAll(ts[1..], base + |first|, parent);
    KidAtIs(ts, base, k);
    if k == 0 {
      assert (first + rest)[0..|first|] == first;
    } else {
      KidLayout(ts[1..], base + |first|, parent, k - 1);
      Behind(first, rest, KidAt(ts, base, k) - base - |first|, Size(ts[k]));
    }
  }

  lemma LayoutFirst(ts: seq<G.Tree>, base: nat, parent: nat)
    requires ts != []
    ensures |Layout(ts[0], base, Some(parent))| == Size(ts[0]) > 0
    ensures LayoutAll(ts, base, parent)
         == Layout(ts[0], base, Some(parent)) + LayoutAll(ts[1..], base + Size(ts[0]), parent)
  {
    hide Layout, Size;
    LayoutSize(ts[0], base, Some(parent));
  }

  lemma KidAtIs(ts: seq<G.Tree>, base: nat, k: nat)
    requires k < |ts|
    ensures KidAt(ts, base, k) == if k == 0 then base else KidAt(ts[1..], base + Size(ts[0]), k - 1)
  {
  }

  lemma Behind<T>(first: seq<T>, rest: seq<T>, i: nat, n: nat)
    requires i + n <= |rest|
    ensures (first + rest)[i + |first|..i + |first| + n] == rest[i..i + n]
  {
  }

  lemma {:induction false} KidsGrow(ts: seq<G.Tree>, base: nat, j: nat, k: nat)
    requires j < k < |ts|
    ensures KidAt(ts, base, j) < KidAt(ts, base, k)
    decreases k
  {
    LayoutSize(ts[0], base, None);
    if j > 0 {
      KidsGrow(ts[1..], base + Size(ts[0]), j - 1, k - 1);
    } else {
      KidLayout(ts[1..], base + Size(ts[0]), 0, k - 1);
    }
  }

  // --------------------------------------------------------- increasing sequences

  ghost predicate Increasing(a: seq<nat>) { forall i, j :: 0 <= i < j < |a| ==> a[i] < a[j] }

  lemma {:induction false} NotBefore(a: seq<nat>, b: seq<nat>, k: nat, q: nat)
    requires Increasing(a) && Increasing(b) && (forall x :: x in b ==> x in a)
    requires k < |b| && q < |a| && a[q] == b[k]
    ensures k <= q
  {
    if k > 0 {
      assert b[k - 1] in b;
      var p :| 0 <= p < |a| && a[p] == b[k - 1];
      NotBefore(a, b, k - 1, p);
      assert p < q;
    }
  }

  lemma {:induction false} NotBehind(a: seq<nat>, b: seq<nat>, k: nat, q: nat)
    requires Increasing(a) && Increasing(b) && |a| == |b| && (forall x :: x in b ==> x in a)
    requires k < |b| && q < |a| && a[q] == b[k]
    ensures q <= k
    decreases |b| - k
  {
    if k + 1 < |b| {
      assert b[k + 1] in b;
      var p :| 0 <= p < |a| && a[p] == b[k + 1];
      NotBehind(a, b, k + 1, p);
      assert q < p;
    }
  }

  /** Increasing sequences of one length are equal if one lists only elements of the other. */
  lemma SameList(a: seq<nat>, b: seq<nat>)
    requires Increasing(a) && Increasing(b) && |a| == |b| && forall x :: x in b ==> x in a
    ensures a == b
  {
    forall k | 0 <= k < |b| ensures a[k] == b[k] {
      assert b[k] in b;
      var q :| 0 <= q < |a| && a[q] == b[k];
      NotBefore(a, b, k, q);
      NotBehind(a, b, k, q);
    }
  }

  // ------------------------------------------------------------------ the result

  /** Parents, types and lengths are those measured. */
  ghost predicate Matches(vals: seq<Value>, F: seq<Value>) {
    |vals| == |F| && forall i :: 0 <= i < |F| ==> MatchesAt(vals[i], F[i])
  }

  ghost predicate MatchesAt(w: Value, f: Value) {
    && w.parent == f.parent && w.ty == f.ty && (IsContainer(f.ty) || f.ty == Text ==> w.length == f.length)
    && (f.ty == Text ==> |w.mem| == f.length + 1)
  }

  /** Tree t is laid out from `base` on. */
  ghost predicate LaidOut(F: seq<Value>, t: G.Tree, base: nat, parent: Option<nat>) {
    base + Size(t) <= |F| && F[base..base + Size(t)] == Layout(t, base, parent)
  }

  lemma KidLaidOut(F: seq<Value>, t: G.Tree, base: nat, parent: Option<nat>, k: nat)
    requires LaidOut(F, t, base, parent) && k < |Kids(t)|
    ensures var at := KidAt(Kids(t), base + 1, k);
            base < at < |F| && LaidOut(F, Kids(t)[k], at, Some(base)) && F[at].parent == Some(base)
  {
    hide *;
    var ts, at := Kids(t), KidAt(Kids(t), base + 1, k);
    var node, all := Node(TypeOf(t), parent, LengthOf(t), AreaOf(t)), LayoutAll(Kids(t), base + 1, base);
    LaidOutParts(F, t, base, parent);
    LayoutKids(t, base, parent);
    KidLayout(ts, base + 1, base, k);
    Slices(F, base, Size(t), node, all, at, Size(ts[k]));
    LaidOutFrom(F, ts[k], at, Some(base));
  }

  lemma LaidOutParts(F: seq<Value>, t: G.Tree, base: nat, parent: Option<nat>)
    requires LaidOut(F, t, base, parent)
    ensures base + Size(t) <= |F| && F[base..base + Size(t)] == Layout(t, base, parent)
    ensures Size(t) == 1 + |LayoutAll(Kids(t), base + 1, base)|
  {
    hide Layout, Size;
    LayoutKids(t, base, parent);
    LayoutSize(t, base, parent);
  }

  lemma LaidOutFrom(F: seq<Value>, t: G.Tree, base: nat, parent: Option<nat>)
    requires base + Size(t) <= |F| && F[base..base + Size(t)] == Layout(t, base, parent)
    ensures LaidOut(F, t, base, parent) && base < |F| && F[base].parent == parent
  {
    hide Layout;
    LayoutKids(t, base, parent);
    LayoutSize(t, base, parent);
    assert F[base] == F[base..base + Size(t)][0];
  }

  lemma Slices<T>(F: seq<T>, base: nat, len: nat, node: T, all: seq<T>, at: nat, n: nat)
    requires base + len <= |F| && F[base..base + len] == [node] + all && base < at && at + n <= base + 1 + |all|
    ensures at + n <= |F| && F[at..at + n] == all[at - base - 1..at - base - 1 + n]
  {
    var whole, part, want := F[base..base + len], F[at..at + n], all[at - base - 1..at - base - 1 + n];
    forall i | 0 <= i < n ensures part[i] == want[i] {
      assert part[i] == F[at + i] == whole[at - base + i];
    }
  }

  lemma KidInTable(vals: seq<Value>, F: seq<Value>, t: G.Tree, base: nat, parent: Option<nat>, k: nat)
    requires Matches(vals, F) && IsTree(vals) && LaidOut(F, t, base, parent) && base < |vals| && k < |Kids(t)|
    ensures InTable(vals, base, KidAt(Kids(t), base + 1, k))
  {
    hide LaidOut, KidAt, Layout, Kids, InTable;
    KidLaidOut(F, t, base, parent, k);
    var x := KidAt(Kids(t), base + 1, k);
    assert MatchesAt(vals[x], F[x]);
  }

  function Children(table: seq<Entry>): seq<nat>
    requires forall k :: 0 <= k < |table| ==> table[k].child.Some?
  {
    seq(|table|, k requires 0 <= k < |table| => table[k].child.value)
  }

  function Places(ts: seq<G.Tree>, base: nat): seq<nat> {
    seq(|ts|, k requires 0 <= k < |ts| => KidAt(ts, base, k))
  }

  lemma PlacesGrow(ts: seq<G.Tree>, base: nat)
    ensures Increasing(Places(ts, base))
  {
    hide KidAt;
    forall i, j | 0 <= i < j < |ts| ensures Places(ts, base)[i] < Places(ts, base)[j] { KidsGrow(ts, base, i, j); }
  }

  /** A full table that lists all of as many increasing places lists them in order. */
  lemma TableLists(vals: seq<Value>, v: nat, places: seq<nat>)
    requires v < |vals| && FullTable(vals, v) && Increasing(places) && |places| == vals[v].length
    requires forall k :: 0 <= k < |places| ==> InTable(vals, v, places[k])
    ensures HasMembers(vals, v, |places|)
    ensures forall k :: 0 <= k < |places| ==> vals[v].table[k].child.value == places[k]
  {
    var table := vals[v].table;
    var a := Children(table);
    forall x | x in places ensures x in a {
      var k :| 0 <= k < |places| && places[k] == x;
      var q :| 0 <= q < |table| && table[q].child == Some(places[k]);
      assert a[q] == x;
    }
    SameList(a, places);
    assert forall k :: 0 <= k < |places| ==> a[k] == table[k].child.value;
  }

  /** The table of a container holds its members in order. */
  lemma TableIsKids(vals: seq<Value>, F: seq<Value>, t: G.Tree, base: nat, parent: Option<nat>)
    requires Matches(vals, F) && IsTree(vals) && LaidOut(F, t, base, parent) && base < |vals| && (t.Array? || t.Object?)
    requires vals[base].ty == TypeOf(t) && vals[base].length == |Kids(t)|
    ensures HasMembers(vals, base, |Kids(t)|)
    ensures forall k :: 0 <= k < |Kids(t)| ==> vals[base].table[k].child.value == KidAt(Kids(t), base + 1, k)
  {
    hide *;
    ContainerFull(vals, base, t);
    var ts, places := Kids(t), Places(Kids(t), base + 1);
    PlacesGrow(ts, base + 1);
    PlacesAre(ts, base + 1);
    forall k | 0 <= k < |places| ensures InTable(vals, base, places[k]) {
      KidInTable(vals, F, t, base, parent, k);
    }
    TableLists(vals, base, places);
  }

  lemma ContainerFull(vals: seq<Value>, v: nat, t: G.Tree)
    requires IsTree(vals) && v < |vals| && vals[v].ty == TypeOf(t) && (t.Array? || t.Object?)
    ensures FullTable(vals, v)
  {
    hide FullTable;
  }

  lemma PlacesAre(ts: seq<G.Tree>, base: nat)
    ensures |Places(ts, base)| == |ts| && forall k :: 0 <= k < |ts| ==> Places(ts, base)[k] == KidAt(ts, base, k)
  {
    hide KidAt;
  }

  /** Where tree t is laid out, the values built denote it. */
  lemma {:induction false} LayoutDenotes(vals: seq<Value>, F: seq<Value>, t: G.Tree, base: nat, parent: Option<nat>)
    requires Matches(vals, F) && IsTree(vals) && LaidOut(F, t, base, parent)
    ensures Denotes(vals, base, t)
    decreases t
  {
    RootLaidOut(F, t, base, parent);
    assert MatchesAt(vals[base], F[base]);
    hide LaidOut, Layout, IsTree, Matches, HasMembers;
    match t
    case Array(items) =>
      TableIsKids(vals, F, t, base, parent);
      forall k | 0 <= k < |items| ensures Denotes(vals, vals[base].table[k].child.value, items[k]) {
        KidLaidOut(F, t, base, parent, k);
        LayoutDenotes(vals, F, items[k], KidAt(items, base + 1, k), Some(base));
      }
    case Object(_, values) =>
      TableIsKids(vals, F, t, base, parent);
      forall k | 0 <= k < |values| ensures Denotes(vals, vals[base].table[k].child.value, values[k]) {
        KidLaidOut(F, t, base, parent, k);
        LayoutDenotes(vals, F, values[k], KidAt(values, base + 1, k), Some(base));
      }
    case _ =>
  }

  lemma RootLaidOut(F: seq<Value>, t: G.Tree, base: nat, parent: Option<nat>)
    requires LaidOut(F, t, base, parent)
    ensures base < |F| && F[base] == Node(TypeOf(t), parent, LengthOf(t), AreaOf(t))
  {
    hide Layout;
    LayoutKids(t, base, parent);
    LayoutSize(t, base, parent);
    assert F[base] == F[base..base + Size(t)][0];
  }
}
