/** Freeing a parsed tree (json_value_free_ex): the traversal keeps no stack, it only
    shortens lengths and follows parent links. */
module JsonFree {
  import opened Wrappers
  import opened Json
  import opened JsonControl
  import opened JsonMeasure
  import opened JsonTree
  import JsonParse
  import opened JsonDenotes
  import G = JsonGrammar

  function Child(vals: seq<Value>, v: nat, k: nat): nat
    requires v < |vals| && k < |vals[v].table| && vals[v].table[k].child.Some?
  {
    vals[v].table[k].child.value
  }

  lemma KidOf(vals: seq<Value>, v: nat, k: nat) returns (c: nat)
    requires IsTree(vals) && v < |vals| && k < Kids(vals, v)
    ensures Arena(vals) && FullTable(vals, v) && c == Child(vals, v, k)
    ensures v < c < |vals| && vals[c].parent == Some(v) && OnStack(vals, c, v)
  {
    assert FullTable(vals, v);
    c := Child(vals, v, k);
  }

  lemma TreeArena(vals: seq<Value>)
    requires IsTree(vals)
    ensures Arena(vals)
  {
  }

  /** The first k children of `v`, the last one first, each with everything below it. */
  ghost function Below(vals: seq<Value>, v: nat, k: nat): seq<nat>
    requires IsTree(vals) && v < |vals| && k <= Kids(vals, v)
    decreases |vals| - v, 0, k
  {
    if k == 0 then []
    else
      assert FullTable(vals, v);
      Order(vals, Child(vals, v, k - 1)) + Below(vals, v, k - 1)
  }

  lemma BelowUnfold(vals: seq<Value>, v: nat, k: nat)
    requires IsTree(vals) && v < |vals| && 0 < k <= Kids(vals, v)
    ensures FullTable(vals, v) && Below(vals, v, k) == Order(vals, Child(vals, v, k - 1)) + Below(vals, v, k - 1)
  {
    assert FullTable(vals, v);
  }

  /** The order in which `v` and everything below it is freed: children before parents. */
  ghost function Order(vals: seq<Value>, v: nat): seq<nat>
    requires IsTree(vals) && v < |vals|
    decreases |vals| - v, 1, 0
  {
    Below(vals, v, Kids(vals, v)) + [v]
  }

  function Kids(vals: seq<Value>, v: nat): nat
    requires v < |vals|
  {
    if IsContainer(vals[v].ty) then vals[v].length else 0
  }

  // --------------------------------------------------------- what is in there

  ghost predicate NoDup<T>(s: seq<T>) { forall i, j :: 0 <= i < j < |s| ==> s[i] != s[j] }

  lemma NoDupConcat<T>(a: seq<T>, b: seq<T>)
    requires NoDup(a) && NoDup(b) && forall x :: x in a ==> x !in b
    ensures NoDup(a + b)
  {
    var s := a + b;
    forall i, j | 0 <= i < j < |s| ensures s[i] != s[j] {
      if i < |a| && j >= |a| { assert s[i] in a && s[j] in b; }
    }
  }

  lemma NoDupSplit(a: seq<nat>, b: seq<nat>)
    requires NoDup(a + b)
    ensures forall x :: x in b ==> x !in a
  {
    forall x | x in b ensures x !in a {
      var j :| 0 <= j < |b| && b[j] == x;
      forall i | 0 <= i < |a| ensures a[i] != x {
        assert (a + b)[i] == a[i] && (a + b)[|a| + j] == x;
      }
    }
  }

  /** Ancestors of one value with the same parent are the same. */
  lemma {:induction false} OneBranch(vals: seq<Value>, u: nat, c: nat, d: nat)
    requires Arena(vals) && u < |vals| && OnStack(vals, u, c) && OnStack(vals, u, d)
    requires c < |vals| && d < |vals| && vals[c].parent == vals[d].parent && vals[c].parent.Some?
    ensures c == d
    decreases u
  {
    var p := vals[c].parent.value;
    if u == c && u != d {
      OnStackOlder(vals, vals[u].parent.value, d);
    } else if u == d && u != c {
      OnStackOlder(vals, vals[u].parent.value, c);
    } else if u != c {
      OneBranch(vals, vals[u].parent.value, c, d);
    }
  }

  lemma {:induction false} OnStackTrans(vals: seq<Value>, u: nat, c: nat, v: nat)
    requires Arena(vals) && u < |vals| && c < |vals| && OnStack(vals, u, c) && OnStack(vals, c, v)
    ensures OnStack(vals, u, v)
    decreases u
  {
    if u != c { OnStackTrans(vals, vals[u].parent.value, c, v); }
  }

  /** The child of `v` on the way up from a descendant. */
  lemma {:induction false} ChildTowards(vals: seq<Value>, u: nat, v: nat) returns (c: nat)
    requires Arena(vals) && u < |vals| && OnStack(vals, u, v) && u != v
    ensures c < |vals| && vals[c].parent == Some(v) && OnStack(vals, u, c)
    decreases u
  {
    var p := vals[u].parent.value;
    if p == v { c := u; } else { c := ChildTowards(vals, p, v); }
  }

  /** Order(v) lists v and its descendants, each once. */
  lemma {:induction false} OrderLists(vals: seq<Value>, v: nat)
    requires IsTree(vals) && v < |vals|
    ensures NoDup(Order(vals, v))
    ensures forall u: nat :: u in Order(vals, v) <==> u < |vals| && OnStack(vals, u, v)
    decreases |vals| - v, 1, 0
  {
    var n := Kids(vals, v);
    BelowLists(vals, v, n);
    var below := Below(vals, v, n);
    forall u | u in below ensures u != v && u < |vals| && OnStack(vals, u, v) {
      var k :| 0 <= k < n && UnderKid(vals, v, k, u);
      StrictlyUnder(vals, v, k, u);
    }
    forall u: nat | u < |vals| && OnStack(vals, u, v) && u != v ensures u in below {
      var c := ChildTowards(vals, u, v);
      assert InTable(vals, v, c);
      var k :| 0 <= k < |vals[v].table| && vals[v].table[k].child == Some(c);
      assert IsContainer(vals[v].ty) && FullTable(vals, v);
      assert UnderKid(vals, v, k, u);
    }
    NoDupConcat(below, [v]);
  }

  /** `u` is the k-th child of `v` or below it. */
  ghost predicate UnderKid(vals: seq<Value>, v: nat, k: nat, u: nat)
    requires IsTree(vals) && v < |vals| && k < Kids(vals, v)
  {
    assert FullTable(vals, v);
    u < |vals| && OnStack(vals, u, Child(vals, v, k))
  }

  lemma StrictlyUnder(vals: seq<Value>, v: nat, k: nat, u: nat)
    requires IsTree(vals) && v < |vals| && k < Kids(vals, v) && UnderKid(vals, v, k, u)
    ensures u < |vals| && u != v && OnStack(vals, u, v)
  {
    assert FullTable(vals, v);
    var c := Child(vals, v, k);
    OnStackOlder(vals, u, c);
    OnStackTrans(vals, u, c, v);
  }

  lemma UnderKidIs(vals: seq<Value>, v: nat, k: nat)
    requires IsTree(vals) && v < |vals| && k < Kids(vals, v)
    ensures FullTable(vals, v)
    ensures forall u: nat :: UnderKid(vals, v, k, u) <==> u < |vals| && OnStack(vals, u, Child(vals, v, k))
  {
    assert FullTable(vals, v);
  }

  /** Nothing is below two children. */
  lemma KidsApart(vals: seq<Value>, v: nat, j: nat, k: nat, u: nat)
    requires IsTree(vals) && v < |vals| && j < k < Kids(vals, v) && UnderKid(vals, v, j, u)
    ensures !UnderKid(vals, v, k, u)
  {
    hide OnStack;
    if UnderKid(vals, v, k, u) {
      var c := KidOf(vals, v, j);
      var d := KidOf(vals, v, k);
      OneBranch(vals, u, c, d);
    }
  }

  lemma {:induction false} BelowLists(vals: seq<Value>, v: nat, k: nat)
    requires IsTree(vals) && v < |vals| && k <= Kids(vals, v)
    ensures NoDup(Below(vals, v, k))
    ensures forall u :: u in Below(vals, v, k) <==> exists j :: 0 <= j < k && UnderKid(vals, v, j, u)
    decreases |vals| - v, 0, k
  {
    hide *;
    if k == 0 {
      BelowNone(vals, v);
    } else {
      var c := KidOf(vals, v, k - 1);
      OrderLists(vals, c);
      BelowLists(vals, v, k - 1);
      BelowUnfold(vals, v, k);
      UnderKidIs(vals, v, k - 1);
      forall u | u in Order(vals, c) ensures u !in Below(vals, v, k - 1) {
        forall j | 0 <= j < k - 1 ensures !UnderKid(vals, v, j, u) {
          if UnderKid(vals, v, j, u) { KidsApart(vals, v, j, k - 1, u); }
        }
      }
      NoDupConcat(Order(vals, c), Below(vals, v, k - 1));
    }
  }

  /** The whole tree is below the first value. */
  lemma {:induction false} AllUnderRoot(vals: seq<Value>, u: nat)
    requires Arena(vals) && u < |vals|
    ensures OnStack(vals, u, 0)
    decreases u
  {
    if vals[u].parent.Some? { AllUnderRoot(vals, vals[u].parent.value); }
  }

  /** Every value of the tree exactly once, children before parents. */
  lemma OrderFromRoot(vals: seq<Value>)
    requires IsTree(vals) && vals != []
    ensures NoDup(Order(vals, 0)) && (forall u: nat :: u in Order(vals, 0) <==> u < |vals|)
    ensures ChildrenFirst(vals, Order(vals, 0))
  {
    hide ChildrenFirst, NoDup;
    OrderChildrenFirst(vals, 0);
    OrderLists(vals, 0);
    forall u: nat | u < |vals| ensures OnStack(vals, u, 0) { AllUnderRoot(vals, u); }
  }

  /** No value comes before one of its children. */
  ghost predicate ChildrenFirst(vals: seq<Value>, s: seq<nat>) {
    forall i, c :: 0 <= i < |s| && 0 <= c < |vals| && vals[c].parent == Some(s[i]) ==> c in s[..i]
  }

  lemma ChildrenFirstConcat(vals: seq<Value>, a: seq<nat>, b: seq<nat>)
    requires ChildrenFirst(vals, a) && ChildrenFirst(vals, b)
    ensures ChildrenFirst(vals, a + b)
  {
    var s := a + b;
    forall i, c | 0 <= i < |s| && 0 <= c < |vals| && vals[c].parent == Some(s[i]) ensures c in s[..i] {
      if i < |a| {
        assert s[..i] == a[..i];
      } else {
        assert c in b[..i - |a|];
        assert s[..i] == a + b[..i - |a|];
      }
    }
  }

  lemma {:induction false} OrderChildrenFirst(vals: seq<Value>, v: nat)
    requires IsTree(vals) && v < |vals|
    ensures ChildrenFirst(vals, Order(vals, v))
    decreases |vals| - v, 1, 0
  {
    var n := Kids(vals, v);
    var below := Below(vals, v, n);
    BelowChildrenFirst(vals, v, n);
    BelowLists(vals, v, n);
    forall i, c | 0 <= i < |below + [v]| && 0 <= c < |vals| && vals[c].parent == Some((below + [v])[i])
      ensures c in (below + [v])[..i]
    {
      if i < |below| {
        assert c in below[..i];
        assert (below + [v])[..i] == below[..i];
      } else {
        assert InTable(vals, v, c) && IsContainer(vals[v].ty) && FullTable(vals, v);
        var k :| 0 <= k < |vals[v].table| && vals[v].table[k].child == Some(c);
        assert UnderKid(vals, v, k, c);
        assert (below + [v])[..i] == below;
      }
    }
  }

  lemma BelowNone(vals: seq<Value>, v: nat)
    requires IsTree(vals) && v < |vals|
    ensures Below(vals, v, 0) == [] && ChildrenFirst(vals, []) && NoDup<nat>([])
  {
  }

  lemma {:induction false} BelowChildrenFirst(vals: seq<Value>, v: nat, k: nat)
    requires IsTree(vals) && v < |vals| && k <= Kids(vals, v)
    ensures ChildrenFirst(vals, Below(vals, v, k))
    decreases |vals| - v, 0, k
  {
    hide *;
    if k == 0 {
      BelowNone(vals, v);
    } else {
      var c := KidOf(vals, v, k - 1);
      BelowUnfold(vals, v, k);
      OrderChildrenFirst(vals, c);
      BelowChildrenFirst(vals, v, k - 1);
      ChildrenFirstConcat(vals, Order(vals, c), Below(vals, v, k - 1));
    }
  }

  // ---------------------------------------------------------- allocated blocks

  /** What is allocated: a value, and the table or string it owns. Names are part of the table. */
  datatype Block = Node(v: nat) | Buffer(v: nat)

  /** Pass 2 attached memory to the value. */
  predicate Attached(w: Value) { w.mem != [] || w.table != [] }

  /** Every value, and whatever memory pass 2 attached to it. */
  predicate Allocated(vals: seq<Value>, b: Block) {
    b.v < |vals| && (b.Buffer? ==> Attached(vals[b.v]))
  }

  function Own(vals: seq<Value>, v: nat): seq<Block>
    requires v < |vals|
  {
    (if Attached(vals[v]) then [Buffer(v)] else []) + [Node(v)]
  }

  /** A string has its buffer, a container its table unless it is empty; nothing else has memory. */
  ghost predicate TypedMemory(vals: seq<Value>) {
    forall v :: 0 <= v < |vals| ==> TypedAt(vals[v])
  }

  predicate TypedAt(w: Value) {
    Attached(w) <==> w.ty == Text || (IsContainer(w.ty) && w.table != [])
  }

  ghost predicate Inside(vals: seq<Value>, s: seq<nat>) { forall i :: 0 <= i < |s| ==> s[i] < |vals| }

  /** The blocks of the values in `s`. */
  ghost function Blocks(vals: seq<Value>, s: seq<nat>): seq<Block>
    requires Inside(vals, s)
  {
    if s == [] then [] else Blocks(vals, s[..|s| - 1]) + Own(vals, s[|s| - 1])
  }

  lemma BlocksSnoc(vals: seq<Value>, s: seq<nat>, v: nat)
    requires Inside(vals, s) && v < |vals|
    ensures Inside(vals, s + [v]) && Blocks(vals, s + [v]) == Blocks(vals, s) + Own(vals, v)
  {
    assert (s + [v])[..|s|] == s;
  }

  lemma {:induction false} BlocksList(vals: seq<Value>, s: seq<nat>)
    requires NoDup(s) && Inside(vals, s)
    ensures NoDup(Blocks(vals, s))
    ensures forall b :: b in Blocks(vals, s) <==> b.v in s && Allocated(vals, b)
  {
    if s != [] {
      var k := |s| - 1;
      assert s == s[..k] + [s[k]];
      BlocksList(vals, s[..k]);
      assert s[k] !in s[..k];
      NoDupConcat(Blocks(vals, s[..k]), Own(vals, s[k]));
    }
  }

  /** A table is freed after the children it leads to, a value after what it owns. */
  ghost predicate SafeOrder(vals: seq<Value>, freed: seq<Block>) {
    && (forall i, c :: 0 <= i < |freed| && 0 <= c < |vals| && vals[c].parent == Some(freed[i].v) ==>
          Node(c) in freed[..i])
    && (forall i :: 0 <= i < |freed| && freed[i].Node? && freed[i].v < |vals| && Attached(vals[freed[i].v]) ==>
          Buffer(freed[i].v) in freed[..i])
  }

  lemma {:induction false} BlocksSafe(vals: seq<Value>, s: seq<nat>)
    requires ChildrenFirst(vals, s) && Inside(vals, s)
    ensures SafeOrder(vals, Blocks(vals, s))
    ensures forall v :: v in s ==> Node(v) in Blocks(vals, s)
  {
    if s != [] {
      var k := |s| - 1;
      var v, before := s[k], Blocks(vals, s[..k]);
      assert s == s[..k] + [v];
      ChildrenFirstPrefix(vals, s, k);
      BlocksSafe(vals, s[..k]);
      SafeSnoc(vals, before, v);
    }
  }

  lemma ChildrenFirstPrefix(vals: seq<Value>, s: seq<nat>, k: nat)
    requires ChildrenFirst(vals, s) && k < |s|
    ensures ChildrenFirst(vals, s[..k])
    ensures forall c :: 0 <= c < |vals| && vals[c].parent == Some(s[k]) ==> c in s[..k]
  {
    forall i, c | 0 <= i < k && 0 <= c < |vals| && vals[c].parent == Some(s[..k][i]) ensures c in s[..k][..i] {
      assert s[..k][..i] == s[..i];
    }
  }

  lemma SafeSnoc(vals: seq<Value>, before: seq<Block>, v: nat)
    requires SafeOrder(vals, before) && v < |vals|
    requires forall c :: 0 <= c < |vals| && vals[c].parent == Some(v) ==> Node(c) in before
    ensures SafeOrder(vals, before + Own(vals, v))
  {
    var all := before + Own(vals, v);
    forall i, c | 0 <= i < |all| && 0 <= c < |vals| && vals[c].parent == Some(all[i].v) ensures Node(c) in all[..i] {
      if i < |before| {
        assert all[..i] == before[..i];
      } else {
        assert Node(c) in before && before <= all[..i];
      }
    }
    forall i | 0 <= i < |all| && all[i].Node? && all[i].v < |vals| && Attached(vals[all[i].v])
      ensures Buffer(all[i].v) in all[..i]
    {
      if i < |before| {
        assert all[..i] == before[..i];
      } else {
        assert i == |before| + 1 && all[..i][|before|] == Buffer(v);
      }
    }
  }

  /** Everything allocated has been freed once, in a safe order. */
  ghost predicate FreedOnce(vals: seq<Value>, freed: seq<Block>) {
    NoDup(freed) && (forall b :: b in freed <==> Allocated(vals, b)) && SafeOrder(vals, freed)
  }

  /** Freeing from the root frees every value, table and string of the tree exactly once, and
      none before the last time the traversal looks at it. */
  lemma FreesEachOnce(vals: seq<Value>)
    requires IsTree(vals) && vals != []
    ensures Inside(vals, Order(vals, 0)) && FreedOnce(vals, Blocks(vals, Order(vals, 0)))
  {
    hide NoDup, SafeOrder, ChildrenFirst, Order, Blocks, IsTree;
    OrderFromRoot(vals);
    assert forall i :: 0 <= i < |Order(vals, 0)| ==> Order(vals, 0)[i] in Order(vals, 0);
    BlocksList(vals, Order(vals, 0));
    BlocksSafe(vals, Order(vals, 0));
  }

  // ------------------------------------------------------------ the traversal

  /** `h` is the tree `vals` with some lengths reduced. */
  ghost predicate Shrunk(vals: seq<Value>, h: seq<Value>) {
    && |h| == |vals|
    && forall i :: 0 <= i < |vals| ==>
         h[i].ty == vals[i].ty && h[i].table == vals[i].table && Kids(h, i) <= Kids(vals, i)
  }

  /** What is still to be freed when the traversal stands at `v`. */
  ghost function Rest(vals: seq<Value>, h: seq<Value>, root: nat, v: nat): seq<nat>
    requires IsTree(vals) && Shrunk(vals, h) && v < |vals| && OnStack(vals, v, root)
    decreases v
  {
    Below(vals, v, Kids(h, v)) + [v] + if v == root then [] else Rest(vals, h, root, vals[v].parent.value)
  }

  lemma {:induction false} RestSame(vals: seq<Value>, h: seq<Value>, g: seq<Value>, root: nat, v: nat)
    requires IsTree(vals) && Shrunk(vals, h) && Shrunk(vals, g) && v < |vals| && OnStack(vals, v, root)
    requires forall u :: 0 <= u <= v ==> Kids(h, u) == Kids(g, u)
    ensures Rest(vals, h, root, v) == Rest(vals, g, root, v)
    decreases v
  {
    if v != root { RestSame(vals, h, g, root, vals[v].parent.value); }
  }

  /** Going down into the last remaining child changes nothing about what is to be freed. */
  lemma RestDown(vals: seq<Value>, h: seq<Value>, root: nat, v: nat, g: seq<Value>)
    requires IsTree(vals) && Shrunk(vals, h) && v < |vals| && OnStack(vals, v, root) && Kids(h, v) > 0
    requires g == h[v := h[v].(length := h[v].length - 1)]
    requires FullTable(vals, v)
    requires var c := Child(vals, v, h[v].length - 1); Kids(h, c) == Kids(vals, c)
    ensures var c := Child(vals, v, h[v].length - 1);
            && Shrunk(vals, g) && v < c < |vals| && OnStack(vals, c, root)
            && Rest(vals, g, root, c) == Rest(vals, h, root, v)
  {
    hide *;
    ShrunkMore(vals, h, v, g);
    var c := KidOf(vals, v, Kids(h, v) - 1);
    BelowUnfold(vals, v, Kids(h, v));
    OnStackTrans(vals, c, v, root);
    RootNotBelow(vals, v, c, root);
    RestUnfold(vals, h, root, v);
    RestUnfold(vals, g, root, v);
    if v != root {
      ParentOlder(vals, v);
      RestSame(vals, h, g, root, vals[v].parent.value);
    }
    RestAtKid(vals, g, root, v, c);
  }

  lemma ShrunkMore(vals: seq<Value>, h: seq<Value>, v: nat, g: seq<Value>)
    requires Shrunk(vals, h) && v < |vals| && Kids(h, v) > 0 && g == h[v := h[v].(length := h[v].length - 1)]
    ensures |h| == |g| == |vals| && Shrunk(vals, g)
    ensures Kids(g, v) == Kids(h, v) - 1 && Kids(h, v) == h[v].length <= Kids(vals, v)
    ensures forall u :: 0 <= u < |vals| && u != v ==> Kids(g, u) == Kids(h, u)
  {
  }

  lemma RestUnfold(vals: seq<Value>, h: seq<Value>, root: nat, v: nat)
    requires IsTree(vals) && Shrunk(vals, h) && v < |vals| && OnStack(vals, v, root)
    ensures v != root ==> vals[v].parent.Some? && OnStack(vals, vals[v].parent.value, root)
    ensures Rest(vals, h, root, v) ==
            Below(vals, v, Kids(h, v)) + [v] + if v == root then [] else Rest(vals, h, root, vals[v].parent.value)
  {
    hide IsTree, Below;
  }

  lemma ParentOlder(vals: seq<Value>, v: nat)
    requires Arena(vals) && v < |vals|
    ensures vals[v].parent.Some? ==> vals[v].parent.value < v
  {
  }

  lemma RootNotBelow(vals: seq<Value>, v: nat, c: nat, root: nat)
    requires Arena(vals) && v < c < |vals| && OnStack(vals, v, root)
    ensures c != root && (v != root ==> vals[v].parent.Some?)
  {
    OnStackOlder(vals, v, root);
  }

  lemma RestAtKid(vals: seq<Value>, g: seq<Value>, root: nat, v: nat, c: nat)
    requires IsTree(vals) && Shrunk(vals, g) && v < c < |vals| && OnStack(vals, v, root) && OnStack(vals, c, root)
    requires c != root && vals[c].parent == Some(v) && Kids(g, c) == Kids(vals, c)
    ensures Rest(vals, g, root, c) == Order(vals, c) + Rest(vals, g, root, v)
  {
    hide IsTree, OnStack, Below;
  }

  /** json_value_free_ex: frees exactly the values below `root` with what they own, in the
      order of `Order`, although it keeps no record of where it has been. */
  method FreeValue(vals: seq<Value>, root: nat) returns (freed: seq<Block>)
    requires IsTree(vals) && TypedMemory(vals) && root < |vals|
    ensures Inside(vals, Order(vals, root)) && freed == Blocks(vals, Order(vals, root))
  {
    hide IsTree, OnStack, Order, Rest, Standing, Blocks, Inside, Shrunk, TypedMemory;
    var heap := new Value[|vals|](i requires 0 <= i < |vals| => vals[i]);
    heap[root] := heap[root].(parent := None);
    freed := [];
    ghost var order: seq<nat> := [];
    var value: Option<nat> := Some(root);
    assert heap[..] == vals[root := vals[root].(parent := None)];
    StartRest(vals, heap[..], root);
    while value.Some?
      invariant Shrunk(vals, heap[..])
      invariant forall i :: 0 <= i < |vals| ==> heap[i].parent == if i == root then None else vals[i].parent
      invariant Standing(vals, heap[..], root, value, order)
      invariant Inside(vals, order) && freed == Blocks(vals, order)
      invariant value.Some? ==> value.value < |vals| && |order| < |Order(vals, root)|
      decreases |Order(vals, root)| - |order|, if value.Some? then |vals| - value.value else 0
    {
      var v := value.value;
      assert heap[..][v] == heap[v];
      if IsContainer(heap[v].ty) && heap[v].length > 0 {
        ghost var h := heap[..];
        ghost var c := GoDown(vals, h, root, v, order);
        heap[v] := heap[v].(length := heap[v].length - 1);
        assert heap[..] == h[v := h[v].(length := h[v].length - 1)];
        value := heap[v].table[heap[v].length].child;
      } else {
        GoUp(vals, heap[..], root, v, order);
        BlocksSnoc(vals, order, v);
        ShrunkOwns(vals, heap[..], v);
        if heap[v].ty == Text || (IsContainer(heap[v].ty) && heap[v].table != []) { freed := freed + [Buffer(v)]; }
        value := heap[v].parent;
        freed := freed + [Node(v)];
        order := order + [v];
      }
    }
    Finished(vals, heap[..], root, order);
  }

  lemma Finished(vals: seq<Value>, h: seq<Value>, root: nat, order: seq<nat>)
    requires IsTree(vals) && root < |vals| && Shrunk(vals, h) && Standing(vals, h, root, None, order)
    ensures order == Order(vals, root)
  {
  }

  /** What the two passes attach fits the types by which the traversal frees. */
  lemma ExactMemory(s: State, F: seq<Value>)
    requires JsonParse.Exact(s, F)
    ensures TypedMemory(s.vals)
  {
    hide IsTree;
    forall v | 0 <= v < |s.vals| ensures TypedAt(s.vals[v]) {
      assert JsonParse.ExactAt(s.vals[v], F[v]);
    }
  }

  /** A text parsed and freed again: every value, table and string buffer that the two passes
      allocated is freed exactly once, in a safe order. */
  method ParseAndFree(json: string, comments: bool) returns (r: Option<State>, freed: seq<Block>)
    ensures r.Some? <==> exists t :: G.Document(JsonParse.Body(json), comments, t)
    ensures r.Some? ==> forall t :: G.Document(JsonParse.Body(json), comments, t) ==> Denotes(r.value.vals, 0, t)
    ensures r.None? ==> forall F :: !JsonParse.Measures(JsonParse.Body(json), comments, F)
    ensures r.Some? ==> exists F :: JsonParse.Measures(JsonParse.Body(json), comments, F) && JsonParse.Exact(r.value, F)
    ensures r.Some? ==> FreedOnce(r.value.vals, freed)
  {
    hide JsonParse.Measures, G.Document, Denotes, IsTree, Order, Blocks, FreedOnce, JsonParse.ExactAt;
    r := JsonParse.Parse(json, comments);
    freed := [];
    if r.Some? {
      ghost var F :| JsonParse.Measures(JsonParse.Body(json), comments, F) && JsonParse.Exact(r.value, F);
      ExactMemory(r.value, F);
      freed := FreeValue(r.value.vals, r.value.root.value);
      FreesEachOnce(r.value.vals);
    }
  }

  /** The invariant of the traversal. */
  ghost predicate Standing(vals: seq<Value>, h: seq<Value>, root: nat, value: Option<nat>, freed: seq<nat>)
    requires IsTree(vals) && root < |vals| && Shrunk(vals, h)
  {
    match value
    case None => freed == Order(vals, root)
    case Some(v) =>
      && v < |vals| && OnStack(vals, v, root)
      && freed + Rest(vals, h, root, v) == Order(vals, root)
      && forall u: nat :: u < |vals| && u !in freed && !OnStack(vals, v, u) ==> Kids(h, u) == Kids(vals, u)
  }

  lemma StartRest(vals: seq<Value>, h: seq<Value>, root: nat)
    requires IsTree(vals) && root < |vals| && h == vals[root := vals[root].(parent := None)]
    ensures Shrunk(vals, h) && Standing(vals, h, root, Some(root), []) && |Order(vals, root)| > 0
    ensures Inside(vals, []) && Blocks(vals, []) == []
  {
    assert [] + Rest(vals, h, root, root) == Order(vals, root);
  }

  lemma FullUpTo(vals: seq<Value>, v: nat)
    requires v < |vals| && FullTable(vals, v)
    ensures |vals[v].table| == vals[v].length
    ensures forall k :: 0 <= k < vals[v].length ==> vals[v].table[k].child == Some(Child(vals, v, k))
  {
  }

  lemma ShrunkOwns(vals: seq<Value>, h: seq<Value>, v: nat)
    requires Shrunk(vals, h) && TypedMemory(vals) && v < |vals|
    ensures |h| == |vals| && h[v].ty == vals[v].ty && h[v].table == vals[v].table && TypedAt(vals[v])
  {
  }

  lemma GoDown(vals: seq<Value>, h: seq<Value>, root: nat, v: nat, freed: seq<nat>) returns (c: nat)
    requires IsTree(vals) && root < |vals| && Shrunk(vals, h) && v < |vals| && Standing(vals, h, root, Some(v), freed)
    requires Kids(h, v) > 0
    ensures var g := h[v := h[v].(length := h[v].length - 1)];
            && Shrunk(vals, g) && h[v].length <= |h[v].table|
            && h[v].table[h[v].length - 1].child == Some(c) && v < c < |vals|
            && Standing(vals, g, root, Some(c), freed)
            && |freed| < |Order(vals, root)|
  {
    hide IsTree, Arena, FullTable, NoDup, OnStack, Rest, Below, Order;
    var g := h[v := h[v].(length := h[v].length - 1)];
    c := KidOf(vals, v, h[v].length - 1);
    FullUpTo(vals, v);
    var rest := Rest(vals, h, root, v);
    OrderLists(vals, root);
    NoDupSplit(freed, rest);
    RestUnfold(vals, h, root, v);
    BelowUnfold(vals, v, Kids(h, v));
    OrderLists(vals, c);
    StackUp(vals, c);
    assert c in Order(vals, c) && c in rest;
    if OnStack(vals, v, c) { OnStackOlder(vals, v, c); }
    RestDown(vals, h, root, v, g);
    NonEmptyRest(vals, g, root, c);
    forall u: nat | u < |vals| && u !in freed && !OnStack(vals, c, u) ensures Kids(g, u) == Kids(vals, u) {
      assert u != v && !OnStack(vals, v, u) by { SelfOnStack(vals, v); }
    }
  }

  lemma GoUp(vals: seq<Value>, h: seq<Value>, root: nat, v: nat, freed: seq<nat>)
    requires IsTree(vals) && root < |vals| && Shrunk(vals, h) && v < |vals| && Standing(vals, h, root, Some(v), freed)
    requires Kids(h, v) == 0
    ensures Standing(vals, h, root, if v == root then None else vals[v].parent, freed + [v])
    ensures v != root ==> vals[v].parent.Some? && vals[v].parent.value < |vals| && |freed| + 1 < |Order(vals, root)|
  {
    hide IsTree, Arena, OnStack, Rest, Below;
    var rest := Rest(vals, h, root, v);
    RestUnfold(vals, h, root, v);
    BelowNone(vals, v);
    if v == root {
      assert rest == [v];
    } else {
      var p := vals[v].parent.value;
      TreeArena(vals);
      StackUp(vals, v);
      RestUnfold(vals, h, root, p);
      assert freed + rest == freed + [v] + Rest(vals, h, root, p);
      forall u: nat | u < |vals| && u !in freed + [v] && !OnStack(vals, p, u) ensures Kids(h, u) == Kids(vals, u) {
        assert v in freed + [v] && forall w :: w in freed ==> w in freed + [v];
      }
    }
  }

  lemma SelfOnStack(vals: seq<Value>, v: nat)
    requires Arena(vals) && v < |vals|
    ensures OnStack(vals, v, v)
  {
  }

  lemma NonEmptyRest(vals: seq<Value>, h: seq<Value>, root: nat, v: nat)
    requires IsTree(vals) && Shrunk(vals, h) && v < |vals| && OnStack(vals, v, root)
    ensures |Rest(vals, h, root, v)| > 0
  {
    hide IsTree, Below;
  }

  lemma StackUp(vals: seq<Value>, v: nat)
    requires Arena(vals) && v < |vals| && vals[v].parent.Some?
    ensures vals[v].parent.value < v
    ensures forall u: nat :: OnStack(vals, v, u) <==> u == v || OnStack(vals, vals[v].parent.value, u)
  {
  }
}
