/** Pass 1 (src/utils/json.c) reads every text of the grammar, and what it allocates is the
    layout of the denoted tree. */
module JsonRead {
  import opened Wrappers
  import opened Json
  import opened JsonControl
  import opened JsonReach
  import opened JsonLayout
  import G = JsonGrammar

  /** Entering a finished value in its parent. */
  lemma ReadNext(text: string, comments: bool, x: State, u: State, m: State, j: nat, t: G.Tree)
    returns (y: State)
    requires AtValue(text, comments, x) && Reach(text, comments, x, u) && Read(x, m, j, t)
    requires Step(text, comments, true, u) == Next(true, m)
    requires x.top.Some? && x.top.value < |x.vals| && x.vals[x.top.value].length + 1 <= LENGTH_LIMIT
    ensures Reach(text, comments, x, y) && Wf(text, comments, y) && y.ptr == j && y.top == x.top && y.root == x.root
    ensures y.flags == (if x.vals[x.top.value].ty == Array then VALUE else NONE).(needComma := true)
    ensures y.vals == Longer(x.vals, x.top.value, 1) + Layout(t, |x.vals|, x.top)
  {
    NextIs(text, comments, x, m, j, t);
    TopHasRoot(text, comments, x);
    hide Step, Reach, Next, Wf;
    ReachMore(text, comments, x, u);
    y := Step(text, comments, true, u).s;
    ReachWf(text, comments, x, y);
  }

  lemma TopHasRoot(text: string, comments: bool, x: State)
    requires Wf(text, comments, x) && x.top.Some?
    ensures x.root.Some?
  {
  }

  /** The place of a value does not depend on the filler before it. */
  lemma SkipFiller(text: string, comments: bool, x: State, j: nat) returns (y: State)
    requires Wf(text, comments, x) && Between(x) && G.Filler(text, comments, x.ptr, j)
    ensures Reach(text, comments, x, y) && Wf(text, comments, y) && y == x.(ptr := j)
  {
    hide Reach, Wf, Between, G.Filler;
    FillerReach(text, comments, x, j);
    y := x.(ptr := j);
    ReachWf(text, comments, x, y);
  }

  lemma ContainerRead(x: State, y: State, s: State, t: G.Tree)
    requires x.taken == |x.vals| && (t.Array? || (t.Object? && |t.names| == |t.values|))
    requires y.vals == x.vals + [Node(TypeOf(t), x.top, 0, 0)]
    requires s.vals == WithName(Longer(y.vals, |x.vals|, |Kids(t)|), |x.vals|, AreaOf(t))
                       + LayoutAll(Kids(t), |y.vals|, |x.vals|)
    ensures s.vals == x.vals + Layout(t, |x.vals|, x.top)
  {
    LayoutKids(t, |x.vals|, x.top);
    assert WithName(Longer(y.vals, |x.vals|, |Kids(t)|), |x.vals|, AreaOf(t))
        == x.vals + [Node(TypeOf(t), x.top, LengthOf(t), AreaOf(t))];
  }

  lemma NoNames(vals: seq<Value>, k: nat)
    requires k < |vals|
    ensures WithName(vals, k, 0) == vals && Longer(vals, k, 0) == vals
  {
  }

  /** A value, up to the iteration that finishes it. */
  lemma {:induction false} ReadValue(text: string, comments: bool, x: State, j: nat, t: G.Tree)
    returns (u: State, m: State)
    requires AtValue(text, comments, x) && G.ValueAt(text, comments, x.ptr, j, t)
    ensures Reach(text, comments, x, u) && Read(x, m, j, t) && Step(text, comments, true, u) == Next(true, m)
    decreases j - x.ptr, 0
  {
    match t
    case Text(n) =>
      u, m := ReadText(text, comments, x, j, n);
    case Number(double) =>
      u := ReadNumber(text, comments, x, j, double);
      m := u;
    case Boolean =>
      ReachSelf(text, comments, x);
      ReadWord(text, comments, x, j, t);
      u, m := x, Opened(x, j, NONE, TypeOf(t));
    case Null =>
      ReachSelf(text, comments, x);
      ReadWord(text, comments, x, j, t);
      u, m := x, Opened(x, j, NONE, TypeOf(t));
    case Array(items) =>
      u, m := ReadArray(text, comments, x, j, t);
    case Object(names, values) =>
      u, m := ReadObject(text, comments, x, j, t);
  }

  /** The closing bracket of container t, opened as `y` and read up to `u`. */
  lemma CloseRead(text: string, comments: bool, x: State, y: State, u: State, j: nat, t: G.Tree) returns (m: State)
    requires AtValue(text, comments, x) && Wf(text, comments, u) && (t.Array? || (t.Object? && |t.names| == |t.values|))
    requires y == Opened(x, x.ptr + 1, if t.Array? then VALUE else NONE, TypeOf(t))
    requires 0 < j <= |text| && text[j - 1] == (if t.Array? then ']' else '}') && u.ptr == j - 1
    requires u.flags == (if t.Array? then VALUE else NONE).(needComma := u.flags.needComma)
    requires u.top == y.top && u.root == y.root && u.vals == Added(y.vals, |x.vals|, AreaOf(t), Kids(t))
    ensures Read(x, m, j, t) && Step(text, comments, true, u) == Next(true, m)
  {
    assert x.taken == |x.vals|;
    hide Step, Next, Wf, Layout, LayoutAll, NameArea;
    ContainerRead(x, y, u, t);
    LayoutKids(t, |x.vals|, x.top);
    assert u.vals[|x.vals|].ty == TypeOf(t);
    CloseStep(text, comments, u);
    m := u.(ptr := j, flags := NONE);
    WfTaken(text, comments, u);
  }

  lemma {:induction false} ReadArray(text: string, comments: bool, x: State, j: nat, t: G.Tree)
    returns (u: State, m: State)
    requires AtValue(text, comments, x) && t.Array? && x.ptr + 2 <= j <= |text|
    requires text[x.ptr] == '[' && text[j - 1] == ']' && |t.items| <= LENGTH_LIMIT
    requires G.Items(text, comments, x.ptr + 1, j - 1, t.items)
    ensures Reach(text, comments, x, u) && Read(x, m, j, t) && Step(text, comments, true, u) == Next(true, m)
    decreases j - x.ptr - 1, 4
  {
    assert x.taken == |x.vals|;
    hide Step, Reach, Next, Wf, G.Items, Layout, Added, Longer, WithName, Read;
    OpenArray(text, comments, x);
    ReachStep(text, comments, x);
    var y := Opened(x, x.ptr + 1, VALUE, Array);
    ReachWf(text, comments, x, y);
    u := ReadItems(text, comments, y, j - 1, t.items);
    ReachTrans(text, comments, x, y, u);
    NoNames(Longer(y.vals, |x.vals|, |t.items|), |x.vals|);
    m := CloseRead(text, comments, x, y, u, j, t);
  }

  lemma WfTaken(text: string, comments: bool, x: State)
    requires Wf(text, comments, x)
    ensures x.taken == |x.vals|
  {
  }

  lemma {:induction false} ReadObject(text: string, comments: bool, x: State, j: nat, t: G.Tree)
    returns (u: State, m: State)
    requires AtValue(text, comments, x) && t.Object? && x.ptr + 2 <= j <= |text|
    requires text[x.ptr] == '{' && text[j - 1] == '}' && |t.values| <= LENGTH_LIMIT
    requires G.Members(text, comments, x.ptr + 1, j - 1, t.names, t.values)
    ensures Reach(text, comments, x, u) && Read(x, m, j, t) && Step(text, comments, true, u) == Next(true, m)
    decreases j - x.ptr - 1, 4
  {
    assert x.taken == |x.vals| && |t.names| == |t.values|;
    hide Step, Reach, Next, Wf, G.Members, Layout, NameArea, Added, Longer, WithName, Read;
    OpenObject(text, comments, x);
    ReachStep(text, comments, x);
    var y := Opened(x, x.ptr + 1, NONE, Object);
    ReachWf(text, comments, x, y);
    u := ReadMembers(text, comments, y, j - 1, t.names, t.values);
    ReachTrans(text, comments, x, y, u);
    m := CloseRead(text, comments, x, y, u, j, t);
  }

  /** A value between fillers inside a container. */
  lemma {:induction false} ReadItem(text: string, comments: bool, s: State, p: nat, a: nat, b: nat, k: nat, t: G.Tree)
    returns (y: State)
    requires AtValue(text, comments, s) && s.top == Some(p) && p < |s.vals| && IsContainer(s.vals[p].ty)
    requires G.Item(text, comments, s.ptr, a, b, k, t) && s.vals[p].length + 1 <= LENGTH_LIMIT
    ensures Reach(text, comments, s, y) && Wf(text, comments, y) && y.ptr == k && y.top == s.top && y.root == s.root
    ensures y.flags == (if s.vals[p].ty == Array then VALUE else NONE).(needComma := true)
    ensures y.vals == Longer(s.vals, p, 1) + Layout(t, |s.vals|, s.top)
    decreases k - s.ptr, 1
  {
    hide Step, Reach, Next, Wf, G.Filler, G.ValueAt, Layout;
    var x := SkipFiller(text, comments, s, a);
    var u, m := ReadValue(text, comments, x, b, t);
    y := ReadNext(text, comments, x, u, m, b, t);
    ReachTrans(text, comments, s, x, y);
    StillTop(y, p);
    var z := SkipFiller(text, comments, y, k);
    ReachTrans(text, comments, s, y, z);
    y := z;
  }

  lemma StillTop(y: State, p: nat)
    requires y.top == Some(p) && p < |y.vals| && !y.flags.inString && !y.flags.lineComment && !y.flags.blockComment
    requires y.flags.seekValue || y.vals[p].ty == Object
    ensures Between(y)
  {
  }

  /** What n more members, with these names, and their values make of the values. */
  function Added(vals: seq<Value>, p: nat, area: nat, ts: seq<G.Tree>): seq<Value>
    requires p < |vals|
  {
    WithName(Longer(vals, p, |ts|), p, area) + LayoutAll(ts, |vals|, p)
  }

  lemma AddedNone(vals: seq<Value>, p: nat)
    requires p < |vals|
    ensures Added(vals, p, 0, []) == vals
  {
  }

  lemma LayoutCons(ts: seq<G.Tree>, base: nat, parent: nat)
    requires ts != []
    ensures var first := Layout(ts[0], base, Some(parent));
            LayoutAll(ts, base, parent) == first + LayoutAll(ts[1..], base + |first|, parent)
  {
    hide Layout;
  }

  /** Counting members first or last makes no difference. */
  lemma CountedFirst(vals: seq<Value>, p: nat, area: nat, more: nat, n: nat, first: seq<Value>)
    requires p < |vals|
    ensures var w := Longer(WithName(vals, p, area), p, 1) + first;
            WithName(Longer(w, p, n), p, more) == WithName(Longer(vals, p, n + 1), p, area + more) + first
  {
    var w := Longer(WithName(vals, p, area), p, 1) + first;
    var v, m := WithName(Longer(w, p, n), p, more), WithName(Longer(vals, p, n + 1), p, area + more);
    assert v[p] == m[p];
    assert forall i :: 0 <= i < |vals| && i != p ==> v[i] == m[i] == vals[i];
    assert forall i :: |vals| <= i < |v| ==> v[i] == first[i - |vals|];
  }

  lemma AddedCons(vals: seq<Value>, p: nat, area: nat, more: nat, ts: seq<G.Tree>)
    requires p < |vals| && ts != []
    ensures var w := Longer(WithName(vals, p, area), p, 1) + Layout(ts[0], |vals|, Some(p));
            p < |w| && Added(w, p, more, ts[1..]) == Added(vals, p, area + more, ts)
  {
    hide Layout, LayoutAll, Longer, WithName;
    var first := Layout(ts[0], |vals|, Some(p));
    LayoutCons(ts, |vals|, p);
    SameSizes(vals, p, area);
    CountedFirst(vals, p, area, more, |ts| - 1, first);
  }

  lemma SameSizes(vals: seq<Value>, p: nat, area: nat)
    requires p < |vals|
    ensures |WithName(vals, p, area)| == |vals| && |Longer(WithName(vals, p, area), p, 1)| == |vals|
  {
  }

  lemma {:induction false} ReadItems(text: string, comments: bool, s: State, j: nat, items: seq<G.Tree>)
    returns (y: State)
    requires AtValue(text, comments, s) && s.top.Some? && Within(s, s.top.value, Array)
    requires G.Items(text, comments, s.ptr, j, items) && s.vals[s.top.value].length + |items| <= LENGTH_LIMIT
    ensures Reach(text, comments, s, y) && Wf(text, comments, y) && y.ptr == j && y.top == s.top && y.root == s.root
    ensures y.flags == VALUE.(needComma := y.flags.needComma)
    ensures y.vals == Added(s.vals, s.top.value, 0, items)
    decreases j - s.ptr, 2
  {
    hide Step, Reach, Next, Wf, G.Item, G.Filler, Layout, Added;
    var p := s.top.value;
    if items == [] {
      y := SkipFiller(text, comments, s, j);
      AddedNone(s.vals, p);
    } else {
      var a: nat, b: nat, k: nat :| s.ptr <= a < b <= k <= j && G.Item(text, comments, s.ptr, a, b, k, items[0]) &&
        if k == j then |items| == 1 else text[k] == ',' && G.Items(text, comments, k + 1, j, items[1..]);
      NoNames(s.vals, p);
      AddedCons(s.vals, p, 0, 0, items);
      y := ReadItem(text, comments, s, p, a, b, k, items[0]);
      if k == j {
        AddedNone(y.vals, p);
      } else {
        var x := AfterComma(text, comments, s, y);
        y := ReadItems(text, comments, x, j, items[1..]);
        ReachTrans(text, comments, s, x, y);
      }
    }
  }

  /** A member name with its colon. */
  lemma ReadName(text: string, comments: bool, s: State, p: nat, a: nat, b: nat, d: nat, n: nat) returns (y: State)
    requires Wf(text, comments, s) && s.flags == NONE && Within(s, p, Object)
    requires G.NameAt(text, comments, s.ptr, a, b, d, n)
    ensures Reach(text, comments, s, y) && AtValue(text, comments, y) && y.ptr == d && y.top == s.top
    ensures y.root == s.root
    ensures y.vals == WithName(s.vals, p, n + 1)
  {
    hide Step, Reach, Next, Wf, G.Filler, G.Chars;
    y := SkipFiller(text, comments, s, a);
    QuoteStep(text, comments, y, p);
    ReachMore(text, comments, s, y);
    y := Step(text, comments, true, y).s;
    CharsReach(text, comments, y, b - 1, n);
    var z := y.(ptr := b - 1, strLen := n);
    ReachTrans(text, comments, s, y, z);
    NameEnds(text, comments, z, p);
    ReachMore(text, comments, s, z);
    y := Step(text, comments, true, z).s;
    ReachWf(text, comments, s, y);
    z := SkipFiller(text, comments, y, d - 1);
    ReachTrans(text, comments, s, y, z);
    ColonStep(text, comments, z, p);
    ReachMore(text, comments, s, z);
    y := Step(text, comments, true, z).s;
    ReachWf(text, comments, s, y);
  }

  lemma {:induction false} ReadMember(text: string, comments: bool, s: State, p: nat, d: nat, k: nat, n: nat, t: G.Tree)
    returns (y: State)
    requires Wf(text, comments, s) && s.flags == NONE && Within(s, p, Object)
    requires G.MemberAt(text, comments, s.ptr, d, k, n, t) && s.vals[p].length + 1 <= LENGTH_LIMIT
    ensures Reach(text, comments, s, y) && Wf(text, comments, y) && y.ptr == k && y.top == s.top && y.root == s.root
    ensures y.flags == NONE.(needComma := true)
    ensures y.vals == Longer(WithName(s.vals, p, n + 1), p, 1) + Layout(t, |s.vals|, Some(p))
    ensures Within(y, p, Object) && y.vals[p].length == s.vals[p].length + 1
    decreases k - s.ptr, 1
  {
    hide Reach, Wf, G.Item, G.NameAt, Layout;
    var a: nat, b: nat :| G.NameAt(text, comments, s.ptr, a, b, d, n);
    var e: nat, f: nat :| G.Item(text, comments, d, e, f, k, t);
    var x := ReadName(text, comments, s, p, a, b, d, n);
    y := ReadItem(text, comments, x, p, e, f, k, t);
    ReachTrans(text, comments, s, x, y);
  }

  lemma FirstMember(text: string, comments: bool, i: nat, j: nat, names: seq<nat>, values: seq<G.Tree>)
    returns (d: nat, k: nat)
    requires G.Members(text, comments, i, j, names, values) && values != []
    ensures |names| == |values| && i < d <= k <= j <= |text|
    ensures G.MemberAt(text, comments, i, d, k, names[0], values[0])
    ensures if k == j then |values| == 1
            else text[k] == ',' && G.Members(text, comments, k + 1, j, names[1..], values[1..])
  {
    hide G.MemberAt;
    d, k :| i < d <= k <= j && G.MemberAt(text, comments, i, d, k, names[0], values[0]) &&
      if k == j then |values| == 1 else text[k] == ',' && G.Members(text, comments, k + 1, j, names[1..], values[1..]);
  }

  lemma {:induction false} ReadMembers(text: string, comments: bool, s: State, j: nat,
                                       names: seq<nat>, values: seq<G.Tree>) returns (y: State)
    requires Wf(text, comments, s) && s.flags == NONE && s.top.Some? && Within(s, s.top.value, Object)
    requires G.Members(text, comments, s.ptr, j, names, values)
    requires s.vals[s.top.value].length + |values| <= LENGTH_LIMIT
    ensures Reach(text, comments, s, y) && Wf(text, comments, y) && y.ptr == j && y.top == s.top && y.root == s.root
    ensures y.flags == NONE.(needComma := y.flags.needComma)
    ensures |names| == |values| && y.vals == Added(s.vals, s.top.value, NameArea(names), values)
    decreases j - s.ptr, 2
  {
    hide Step, Reach, Next, Wf, G.Members, G.MemberAt, G.Filler, Layout, Added, Longer, WithName, NameArea;
    var p := s.top.value;
    if values == [] {
      NoMembers(text, comments, s.ptr, j, names);
      StillTop(s, p);
      y := SkipFiller(text, comments, s, j);
      AddedNone(s.vals, p);
    } else {
      var d, k := FirstMember(text, comments, s.ptr, j, names, values);
      y := ReadMember(text, comments, s, p, d, k, names[0], values[0]);
      if k == j {
        assert names[1..] == [] && values[1..] == [];
        NoMembersAdded(y.vals, p);
        MemberAdded(s.vals, p, names, values);
      } else {
        var x := AfterComma(text, comments, s, y);
        y := ReadMembers(text, comments, x, j, names[1..], values[1..]);
        ReachTrans(text, comments, s, x, y);
        MemberAdded(s.vals, p, names, values);
      }
    }
  }

  lemma NoMembers(text: string, comments: bool, i: nat, j: nat, names: seq<nat>)
    requires G.Members(text, comments, i, j, names, [])
    ensures names == [] && G.Filler(text, comments, i, j) && NameArea(names) == 0
  {
  }

  /** One member and then the others. */
  lemma MemberAdded(vals: seq<Value>, p: nat, names: seq<nat>, values: seq<G.Tree>)
    requires p < |vals| && |names| == |values| > 0
    ensures var w := Longer(WithName(vals, p, names[0] + 1), p, 1) + Layout(values[0], |vals|, Some(p));
            p < |w| && Added(w, p, NameArea(names[1..]), values[1..]) == Added(vals, p, NameArea(names), values)
  {
    hide *;
    NameAreaCons(names);
    AddedCons(vals, p, names[0] + 1, NameArea(names[1..]), values);
  }

  lemma NameAreaCons(names: seq<nat>)
    requires names != []
    ensures NameArea(names) == names[0] + 1 + NameArea(names[1..])
  {
  }

  lemma NoMembersAdded(vals: seq<Value>, p: nat)
    requires p < |vals|
    ensures Added(vals, p, NameArea([]), []) == vals
  {
    AddedNone(vals, p);
  }

  lemma AfterComma(text: string, comments: bool, s: State, y: State) returns (x: State)
    requires Wf(text, comments, s) && Reach(text, comments, s, y) && y.ptr < |text| && text[y.ptr] == ','
    requires y.top.Some? && y.top.value < |y.vals|
    requires y.flags == (if y.vals[y.top.value].ty == Array then VALUE else NONE).(needComma := true)
    requires IsContainer(y.vals[y.top.value].ty)
    ensures Reach(text, comments, s, x) && Wf(text, comments, x)
    ensures x == y.(ptr := y.ptr + 1, flags := y.flags.(needComma := false))
  {
    hide Step, Reach, Wf;
    CommaStep(text, comments, y);
    ReachMore(text, comments, s, y);
    x := Step(text, comments, true, y).s;
    ReachWf(text, comments, s, x);
  }

  /** Pass 1 accepts every text of the grammar, and allocates the layout of what it denotes. */
  lemma ReadDocument(text: string, comments: bool, t: G.Tree) returns (n: nat)
    requires G.Document(text, comments, t)
    ensures var o := Run(text, comments, true, Start([]), n);
            o.Accepted? && o.s.vals == Layout(t, 0, None)
  {
    var s := Start([]);
    assert Wf(text, comments, s) && s.flags == VALUE && Between(s);
    var i: nat, j: nat, k: nat :|
      G.Item(text, comments, 0, i, j, k, t) && k <= |text| && (k < |text| ==> text[k] == '\0');
    hide Step, Reach, Next, Wf, Run, Start, Layout;
    var x := SkipFiller(text, comments, s, i);
    var u, m := ReadValue(text, comments, x, j, t);
    NextIs(text, comments, x, m, j, t);
    ReachMore(text, comments, x, u);
    var y := Step(text, comments, true, u).s;
    assert y.vals == Layout(t, 0, None) by { assert [] + Layout(t, 0, None) == Layout(t, 0, None); }
    ReachTrans(text, comments, s, x, y);
    ReachWf(text, comments, s, y);
    var z := SkipFiller(text, comments, y, k);
    ReachTrans(text, comments, s, y, z);
    n := FinishDocument(text, comments, s, z);
  }

  lemma EndStep(text: string, comments: bool, z: State)
    requires z.flags == DONE && z.ptr <= |text| && CharAt(text, z.ptr) == '\0'
    ensures Step(text, comments, true, z) == Accepted(z)
  {
  }

  lemma FinishDocument(text: string, comments: bool, s: State, z: State) returns (n: nat)
    requires Reach(text, comments, s, z) && z.flags == DONE && z.ptr <= |text| && CharAt(text, z.ptr) == '\0'
    ensures Run(text, comments, true, s, n) == Accepted(z)
  {
    EndStep(text, comments, z);
    RunOne(text, comments, z);
    hide Step, Run;
    n :| Run(text, comments, true, s, n) == More(z);
    RunPlus(text, comments, s, n, 1);
    n := n + 1;
  }

  lemma RunOne(text: string, comments: bool, z: State)
    ensures !Step(text, comments, true, z).More? ==>
              Run(text, comments, true, z, 1) == Step(text, comments, true, z)
  {
    hide Step;
  }
}
