/** What pass 2 builds: the tables link every finished value to its parent, in order. */
module JsonTree {
  import opened Wrappers
  import opened Json
  import opened JsonControl
  import opened JsonMeasure

  /** Value `c` is not finished yet. */
  ghost predicate Open(s: State, c: nat)
    requires Shaped(s)
  {
    !s.flags.done && s.top.Some? && OnStack(s.vals, s.top.value, c)
  }

  ghost predicate Ready(s: State) {
    Shaped(s) && s.taken <= |s.vals| && (s.top.Some? ==> s.top.value < s.taken)
  }

  /** The k-th filled slot of container `p` holds a finished value of which `p` is the parent. */
  ghost predicate SlotOk(s: State, p: nat, k: nat)
    requires Ready(s) && p < s.taken && k < |s.vals[p].table|
  {
    var c := s.vals[p].table[k].child;
    c.Some? && p < c.value < s.taken && s.vals[c.value].parent == Some(p) && !Open(s, c.value)
  }

  /** Container `p`: its filled slots, in allocation order. */
  ghost predicate TableOk(s: State, p: nat)
    requires Ready(s) && p < s.taken
  {
    var v := s.vals[p];
    IsContainer(v.ty) ==>
      && v.length <= |v.table|
      && (forall k :: 0 <= k < v.length ==> SlotOk(s, p, k))
      && (forall j, k :: 0 <= j < k < v.length && v.table[j].child.Some? && v.table[k].child.Some? ==>
            v.table[j].child.value < v.table[k].child.value)
  }

  /** Value `c` below the root: in its parent's table if finished, younger than all there if not. */
  ghost predicate LinkOk(s: State, c: nat)
    requires Ready(s) && c < s.taken && s.vals[c].parent.Some?
  {
    var p := s.vals[s.vals[c].parent.value];
    && p.length <= |p.table|
    && if Open(s, c) then forall k :: 0 <= k < p.length && p.table[k].child.Some? ==> p.table[k].child.value < c
       else exists k :: 0 <= k < p.length && p.table[k].child == Some(c)
  }

  /** The links among the values taken up so far. */
  ghost predicate Linked(s: State) {
    && Ready(s)
    && (forall p :: 0 <= p < s.taken ==> TableOk(s, p))
    && (forall c :: 0 <= c < s.taken && s.vals[c].parent.Some? ==> LinkOk(s, c))
  }

  /** `t` has the links of `s`. */
  ghost predicate SameLinks(s: State, t: State) {
    && t.taken == s.taken && t.top == s.top && t.flags.done == s.flags.done && |t.vals| == |s.vals|
    && forall i :: 0 <= i < |s.vals| ==> SameLinksAt(s.vals[i], t.vals[i])
  }

  ghost predicate SameLinksAt(v: Value, w: Value) {
    && w.parent == v.parent && w.ty == v.ty && (IsContainer(v.ty) ==> w.length == v.length)
    && |w.table| == |v.table| && forall k :: 0 <= k < |v.table| ==> w.table[k].child == v.table[k].child
  }

  lemma SameOpen(s: State, t: State)
    requires Shaped(s) && SameLinks(s, t)
    ensures Shaped(t) && forall c: nat :: Open(s, c) == Open(t, c)
  {
    assert Arena(t.vals) by {
      forall i | 0 <= i < |t.vals| ensures SameLinksAt(s.vals[i], t.vals[i]) {}
    }
    if s.top.Some? {
      forall c: nat ensures OnStack(s.vals, s.top.value, c) == OnStack(t.vals, s.top.value, c) {
        OnStackSame(s.vals, t.vals, s.top.value, c);
      }
    }
  }

  lemma SameLinked(s: State, t: State)
    requires Linked(s) && SameLinks(s, t)
    ensures Linked(t)
  {
    hide Open;
    SameOpen(s, t);
    forall p | 0 <= p < t.taken ensures TableOk(t, p) {
      assert TableOk(s, p) && SameLinksAt(s.vals[p], t.vals[p]);
      forall k | 0 <= k < t.vals[p].length && IsContainer(t.vals[p].ty) ensures SlotOk(t, p, k) {
        assert SlotOk(s, p, k);
        var c := s.vals[p].table[k].child.value;
        assert SameLinksAt(s.vals[c], t.vals[c]);
      }
    }
    forall c | 0 <= c < t.taken && t.vals[c].parent.Some? ensures LinkOk(t, c) {
      assert SameLinksAt(s.vals[c], t.vals[c]) && LinkOk(s, c);
      var p := s.vals[c].parent.value;
      assert SameLinksAt(s.vals[p], t.vals[p]) && IsContainer(s.vals[p].ty);
      if !Open(s, c) {
        var k :| 0 <= k < s.vals[p].length && s.vals[p].table[k].child == Some(c);
        assert t.vals[p].table[k].child == Some(c);
      }
    }
  }

  /** Taking up the next value, a child of the current one. */
  lemma NewLinked(s: State, ty: Type)
    requires Linked(s) && s.taken < |s.vals| && s.vals[s.taken].parent == s.top && !s.flags.done
    requires s.vals[s.taken].table == []
    ensures var o := NewValue(false, s, ty); o.More? && Linked(o.s)
  {
    hide Open;
    var t := NewValue(false, s, ty).s;
    var n := s.taken;
    ArenaUpdate(s.vals, n, t.vals[n]);
    NewOpen(s, t);
    forall p | 0 <= p < t.taken ensures TableOk(t, p) {
      if p < n {
        assert TableOk(s, p);
        forall k | 0 <= k < t.vals[p].length && IsContainer(t.vals[p].ty) ensures SlotOk(t, p, k) {
          assert SlotOk(s, p, k);
        }
      }
    }
    forall c | 0 <= c < t.taken && t.vals[c].parent.Some? ensures LinkOk(t, c) {
      var p := t.vals[c].parent.value;
      assert TableOk(s, p) && IsContainer(s.vals[p].ty);
      if c < n { assert LinkOk(s, c); } else {
        forall k | 0 <= k < t.vals[p].length && t.vals[p].table[k].child.Some?
          ensures t.vals[p].table[k].child.value < c
        {
          assert SlotOk(s, p, k);
        }
      }
    }
  }

  lemma NewOpen(s: State, t: State)
    requires Ready(s) && Arena(t.vals) && s.taken < |s.vals| && s.vals[s.taken].parent == s.top && !s.flags.done
    requires |t.vals| == |s.vals| && (forall i :: 0 <= i < |s.vals| ==> t.vals[i].parent == s.vals[i].parent)
    requires t.top == Some(s.taken) && t.flags.done == s.flags.done
    ensures forall c: nat :: Open(t, c) <==> c == s.taken || Open(s, c)
  {
    forall c: nat ensures Open(t, c) <==> c == s.taken || Open(s, c) {
      if s.top.Some? { OnStackSame(s.vals, t.vals, s.top.value, c); }
    }
  }

  /** Finishing the current value: it becomes the youngest entry of its parent's table. */
  lemma NextLinked(s: State)
    requires Linked(s) && s.top.Some? && !s.flags.done && Next(false, s).More?
    ensures Linked(Next(false, s).s)
  {
    hide Open;
    var t := Next(false, s).s;
    var c := s.top.value;
    if s.vals[c].parent.None? {
      assert c == 0;
      RootOpen(s);
      LinkedDone(s, t);
    } else {
      var p := s.vals[c].parent.value;
      assert IsContainer(s.vals[p].ty) && p < c;
      ArenaUpdate(s.vals, p, t.vals[p]);
      NextOpen(s, t);
      forall q | 0 <= q < t.taken ensures TableOk(t, q) { NextTable(s, t, q); }
      forall d | 0 <= d < t.taken && t.vals[d].parent.Some? ensures LinkOk(t, d) { NextLink(s, t, d); }
    }
  }

  /** `t` is `s` with the current value entered in the table of its parent. */
  ghost predicate Entered(s: State, t: State) {
    && Ready(s) && Ready(t) && s.top.Some? && s.vals[s.top.value].parent.Some?
    && t.taken == s.taken && |t.vals| == |s.vals| && t.top == s.vals[s.top.value].parent
    && (forall i :: 0 <= i < |s.vals| && i != t.top.value ==> t.vals[i] == s.vals[i])
    && EnteredAt(s.vals[t.top.value], t.vals[t.top.value], s.top.value)
    && (forall d: nat :: Open(t, d) <==> Open(s, d) && d != s.top.value)
    && Open(s, s.top.value)
  }

  ghost predicate EnteredAt(v: Value, w: Value, c: nat) {
    && IsContainer(v.ty) && w.parent == v.parent && w.ty == v.ty && v.length < |v.table| == |w.table|
    && w.length == v.length + 1 && w.table[v.length].child == Some(c)
    && (forall k :: 0 <= k < |v.table| && k != v.length ==> w.table[k] == v.table[k])
  }

  lemma NextTable(s: State, t: State, q: nat)
    requires Linked(s) && Entered(s, t) && q < t.taken
    ensures TableOk(t, q)
  {
    hide Open;
    var c := s.top.value;
    var p := s.vals[c].parent.value;
    assert TableOk(s, q) && LinkOk(s, c);
    forall k | 0 <= k < t.vals[q].length && IsContainer(t.vals[q].ty) ensures SlotOk(t, q, k) {
      if k < s.vals[q].length { assert SlotOk(s, q, k); }
    }
    if q == p {
      forall k | 0 <= k < s.vals[p].length
        ensures s.vals[p].table[k].child.Some? && s.vals[p].table[k].child.value < c
      {
        assert SlotOk(s, p, k);
      }
    }
  }

  lemma NextLink(s: State, t: State, d: nat)
    requires Linked(s) && Entered(s, t) && d < t.taken && t.vals[d].parent.Some?
    ensures LinkOk(t, d)
  {
    hide Open;
    var c := s.top.value;
    var p := s.vals[c].parent.value;
    var q := s.vals[d].parent.value;
    assert LinkOk(s, d) && t.vals[d].parent == Some(q) && TableOk(s, q);
    if d == c {
      assert t.vals[p].table[s.vals[p].length].child == Some(c);
    } else if Open(s, d) {
      if q == p { SiblingsClosed(s, d); }
    } else {
      var k :| 0 <= k < s.vals[q].length && s.vals[q].table[k].child == Some(d);
      assert t.vals[q].table[k].child == Some(d);
    }
  }

  /** At most one child of a value is unfinished. */
  lemma SiblingsClosed(s: State, d: nat)
    requires Ready(s) && s.top.Some? && d < |s.vals| && Open(s, d) && d != s.top.value
    ensures s.vals[d].parent != s.vals[s.top.value].parent || s.vals[d].parent.None?
  {
    var c := s.top.value;
    if s.vals[d].parent.Some? && s.vals[d].parent == s.vals[c].parent {
      OnStackOlder(s.vals, s.vals[c].parent.value, d);
    }
  }

  lemma NextOpen(s: State, t: State)
    requires Ready(s) && s.top.Some? && !s.flags.done && s.vals[s.top.value].parent.Some?
    requires Arena(t.vals) && |t.vals| == |s.vals|
    requires forall i :: 0 <= i < |s.vals| ==> t.vals[i].parent == s.vals[i].parent
    requires t.top == s.vals[s.top.value].parent && !t.flags.done
    ensures (forall d: nat :: Open(t, d) <==> Open(s, d) && d != s.top.value) && Open(s, s.top.value)
  {
    var p := t.top.value;
    forall d: nat ensures Open(t, d) <==> Open(s, d) && d != s.top.value {
      OnStackSame(s.vals, t.vals, p, d);
      if OnStack(s.vals, p, d) { OnStackOlder(s.vals, p, d); }
    }
  }

  lemma RootOpen(s: State)
    requires Ready(s) && s.top == Some(0) && !s.flags.done
    ensures forall d: nat :: Open(s, d) <==> d == 0
  {
  }

  /** The root is finished, so everything is. */
  lemma LinkedDone(s: State, t: State)
    requires Linked(s) && s.top == Some(0) && (forall d: nat :: Open(s, d) <==> d == 0)
    requires t.taken == s.taken && t.top == s.top && t.vals == s.vals && t.flags.done
    ensures Linked(t)
  {
    forall p | 0 <= p < t.taken ensures TableOk(t, p) {
      assert TableOk(s, p);
      forall k | 0 <= k < t.vals[p].length && IsContainer(t.vals[p].ty) ensures SlotOk(t, p, k) {
        assert SlotOk(s, p, k);
      }
    }
    forall c | 0 <= c < t.taken && t.vals[c].parent.Some? ensures LinkOk(t, c) {
      assert LinkOk(s, c);
    }
  }

  /** A finished tree: every table is full, in allocation order, and holds exactly the values
      whose parent it belongs to. */
  ghost predicate IsTree(vals: seq<Value>) {
    && Arena(vals)
    && (forall p :: 0 <= p < |vals| && IsContainer(vals[p].ty) ==> FullTable(vals, p))
    && (forall c :: 0 <= c < |vals| && vals[c].parent.Some? ==> InTable(vals, vals[c].parent.value, c))
  }

  ghost predicate FullTable(vals: seq<Value>, p: nat)
    requires p < |vals|
  {
    var v := vals[p];
    && |v.table| == v.length
    && (forall k :: 0 <= k < v.length ==>
          && v.table[k].child.Some? && p < v.table[k].child.value < |vals|
          && vals[v.table[k].child.value].parent == Some(p))
    && (forall j, k :: 0 <= j < k < v.length ==> v.table[j].child.value < v.table[k].child.value)
  }

  ghost predicate InTable(vals: seq<Value>, p: nat, c: nat) {
    p < |vals| && exists k :: 0 <= k < |vals[p].table| && vals[p].table[k].child == Some(c)
  }

  /** When everything is taken up and finished, and every table as long as counted, the links
      form a tree. */
  lemma LinkedIsTree(s: State)
    requires Linked(s) && s.flags.done && s.taken == |s.vals|
    requires forall p :: 0 <= p < |s.vals| && IsContainer(s.vals[p].ty) ==> |s.vals[p].table| == s.vals[p].length
    ensures IsTree(s.vals)
  {
    forall p | 0 <= p < |s.vals| && IsContainer(s.vals[p].ty) ensures FullTable(s.vals, p) {
      assert TableOk(s, p);
      forall k | 0 <= k < s.vals[p].length
        ensures var c := s.vals[p].table[k].child;
                c.Some? && p < c.value < |s.vals| && s.vals[c.value].parent == Some(p)
      {
        assert SlotOk(s, p, k);
      }
    }
    forall c | 0 <= c < |s.vals| && s.vals[c].parent.Some? ensures InTable(s.vals, s.vals[c].parent.value, c) {
      assert LinkOk(s, c);
    }
  }
}
