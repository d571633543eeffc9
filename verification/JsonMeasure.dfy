/** Pass 1 measures: what it will have counted at the end bounds what it has counted so far,
    including the name or string being read and the member being awaited. */
module JsonMeasure {
  import opened Wrappers
  import opened Json
  import opened JsonControl

  /** `i` is `t` or one of the containers around it. */
  ghost predicate OnStack(vals: seq<Value>, t: nat, i: nat)
    requires Arena(vals) && t < |vals|
    decreases t
  {
    t == i || (vals[t].parent.Some? && OnStack(vals, vals[t].parent.value, i))
  }

  lemma {:induction false} OnStackSame(a: seq<Value>, b: seq<Value>, t: nat, i: nat)
    requires Arena(a) && Arena(b) && t < |a| && t < |b|
    requires forall k :: 0 <= k <= t ==> a[k].parent == b[k].parent
    ensures OnStack(a, t, i) == OnStack(b, t, i)
    decreases t
  {
    if t != i && a[t].parent.Some? { OnStackSame(a, b, a[t].parent.value, i); }
  }

  lemma {:induction false} OnStackOlder(vals: seq<Value>, t: nat, i: nat)
    requires Arena(vals) && t < |vals| && OnStack(vals, t, i)
    ensures i <= t && (i < t ==> IsContainer(vals[i].ty))
    decreases t
  {
    if t != i { OnStackOlder(vals, vals[t].parent.value, i); }
  }

  ghost predicate Shaped(s: State) { Arena(s.vals) && (s.top.Some? ==> s.top.value < |s.vals|) }

  /** Container `i` has a member under way that is not counted yet. */
  ghost predicate Pending(s: State, i: nat)
    requires Shaped(s) && i < |s.vals|
  {
    && !s.flags.done && s.top.Some?
    && if s.top.value == i then s.vals[i].ty == Object && (s.flags.inString || s.flags.seekValue)
       else OnStack(s.vals, s.top.value, i)
  }

  ghost predicate Reading(s: State, i: nat) { s.flags.inString && s.top == Some(i) }

  /** Where pass 2 writes the string being read. */
  ghost predicate AtBase(s: State) {
    s.flags.inString && s.top.Some? && s.top.value < |s.vals| ==>
      s.strBase == if s.vals[s.top.value].ty == Object then s.vals[s.top.value].memPos else 0
  }

  /** The length counted for value `i`, with what is under way. */
  ghost function Length(s: State, i: nat): nat
    requires Shaped(s) && i < |s.vals|
  {
    if s.vals[i].ty == Text then (if Reading(s, i) then s.strLen else s.vals[i].length)
    else s.vals[i].length + (if Pending(s, i) then 1 else 0)
  }

  /** The name bytes counted for object `i`, with the name being read and its terminator. */
  ghost function NameBytes(s: State, i: nat): nat
    requires i < |s.vals|
  {
    s.vals[i].nameArea + (if Reading(s, i) && s.vals[i].ty == Object then s.strLen + 1 else 0)
  }

  /** Value `i` of `s` and of a later state `t`: same place in the tree, no measure shrunk. */
  ghost predicate GrewAt(s: State, t: State, i: nat)
    requires Shaped(s) && Shaped(t) && i < |s.vals| && i < |t.vals|
  {
    && t.vals[i].parent == s.vals[i].parent && KindOf(t.vals[i].ty) == KindOf(s.vals[i].ty)
    && Length(s, i) <= Length(t, i) && NameBytes(s, i) <= NameBytes(t, i)
  }

  ghost predicate Grew(s: State, t: State) {
    && Shaped(s) && Shaped(t) && |s.vals| <= |t.vals|
    && forall i :: 0 <= i < |s.vals| ==> GrewAt(s, t, i)
  }

  lemma GrewTrans(s: State, t: State, u: State)
    requires Grew(s, t) && Grew(t, u)
    ensures Grew(s, u)
  {
    forall i | 0 <= i < |s.vals| ensures GrewAt(s, u, i) {
      assert GrewAt(s, t, i) && GrewAt(t, u, i);
    }
  }

  /** A value just finished is counted in its parent. */
  lemma NextGrows(s: State)
    requires Shaped(s) && s.top.Some? && Quiet(s.flags)
    ensures var o := Next(true, s); o.More? ==> Grew(s, o.s)
  {
    var o := Next(true, s);
    if o.More? {
      var t, u := s.top.value, o.s;
      var parent := s.vals[t].parent;
      if parent.Some? {
        ArenaUpdate(s.vals, parent.value, u.vals[parent.value]);
      }
      forall i | 0 <= i < |s.vals| ensures GrewAt(s, u, i) {
        if parent.Some? && OnStack(s.vals, t, i) {
          OnStackOlder(s.vals, t, i);
          OnStackSame(s.vals, u.vals, parent.value, i);
        }
      }
    }
  }

  /** A new value, created after a change of flags, puts the current container among those
      with a member under way. */
  lemma NewGrows(s: State, s': State, ty: Type)
    requires Shaped(s) && (s.top.None? <==> s.vals == []) && (s.top.Some? ==> IsContainer(s.vals[s.top.value].ty))
    requires !s.flags.inString && s'.vals == s.vals && s'.top == s.top && s'.taken == |s.vals| && !s'.flags.done
    ensures var o := NewValue(true, s', ty); o.More? && Grew(s, o.s)
  {
    var u := NewValue(true, s', ty).s;
    forall i | 0 <= i < |s.vals| ensures GrewAt(s, u, i) {
      assert u.vals[i] == s.vals[i];
      OnStackSame(s.vals, u.vals, s.top.value, i);
      assert OnStack(u.vals, |s.vals|, i) == OnStack(u.vals, s.top.value, i);
    }
  }

  /** The current value changed, but not its place in the tree, and nothing else did. */
  lemma InsideGrows(s: State, t: State)
    requires Shaped(s) && s.top.Some? && t.top == s.top && t.flags.done == s.flags.done
    requires var k := s.top.value;
             && |t.vals| == |s.vals| && (forall i :: 0 <= i < |s.vals| && i != k ==> t.vals[i] == s.vals[i])
             && t.vals[k].parent == s.vals[k].parent && KindOf(t.vals[k].ty) == KindOf(s.vals[k].ty)
             && (s.vals[k].ty == Text ==>
                   (if s.flags.inString then s.strLen else s.vals[k].length) <=
                   (if t.flags.inString then t.strLen else t.vals[k].length))
             && (s.vals[k].ty != Text ==>
                   && t.vals[k].length == s.vals[k].length
                   && (s.vals[k].ty == Object && (s.flags.inString || s.flags.seekValue) ==>
                         t.flags.inString || t.flags.seekValue)
                   && (s.vals[k].ty == Object ==>
                         s.vals[k].nameArea + (if s.flags.inString then s.strLen + 1 else 0) <=
                         t.vals[k].nameArea + (if t.flags.inString then t.strLen + 1 else 0)))
             && (s.vals[k].ty != Object ==> t.vals[k].nameArea == s.vals[k].nameArea)
    ensures Grew(s, t)
  {
    var k := s.top.value;
    assert t.vals == s.vals[k := t.vals[k]];
    ArenaUpdate(s.vals, k, t.vals[k]);
    forall i | 0 <= i < |s.vals| ensures GrewAt(s, t, i) {
      OnStackSame(s.vals, t.vals, k, i);
    }
  }

  lemma ApplyGrows(text: string, comments: bool, s: State, a: Action)
    requires Wf(text, comments, s) && Sound(text, comments, true, s.ptr, s.flags, TopOf(s), a)
    ensures var o := Apply(true, s, a); o.More? ==> Grew(s, o.s)
  {
    hide Arena, Next, NewValue, Grew;
    var o := Apply(true, s, a);
    if a.Begin? {
      NewGrows(s, Opening(s, a.ptr, a.flags, a.ty), a.ty);
    } else if a.Leaf? {
      NewGrows(s, s.(ptr := a.ptr, flags := a.flags), a.ty);
      NewWf(s.(ptr := a.ptr, flags := a.flags), a.ty);
      var m := NewValue(true, s.(ptr := a.ptr, flags := a.flags), a.ty).s;
      NextGrows(m);
      if o.More? { GrewTrans(s, m, o.s); }
    } else if a.EndText? {
      var m := FinishText(true, s.(ptr := a.ptr, flags := a.flags)).s;
      InsideGrows(s, m);
      ShapedAfter(s, m);
      NextGrows(m);
      if o.More? { GrewTrans(s, m, o.s); }
    } else if a.Close? {
      var m := s.(ptr := a.ptr, flags := a.flags);
      InsideGrows(s, m);
      NextGrows(m);
      if o.More? { GrewTrans(s, m, o.s); }
    } else if o.More? && s.top.Some? {
      InsideGrows(s, o.s);
    } else if o.More? {
      NothingGrows(s, o.s);
    }
  }

  lemma ShapedAfter(s: State, t: State)
    requires Grew(s, t)
    ensures Shaped(t)
  {
  }

  lemma NothingGrows(s: State, t: State)
    requires s.vals == [] && t.vals == [] && s.top.None? && t.top.None?
    ensures Grew(s, t)
  {
  }

  lemma StepGrows(text: string, comments: bool, s: State)
    requires Wf(text, comments, s)
    ensures var o := Step(text, comments, true, s); o.More? ==> Grew(s, o.s)
  {
    hide Decide, Apply, Sound, Grew;
    DecideSound(text, comments, true, s);
    ApplyGrows(text, comments, s, Decide(text, comments, true, s));
  }

  lemma GrewSelf(s: State)
    requires Shaped(s)
    ensures Grew(s, s)
  {
  }

  /** Every state of an accepted first pass is bounded by what the pass measured in the end. */
  lemma {:induction false} RunGrows(text: string, comments: bool, s: State, n: nat)
    requires Wf(text, comments, s) && Run(text, comments, true, s, n).Accepted?
    ensures var t := Run(text, comments, true, s, n).s; Grew(s, t) && Wf(text, comments, t) && t.flags.done
    decreases n
  {
    hide Step, Grew;
    StepWf(text, comments, s);
    StepGrows(text, comments, s);
    GrewSelf(s);
    var o := Step(text, comments, true, s);
    if o.More? {
      RunGrows(text, comments, o.s, n - 1);
      GrewTrans(s, o.s, Run(text, comments, true, s, n).s);
    }
  }
}
