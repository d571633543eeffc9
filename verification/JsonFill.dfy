/** What pass 2 writes: names laid end to end in the name area, strings from the start of
    their buffers, no byte left out. */
module JsonFill {
  import opened Wrappers
  import opened Json
  import opened JsonControl
  import opened JsonMeasure
  import opened JsonTree

  /** The end of the first n names if they are set and lie end to end, each with a terminator. */
  function Tiled(table: seq<Entry>, n: nat): Option<nat>
    requires n <= |table|
  {
    if n == 0 then Some(0)
    else
      var start, name := Tiled(table, n - 1), table[n - 1].name;
      if start.Some? && name.Some? && name.value.0 == start.value then Some(start.value + name.value.1 + 1) else None
  }

  lemma {:induction false} TiledSame(a: seq<Entry>, b: seq<Entry>, n: nat)
    requires n <= |a| && n <= |b| && forall k :: 0 <= k < n ==> a[k].name == b[k].name
    ensures Tiled(a, n) == Tiled(b, n)
  {
    if n > 0 { TiledSame(a, b, n - 1); }
  }

  /** Object `p` has a name whose value is not finished. */
  ghost predicate Awaiting(s: State, p: nat)
    requires Shaped(s)
  {
    Open(s, p) && (s.top == Some(p) ==> s.flags.seekValue && !s.flags.inString)
  }

  ghost function NameCount(s: State, p: nat): nat
    requires Shaped(s) && p < |s.vals|
  {
    s.vals[p].length + (if Awaiting(s, p) then 1 else 0)
  }

  ghost predicate Written(mem: seq<Option<char>>, n: nat) {
    n <= |mem| && forall m :: 0 <= m < n ==> mem[m].Some?
  }

  /** Names and bytes of value `p`. */
  ghost predicate FillAt(s: State, p: nat)
    requires Shaped(s) && p < |s.vals|
  {
    var v := s.vals[p];
    && (v.ty == Object ==>
          && NameCount(s, p) <= |v.table| && Tiled(v.table, NameCount(s, p)) == Some(v.memPos)
          && Written(v.mem, v.memPos + if Reading(s, p) then s.strLen else 0))
    && (v.ty == Text ==> Written(v.mem, if Reading(s, p) then s.strLen else v.length + 1))
  }

  ghost predicate Filled(s: State) {
    Ready(s) && forall p :: 0 <= p < s.taken ==> FillAt(s, p)
  }

  /** A step within the current value: only that value can change. */
  lemma InsideFilled(s: State, t: State)
    requires Filled(s) && s.top.Some? && t.top == s.top && t.taken == s.taken && t.flags.done == s.flags.done
    requires |t.vals| == |s.vals| && forall i :: 0 <= i < |s.vals| && i != s.top.value ==> t.vals[i] == s.vals[i]
    requires Shaped(t) && t.vals[s.top.value].parent == s.vals[s.top.value].parent
    requires FillAt(t, s.top.value)
    ensures Filled(t)
  {
    hide Written, Tiled, Open, Arena;
    InsideOpen(s, t);
    forall p | 0 <= p < t.taken ensures FillAt(t, p) {
      assert FillAt(s, p);
    }
  }

  lemma InsideOpen(s: State, t: State)
    requires Shaped(s) && Shaped(t) && t.top == s.top && t.flags.done == s.flags.done && |t.vals| == |s.vals|
    requires forall i :: 0 <= i < |s.vals| ==> t.vals[i].parent == s.vals[i].parent
    ensures forall p: nat :: Open(s, p) == Open(t, p)
  {
    forall p: nat ensures Open(s, p) == Open(t, p) {
      if s.top.Some? { OnStackSame(s.vals, t.vals, s.top.value, p); }
    }
  }

  lemma EmitFilled(s: State, n: nat, bytes: seq<char>)
    requires Filled(s) && AtBase(s) && s.flags.inString && s.top.Some? && EmitBytes(false, s, n, bytes).More?
    requires TopOf(s) == InText || TopOf(s) == InObject
    ensures Filled(EmitBytes(false, s, n, bytes).s)
  {
    var t, k := EmitBytes(false, s, n, bytes).s, s.top.value;
    ArenaUpdate(s.vals, k, t.vals[k]);
    assert FillAt(s, k);
    OnStackSame(s.vals, t.vals, k, k);
    InsideFilled(s, t);
  }

  /** The closing quote of a name; `s` still has the flags of the string. */
  lemma NameFilled(s: State, ptr: nat, f: Flags)
    requires Filled(s) && AtBase(s) && s.flags.inString && !s.flags.done && s.top.Some? && TopOf(s) == InObject
    requires !f.inString && f.seekValue && !f.done
    requires FinishName(false, s.(ptr := ptr, flags := f)).More?
    ensures Filled(FinishName(false, s.(ptr := ptr, flags := f)).s)
  {
    hide Written, Tiled, Open, Arena, Put;
    var t, k := FinishName(false, s.(ptr := ptr, flags := f)).s, s.top.value;
    ArenaUpdate(s.vals, k, t.vals[k]);
    assert FillAt(s, k);
    assert Open(t, k) by { TopOpen(t); }
    NamedValue(s.vals[k], s.strLen);
    InsideFilled(s, t);
  }

  lemma TopOpen(t: State)
    requires Shaped(t) && t.top.Some? && !t.flags.done
    ensures Open(t, t.top.value)
  {
  }

  /** One more name, written behind the others, with its terminator. */
  lemma NamedValue(v: Value, strLen: nat)
    requires v.length < |v.table| && Tiled(v.table, v.length) == Some(v.memPos) && Written(v.mem, v.memPos + strLen)
    requires Put(v.mem, v.memPos + strLen, ['\0']).Some?
    ensures var table := v.table[v.length := v.table[v.length].(name := Some((v.memPos, strLen)))];
            Tiled(table, v.length + 1) == Some(v.memPos + strLen + 1)
    ensures Written(Put(v.mem, v.memPos + strLen, ['\0']).value, v.memPos + strLen + 1)
  {
    TiledSame(v.table, v.table[v.length := v.table[v.length].(name := Some((v.memPos, strLen)))], v.length);
  }

  lemma TextFilled(s: State, ptr: nat, f: Flags)
    requires Filled(s) && AtBase(s) && s.flags.inString && !s.flags.done && s.top.Some? && TopOf(s) == InText
    requires !f.inString && !f.done
    requires FinishText(false, s.(ptr := ptr, flags := f)).More?
    ensures Filled(FinishText(false, s.(ptr := ptr, flags := f)).s)
  {
    var t, k := FinishText(false, s.(ptr := ptr, flags := f)).s, s.top.value;
    ArenaUpdate(s.vals, k, t.vals[k]);
    assert FillAt(s, k);
    InsideFilled(s, t);
  }

  /** Finishing the root. */
  lemma RootFilled(s: State, t: State)
    requires Filled(s) && s.top.Some? && Quiet(s.flags) && s.vals[s.top.value].parent.None?
    requires t.vals == s.vals && t.top == s.top && t.taken == s.taken && t.flags.done && !t.flags.inString
    ensures Filled(t)
  {
    hide Written, Open, Tiled;
    RootOpen(s);
    forall p | 0 <= p < t.taken ensures FillAt(t, p) {
      assert FillAt(s, p);
      DoneClosed(t, p);
    }
  }

  /** A value other than the parent, when the current value is finished. */
  lemma OtherFillAt(s: State, t: State, p: nat)
    requires Filled(s) && Ready(t) && p < t.taken == s.taken && |t.vals| == |s.vals|
    requires s.top.Some? && Quiet(s.flags) && !t.flags.inString && t.top != Some(p) && t.vals[p] == s.vals[p]
    requires forall d: nat :: Open(t, d) <==> Open(s, d) && d != s.top.value
    ensures FillAt(t, p)
  {
    hide Written, Open, Tiled, Arena;
    assert FillAt(s, p);
    assert NameCount(t, p) == NameCount(s, p);
  }

  /** The parent, with the current value entered in its table. */
  lemma ParentFillAt(s: State, t: State, p: nat)
    requires Filled(s) && Ready(t) && p < t.taken == s.taken && |t.vals| == |s.vals|
    requires s.top.Some? && s.top != Some(p) && t.top == Some(p) && !t.flags.inString && !s.flags.inString && Open(s, p)
    requires var v, w := s.vals[p], t.vals[p];
             && w.ty == v.ty && IsContainer(v.ty) && v.length < |v.table| == |w.table| && w.length == v.length + 1
             && w.mem == v.mem && w.memPos == v.memPos && (v.ty == Object ==> !t.flags.seekValue)
             && forall k :: 0 <= k < |v.table| ==> w.table[k].name == v.table[k].name
    ensures FillAt(t, p)
  {
    hide Written, Open, Tiled, Arena;
    assert FillAt(s, p);
    if s.vals[p].ty == Object {
      assert NameCount(t, p) == NameCount(s, p);
      TiledSame(s.vals[p].table, t.vals[p].table, NameCount(s, p));
    }
  }

  /** Finishing the current value. */
  lemma NextFilled(s: State)
    requires Filled(s) && s.top.Some? && Quiet(s.flags) && Next(false, s).More?
    ensures Filled(Next(false, s).s)
  {
    hide FillAt, Open, OnStack;
    var t, c := Next(false, s).s, s.top.value;
    if s.vals[c].parent.None? {
      RootFilled(s, t);
    } else {
      var q := s.vals[c].parent.value;
      ArenaUpdate(s.vals, q, t.vals[q]);
      NextOpen(s, t);
      ParentOpen(s);
      assert q < c;
      forall p | 0 <= p < t.taken ensures FillAt(t, p) {
        if p == q { ParentFillAt(s, t, p); } else { OtherFillAt(s, t, p); }
      }
    }
  }

  lemma DoneClosed(t: State, p: nat)
    requires Shaped(t) && t.flags.done
    ensures !Open(t, p)
  {
  }

  lemma ParentOpen(s: State)
    requires Ready(s) && s.top.Some? && !s.flags.done && s.vals[s.top.value].parent.Some?
    ensures Open(s, s.vals[s.top.value].parent.value)
  {
  }

  /** A value taken up before, when the next one is. */
  lemma OlderFillAt(s: State, t: State, p: nat)
    requires Filled(s) && Ready(t) && p < s.taken < |s.vals| == |t.vals| && t.vals[p] == s.vals[p]
    requires !s.flags.done && !s.flags.inString && (s.top.Some? ==> s.flags.seekValue) && t.top == Some(s.taken)
    requires forall d: nat :: Open(t, d) <==> d == s.taken || Open(s, d)
    ensures FillAt(t, p)
  {
    hide Written, Open, Tiled, Arena;
    assert FillAt(s, p);
  }

  /** The value taken up, with fresh memory. */
  lemma FreshFillAt(t: State, n: nat, f: Value)
    requires Shaped(t) && t.top == Some(n) && n < |t.vals| && t.vals[n] == Allocate(f) && !t.flags.done
    requires f.table == [] && f.memPos == 0 && (f.ty == Text ==> t.flags.inString && t.strLen == 0)
    requires (t.flags.inString ==> f.ty == Text) && (f.ty == Object ==> !t.flags.seekValue)
    ensures FillAt(t, n)
  {
    hide Open, Arena;
    if f.ty == Object {
      assert !Awaiting(t, n);
    }
  }

  /** Taking up a value after the flags changed from those of `s`. */
  lemma NewFilled(s: State, s': State, ty: Type)
    requires Filled(s) && s.taken < |s.vals| && s.vals[s.taken].parent == s.top && !s.flags.done && !s.flags.inString
    requires s.top.Some? ==> s.flags.seekValue
    requires s'.vals == s.vals && s'.top == s.top && s'.taken == s.taken && !s'.flags.done
    requires var f := s.vals[s.taken];
             && f.table == [] && f.memPos == 0 && (f.ty == Text ==> s'.flags.inString && s'.strLen == 0)
             && (s'.flags.inString ==> f.ty == Text) && (f.ty == Object ==> !s'.flags.seekValue)
    ensures var o := NewValue(false, s', ty); o.More? && Filled(o.s)
  {
    hide Open, FillAt, Arena, OnStack;
    var t, n := NewValue(false, s', ty).s, s.taken;
    ArenaUpdate(s.vals, n, t.vals[n]);
    AllocateKeeps(s.vals[n]);
    NewOpen(s, t);
    forall p | 0 <= p < t.taken ensures FillAt(t, p) {
      if p < n { OlderFillAt(s, t, p); } else { FreshFillAt(t, n, s.vals[n]); }
    }
  }

  lemma AllocateKeeps(v: Value)
    ensures Allocate(v).parent == v.parent && Allocate(v).ty == v.ty
  {
  }
}
