/** Pass 2 retraces pass 1: it takes up the same values in the same order and its writes stay
    inside the memory that pass 1 measured. */
module JsonTwoPass {
  import opened Wrappers
  import opened Json
  import opened JsonControl
  import opened JsonMeasure

  /** Values as pass 1 leaves them: no memory attached yet. */
  ghost predicate Raw(vals: seq<Value>) {
    forall i :: 0 <= i < |vals| ==> vals[i].table == [] && vals[i].mem == [] && vals[i].memPos == 0
  }

  lemma NextRaw(s: State)
    requires Raw(s.vals)
    ensures var o := Next(true, s); !o.Accepted? && (o.More? ==> Raw(o.s.vals))
  {
  }

  lemma NewRaw(s: State, ty: Type)
    requires Raw(s.vals)
    ensures var o := NewValue(true, s, ty); o.More? && Raw(o.s.vals)
  {
  }

  lemma StepRaw(text: string, comments: bool, s: State)
    requires Raw(s.vals)
    ensures var o := Step(text, comments, true, s); (o.More? || o.Accepted?) ==> Raw(o.s.vals)
  {
    hide Decide, Put, Next, NewValue;
    if s.ptr > |text| { return; }
    var a := Decide(text, comments, true, s);
    if a.Close? {
      NextRaw(s.(ptr := a.ptr, flags := a.flags));
    } else if a.EndText? {
      var o := FinishText(true, s.(ptr := a.ptr, flags := a.flags));
      if o.More? { NextRaw(o.s); }
    } else if a.Begin? {
      NewRaw(Opening(s, a.ptr, a.flags, a.ty), a.ty);
    } else if a.Leaf? {
      NewRaw(s.(ptr := a.ptr, flags := a.flags), a.ty);
      NextRaw(NewValue(true, s.(ptr := a.ptr, flags := a.flags), a.ty).s);
    }
  }

  lemma {:induction false} RunRaw(text: string, comments: bool, s: State, n: nat)
    requires Raw(s.vals) && Run(text, comments, true, s, n).Accepted?
    ensures Raw(Run(text, comments, true, s, n).s.vals)
    decreases n
  {
    hide Step;
    StepRaw(text, comments, s);
    var o := Step(text, comments, true, s);
    if o.More? { RunRaw(text, comments, o.s, n - 1); }
  }

  /** Value `v` in pass 1, `w` the same value in pass 2, `f` what pass 1 made of it in the end. */
  ghost predicate AgreeAt(v: Value, w: Value, f: Value) {
    && v.parent == f.parent && w.parent == f.parent && w.ty == f.ty && KindOf(v.ty) == KindOf(f.ty)
    && (IsContainer(f.ty) || f.ty == Text ==> w.length == v.length)
    && (IsContainer(f.ty) ==> |w.table| == f.length)
    && (f.ty == Object ==> w.memPos == v.nameArea && |w.mem| == if f.length > 0 then f.nameArea else 0)
    && (f.ty == Text ==> |w.mem| == f.length + 1)
    && (!IsContainer(f.ty) ==> w.table == []) && (f.ty != Text && f.ty != Object ==> w.mem == [])
  }

  /** State `x` of pass 1 and state `y` of pass 2 at the same place in the text; `F` holds the
      values at the end of pass 1. */
  ghost predicate Core(x: State, y: State, F: seq<Value>) {
    && y.ptr == x.ptr && y.flags == x.flags && y.top == x.top && y.root == x.root && y.strLen == x.strLen
    && y.taken == x.taken == |x.vals| <= |F| == |y.vals|
    && (x.top.Some? ==> x.top.value < |x.vals|)
    && (forall i :: 0 <= i < |x.vals| ==> AgreeAt(x.vals[i], y.vals[i], F[i]))
    && (forall i :: |x.vals| <= i < |F| ==> y.vals[i] == F[i])
  }

  ghost predicate Agree(x: State, y: State, F: seq<Value>) { Core(x, y, F) && AtBase(y) }

  /** What is counted or under way for value `i` fits what was measured in the end. */
  ghost predicate BoundAt(x: State, F: seq<Value>, i: nat)
    requires Shaped(x) && i < |x.vals| && i < |F|
  {
    && F[i].parent == x.vals[i].parent && KindOf(F[i].ty) == KindOf(x.vals[i].ty)
    && Length(x, i) <= F[i].length && NameBytes(x, i) <= F[i].nameArea
  }

  ghost predicate Bounded(x: State, F: seq<Value>) {
    && Shaped(x) && |x.vals| <= |F|
    && forall i :: 0 <= i < |x.vals| ==> BoundAt(x, F, i)
  }

  lemma GrewBounded(x: State, x': State, F: seq<Value>)
    requires Grew(x, x') && Bounded(x', F)
    ensures Bounded(x, F)
  {
    hide Arena, Length, NameBytes;
    forall i | 0 <= i < |x.vals| ensures BoundAt(x, F, i) {
      assert GrewAt(x, x', i) && BoundAt(x', F, i);
    }
  }

  lemma DoneBounded(t: State)
    requires Shaped(t) && t.flags.done && !t.flags.inString
    ensures Bounded(t, t.vals)
  {
  }

  lemma RunBounded(text: string, comments: bool, x: State, n: nat)
    requires Wf(text, comments, x) && Run(text, comments, true, x, n).Accepted?
    ensures Bounded(x, Run(text, comments, true, x, n).s.vals)
  {
    hide Run, Arena, Grew, Bounded;
    RunGrows(text, comments, x, n);
    var t := Run(text, comments, true, x, n).s;
    DoneBounded(t);
    GrewBounded(x, t, t.vals);
  }

  // ---------------------------------------------------------------- decisions

  /** Outside numbers both passes decide alike, except that pass 2 takes a number in one go. */
  lemma SameDecision(text: string, comments: bool, ptr: nat, f: Flags, top: Top, strLen: nat)
    requires ptr <= |text|
    ensures var a := DecidePlain(text, comments, true, ptr, f, top, strLen);
            var b := DecidePlain(text, comments, false, ptr, f, top, strLen);
            if a.Begin? && a.ty == Integer
            then b == Leaf(NumberEnd(text, ptr), a.flags, Integer)
            else a == b
  {
    hide DecideString, DecideComment, DecideSlash, DecideDone, DecideObject, DecideValue, NumberEnd;
    StringNoBegin(text, ptr, f, top, strLen);
    SameValue(text, ptr, f.(seekValue := false));
  }

  lemma SameValue(text: string, ptr: nat, f: Flags)
    requires ptr <= |text|
    ensures var a, b := DecideValue(text, true, ptr, f), DecideValue(text, false, ptr, f);
            if a.Begin? && a.ty == Integer then b == Leaf(NumberEnd(text, ptr), a.flags, Integer) else a == b
  {
    hide NumberEnd;
  }

  lemma StringNoBegin(text: string, ptr: nat, f: Flags, top: Top, strLen: nat)
    requires ptr <= |text|
    ensures !DecideString(text, ptr, f, top, strLen).Begin? && !DecideComment(text, ptr, f).Begin?
    ensures ptr < |text| ==> !DecideSlash(text, ptr, f, top).Begin?
    ensures !DecideDone(text, ptr, f).Begin? && !DecideObject(text, ptr, f).Begin?
  {
    hide Utf8, Width, Hex4, Merge;
  }

  lemma SameTop(x: State, y: State, F: seq<Value>)
    requires Agree(x, y, F)
    ensures TopOf(x) == TopOf(y)
  {
  }

  // ------------------------------------------------------------------ effects

  lemma NextAgrees(x: State, y: State, F: seq<Value>)
    requires Agree(x, y, F) && Arena(x.vals) && Quiet(x.flags) && Next(true, x).More?
    requires Bounded(Next(true, x).s, F)
    ensures var o := Next(false, y); o.More? && Agree(Next(true, x).s, o.s, F)
  {
    hide Bounded;
    var x' := Next(true, x).s;
    var t := x.top.value;
    if x.vals[t].parent.Some? {
      var p := x.vals[t].parent.value;
      assert AgreeAt(x.vals[p], y.vals[p], F[p]);
      BoundedAt(x', F, p);
    }
  }

  lemma BoundedAt(x: State, F: seq<Value>, i: nat)
    requires Bounded(x, F) && i < |x.vals|
    ensures Shaped(x) && i < |F| && BoundAt(x, F, i)
  {
  }

  lemma NewAgrees(x: State, y: State, F: seq<Value>, ty: Type)
    requires Core(x, y, F) && Raw(F) && NewValue(true, x, ty).More?
    requires Bounded(NewValue(true, x, ty).s, F)
    requires x.flags.inString ==> y.strBase == 0 && ty == Text
    ensures var o := NewValue(false, y, ty); o.More? && Agree(NewValue(true, x, ty).s, o.s, F)
  {
    var x' := NewValue(true, x, ty).s;
    BoundedAt(x', F, |x.vals|);
  }

  lemma EmitAgrees(x: State, y: State, F: seq<Value>, n: nat, bytes: seq<char>)
    requires Agree(x, y, F) && n == |bytes| && x.flags.inString && !x.flags.done && x.top.Some?
    requires TopOf(x) == InText || TopOf(x) == InObject
    requires Bounded(EmitBytes(true, x, n, bytes).s, F)
    ensures var o := EmitBytes(false, y, n, bytes); o.More? && Agree(EmitBytes(true, x, n, bytes).s, o.s, F)
  {
    hide Bounded;
    var x' := EmitBytes(true, x, n, bytes).s;
    var t := x.top.value;
    assert AgreeAt(x.vals[t], y.vals[t], F[t]);
    BoundedAt(x', F, t);
  }

  lemma NameAgrees(x: State, y: State, F: seq<Value>)
    requires Agree(x, y, F) && !x.flags.inString && x.flags.seekValue && !x.flags.done
    requires x.top.Some? && TopOf(x) == InObject
    requires y.strBase == y.vals[x.top.value].memPos
    requires Bounded(FinishName(true, x).s, F)
    ensures var o := FinishName(false, y); o.More? && Agree(FinishName(true, x).s, o.s, F)
  {
    hide Bounded;
    var x' := FinishName(true, x).s;
    var t := x.top.value;
    assert AgreeAt(x.vals[t], y.vals[t], F[t]);
    BoundedAt(x', F, t);
  }

  lemma TextAgrees(x: State, y: State, F: seq<Value>)
    requires Agree(x, y, F) && !x.flags.inString && x.top.Some? && TopOf(x) == InText
    requires y.strBase == 0 && x.strLen <= F[x.top.value].length
    ensures var o := FinishText(false, y); o.More? && Agree(FinishText(true, x).s, o.s, F)
  {
    var t := x.top.value;
    assert AgreeAt(x.vals[t], y.vals[t], F[t]);
  }

  /** Actions within the current value. */
  lemma ApplyInsideAgrees(text: string, comments: bool, x: State, y: State, F: seq<Value>, a: Action)
    requires Wf(text, comments, x) && Agree(x, y, F)
    requires Sound(text, comments, true, x.ptr, x.flags, TopOf(x), a)
    requires a.Go? || a.BeginName? || a.Emit? || a.EndName?
    requires Apply(true, x, a).More? && Bounded(Apply(true, x, a).s, F)
    ensures var o := Apply(false, y, a); o.More? && Agree(Apply(true, x, a).s, o.s, F)
  {
    hide Arena, Bounded, EmitBytes, FinishName;
    if a.Emit? {
      EmitAgrees(x.(ptr := a.ptr, flags := a.flags), y.(ptr := a.ptr, flags := a.flags), F, a.n, a.bytes);
    } else if a.EndName? {
      NameAgrees(x.(ptr := a.ptr, flags := a.flags), y.(ptr := a.ptr, flags := a.flags), F);
    } else if a.BeginName? {
      assert AgreeAt(x.vals[x.top.value], y.vals[x.top.value], F[x.top.value]);
    }
  }

  /** A value created and finished at once; in pass 1 its type may change to a double. */
  lemma LeafAgrees(x: State, y: State, F: seq<Value>, ty: Type)
    requires Core(x, y, F) && Raw(F) && Quiet(x.flags) && Arena(x.vals)
    requires (x.top.None? <==> x.vals == []) && (x.top.Some? ==> IsContainer(x.vals[x.top.value].ty))
    requires x.root == (if x.vals == [] then None else Some(0))
    requires Then(true, NewValue(true, x, ty)).More? && Bounded(Then(true, NewValue(true, x, ty)).s, F)
    ensures var o := Then(false, NewValue(false, y, ty)); o.More? && Agree(Then(true, NewValue(true, x, ty)).s, o.s, F)
  {
    hide NewValue, Next, Bounded, Raw, Arena;
    NewWf(x, ty);
    var m := NewValue(true, x, ty).s;
    NextGrows(m);
    GrewBounded(m, Next(true, m).s, F);
    NewAgrees(x, y, F, ty);
    NextAgrees(m, NewValue(false, y, ty).s, F);
  }

  /** Actions that create or finish values. */
  lemma ApplyValueAgrees(text: string, comments: bool, x: State, y: State, F: seq<Value>, a: Action)
    requires Wf(text, comments, x) && Agree(x, y, F) && Raw(F)
    requires Sound(text, comments, true, x.ptr, x.flags, TopOf(x), a)
    requires a.Begin? || a.Leaf? || a.EndText? || a.Close?
    requires Apply(true, x, a).More? && Bounded(Apply(true, x, a).s, F) && Bounded(x, F)
    ensures var o := Apply(false, y, a); o.More? && Agree(Apply(true, x, a).s, o.s, F)
  {
    hide Arena, Next, NewValue, Bounded, FinishText, Raw;
    var x', y' := x.(ptr := a.ptr, flags := a.flags), y.(ptr := a.ptr, flags := a.flags);
    if a.Begin? {
      NewAgrees(Opening(x, a.ptr, a.flags, a.ty), Opening(y, a.ptr, a.flags, a.ty), F, a.ty);
    } else if a.Leaf? {
      LeafAgrees(x', y', F, a.ty);
    } else if a.EndText? {
      BoundedAt(x, F, x.top.value);
      TextAgrees(x', y', F);
      FinishTextArena(x');
      NextAgrees(FinishText(true, x').s, FinishText(false, y').s, F);
    } else {
      NextAgrees(x', y', F);
    }
  }

  lemma FinishTextArena(x: State)
    requires Arena(x.vals) && x.top.Some? && x.top.value < |x.vals|
    ensures var o := FinishText(true, x); o.More? && Arena(o.s.vals) && o.s.flags == x.flags
  {
    ArenaUpdate(x.vals, x.top.value, x.vals[x.top.value].(length := x.strLen));
  }

  // ------------------------------------------------------------------ numbers

  lemma {:induction false} NumberEndIs(text: string, i: nat, j: nat)
    requires i <= j <= |text| && (forall k :: i <= k < j ==> IsNumberChar(text[k])) && !IsNumberChar(CharAt(text, j))
    ensures NumberEnd(text, i) == j
    decreases j - i
  {
    if i < j { NumberEndIs(text, i + 1, j); }
  }

  /** A character that could belong to a number is never accepted right after a number. */
  lemma NoNumberAfterNumber(text: string, comments: bool, k: State)
    requires Wf(text, comments, k) && NumberMode(comments, k.flags, TopOf(k)) && Next(true, k).More?
    requires IsNumberChar(CharAt(text, k.ptr))
    ensures Step(text, comments, true, Next(true, k).s).Rejected?
  {
    var z := Next(true, k).s;
    assert z.flags.needComma && !z.flags.inString && z.ptr == k.ptr;
    if k.vals[k.top.value].parent.Some? {
      assert IsContainer(k.vals[k.vals[k.top.value].parent.value].ty);
    }
  }

  /** `k` differs from `x` only inside the number being read. */
  ghost predicate SameBut(x: State, k: State) {
    && k.flags == x.flags && k.top == x.top && k.root == x.root && k.taken == x.taken
    && k.strLen == x.strLen && k.strBase == x.strBase && x.top.Some? && x.top.value < |x.vals| == |k.vals|
    && (forall i :: 0 <= i < |x.vals| && i != x.top.value ==> k.vals[i] == x.vals[i])
    && k.vals[x.top.value].parent == x.vals[x.top.value].parent
    && KindOf(k.vals[x.top.value].ty) == KindOf(x.vals[x.top.value].ty) == InNumber
  }

  /** Pass 1 reads a number up to its first foreign character, where it finishes the value. */
  lemma {:induction false} NumberRun(text: string, comments: bool, x: State, n: nat, start: nat)
    returns (k: State, n': nat)
    requires Wf(text, comments, x) && NumberMode(comments, x.flags, TopOf(x))
    requires Run(text, comments, true, x, n).Accepted?
    requires start <= x.ptr && forall i :: start <= i < x.ptr ==> IsNumberChar(text[i])
    ensures Wf(text, comments, k) && NumberMode(comments, k.flags, TopOf(k)) && SameBut(x, k)
    ensures start <= |text| && k.ptr == NumberEnd(text, start)
    ensures n' < n && Next(true, k).More?
    ensures Run(text, comments, true, Next(true, k).s, n') == Run(text, comments, true, x, n)
    decreases n
  {
    hide Wf, Next, Run, Step, NumberEnd;
    assert n > 0 by { RunZero(text, comments, x); }
    RunStep(text, comments, x, n);
    StepWf(text, comments, x);
    NumberStep(text, comments, x);
    var o := Step(text, comments, true, x);
    if Decide(text, comments, true, x).Digits? {
      k, n' := NumberRun(text, comments, o.s, n - 1, start);
    } else {
      k, n' := x, n - 1;
      if IsNumberChar(CharAt(text, x.ptr)) {
        NoNumberAfterNumber(text, comments, x);
        RunRejected(text, comments, o.s, n - 1);
      }
      WfPtr(text, comments, x);
      NumberEndIs(text, start, x.ptr);
    }
  }

  lemma WfPtr(text: string, comments: bool, x: State)
    requires Wf(text, comments, x)
    ensures x.ptr <= |text|
  {
  }

  lemma RunZero(text: string, comments: bool, x: State)
    ensures Run(text, comments, true, x, 0).More?
  {
  }

  lemma RunStep(text: string, comments: bool, x: State, n: nat)
    requires n > 0 && Run(text, comments, true, x, n).Accepted?
    ensures var o := Step(text, comments, true, x);
            if o.More? then Run(text, comments, true, x, n) == Run(text, comments, true, o.s, n - 1)
            else o == Run(text, comments, true, x, n)
  {
    hide Step;
  }

  lemma RunRejected(text: string, comments: bool, x: State, n: nat)
    requires Step(text, comments, true, x).Rejected?
    ensures !Run(text, comments, true, x, n).Accepted?
  {
    hide Step;
  }

  /** Inside a number pass 1 either reads one more of its characters or finishes it. */
  lemma NumberStep(text: string, comments: bool, x: State)
    requires Wf(text, comments, x) && NumberMode(comments, x.flags, TopOf(x))
    ensures var a, o := Decide(text, comments, true, x), Step(text, comments, true, x);
            && (a.Fail? || a.Digits? || a == Close(x.ptr, x.flags))
            && (a.Fail? ==> o.Rejected?)
            && (a.Digits? ==> && o.More? && SameBut(x, o.s) && o.s.ptr == x.ptr + 1 <= |text|
                              && IsNumberChar(text[x.ptr]) && NumberMode(comments, o.s.flags, TopOf(o.s)))
            && (a.Close? ==> o == Next(true, x))
  {
    hide Next, Arena;
  }
}
