/** The two passes together (json_parse_ex). */
module JsonParse {
  import opened Wrappers
  import opened Json
  import opened JsonControl
  import opened JsonMeasure
  import opened JsonTwoPass
  import opened JsonTree
  import opened JsonFill
  import JsonRead
  import JsonAccept
  import JsonLayout
  import opened JsonDenotes
  import G = JsonGrammar

  /** The invariant of pass 2 on what it has built so far. */
  ghost predicate Good(y: State) { Linked(y) && Filled(y) }

  /** A change of position and flags that opens or closes nothing. */
  lemma FlagsGood(y: State, t: State)
    requires Good(y) && t.vals == y.vals && t.top == y.top && t.taken == y.taken && t.flags.done == y.flags.done
    requires (t.flags.inString == y.flags.inString && t.strLen == y.strLen) ||
             (!y.flags.inString && t.flags.inString && t.strLen == 0)
    requires y.top.Some? && y.vals[y.top.value].ty == Object ==>
               (t.flags.seekValue && !t.flags.inString <==> y.flags.seekValue && !y.flags.inString)
    requires y.top.Some? && y.vals[y.top.value].ty == Text ==> t.flags.inString == y.flags.inString
    ensures Good(t)
  {
    SameLinked(y, t);
    if y.top.Some? {
      var k := y.top.value;
      assert FillAt(y, k);
      InsideFilled(y, t);
    } else {
      forall p | 0 <= p < t.taken ensures FillAt(t, p) { assert FillAt(y, p); }
    }
  }

  lemma EmitGood(y: State, n: nat, bytes: seq<char>)
    requires Good(y) && AtBase(y) && y.flags.inString && y.top.Some? && EmitBytes(false, y, n, bytes).More?
    requires TopOf(y) == InText || TopOf(y) == InObject
    ensures Good(EmitBytes(false, y, n, bytes).s)
  {
    hide Linked, Filled;
    EmitFilled(y, n, bytes);
    SameLinked(y, EmitBytes(false, y, n, bytes).s);
  }

  lemma NameGood(y: State, ptr: nat, f: Flags)
    requires Good(y) && AtBase(y) && y.flags.inString && !y.flags.done && y.top.Some? && TopOf(y) == InObject
    requires !f.inString && f.seekValue && !f.done
    requires FinishName(false, y.(ptr := ptr, flags := f)).More?
    ensures Good(FinishName(false, y.(ptr := ptr, flags := f)).s)
  {
    hide Linked, Filled;
    NameFilled(y, ptr, f);
    SameLinked(y, FinishName(false, y.(ptr := ptr, flags := f)).s);
  }

  lemma TextGood(y: State, ptr: nat, f: Flags)
    requires Good(y) && AtBase(y) && y.flags.inString && !y.flags.done && y.top.Some? && TopOf(y) == InText
    requires !f.inString && !f.done
    requires FinishText(false, y.(ptr := ptr, flags := f)).More?
    ensures Good(FinishText(false, y.(ptr := ptr, flags := f)).s)
  {
    hide Linked, Filled;
    TextFilled(y, ptr, f);
    SameLinked(y, FinishText(false, y.(ptr := ptr, flags := f)).s);
  }

  lemma NextGood(y: State)
    requires Good(y) && y.top.Some? && Quiet(y.flags) && Next(false, y).More?
    ensures Good(Next(false, y).s)
  {
    hide Linked, Filled;
    NextLinked(y);
    NextFilled(y);
  }

  /** `f`, the next value to take up, as pass 1 left it. */
  ghost predicate NextUp(y: State, t: State) {
    && y.taken < |y.vals| && y.vals[y.taken].parent == y.top && !y.flags.done && !y.flags.inString
    && (y.top.Some? ==> y.flags.seekValue)
    && t.vals == y.vals && t.top == y.top && t.taken == y.taken && !t.flags.done
    && var f := y.vals[y.taken];
       f.table == [] && f.memPos == 0 && (f.ty == Text <==> t.flags.inString) &&
       (f.ty == Text ==> t.strLen == 0) && (f.ty == Object ==> !t.flags.seekValue)
  }

  lemma NewGood(y: State, t: State, ty: Type)
    requires Good(y) && NextUp(y, t)
    ensures var o := NewValue(false, t, ty); o.More? && Good(o.s)
  {
    hide Linked, Filled;
    NewFilled(y, t, ty);
    SameLinked(y, t);
    NewLinked(t, ty);
  }

  /** The next value of pass 2 is the one pass 1 created here. */
  lemma NextIsUp(x: State, y: State, F: seq<Value>, x': State, t: State, ty: Type)
    requires Core(x, y, F) && Raw(F) && Bounded(x', F)
    requires |x.vals| < |x'.vals| && x'.vals[|x.vals|].parent == x.top && KindOf(x'.vals[|x.vals|].ty) == KindOf(ty)
    requires !x.flags.done && !x.flags.inString && (x.top.Some? ==> x.flags.seekValue)
    requires t.vals == y.vals && t.top == y.top && t.taken == y.taken && !t.flags.done
    requires t.flags.inString <==> ty == Text
    requires (ty == Text ==> t.strLen == 0) && (ty == Object ==> !t.flags.seekValue)
    ensures NextUp(y, t)
  {
    hide Bounded;
    BoundedAt(x', F, |x.vals|);
  }

  /** A finished leaf. */
  lemma LeafGood(y: State, t: State, ty: Type)
    requires Good(y) && NextUp(y, t) && Quiet(t.flags) && Then(false, NewValue(false, t, ty)).More?
    ensures Good(Then(false, NewValue(false, t, ty)).s)
  {
    hide Good, Next;
    NewGood(y, t, ty);
    var m := NewValue(false, t, ty).s;
    assert m.flags == t.flags && m.top.Some?;
    NextGood(m);
  }

  /** What a creation leaves in pass 1. */
  lemma Created(s: State, ty: Type)
    requires Arena(s.vals) && s.taken == |s.vals|
    ensures var m := NewValue(true, s, ty).s;
            && |m.vals| == |s.vals| + 1 && m.vals[|s.vals|].parent == s.top && m.vals[|s.vals|].ty == ty
            && (var o := Next(true, m);
                o.More? ==>
                  && |o.s.vals| == |s.vals| + 1
                  && o.s.vals[|s.vals|].parent == s.top && o.s.vals[|s.vals|].ty == ty)
  {
  }

  lemma InsideGood(text: string, comments: bool, x: State, y: State, F: seq<Value>, a: Action)
    requires Wf(text, comments, x) && Agree(x, y, F) && Good(y)
    requires Sound(text, comments, true, x.ptr, x.flags, TopOf(x), a)
    requires (a.Go? && (TopOf(x) == InNumber ==> x.flags.done)) || a.BeginName? || a.Emit? || a.EndName?
    requires Apply(false, y, a).More?
    ensures Good(Apply(false, y, a).s)
  {
    hide Good, Arena, EmitBytes, FinishName;
    SameTop(x, y, F);
    if a.EndName? {
      NameGood(y, a.ptr, a.flags);
    } else if a.Emit? {
      var t := y.(ptr := a.ptr, flags := a.flags);
      FlagsGood(y, t);
      EmitGood(t, a.n, a.bytes);
    } else {
      FlagsGood(y, Apply(false, y, a).s);
    }
  }

  lemma ValueGood(text: string, comments: bool, x: State, y: State, F: seq<Value>, a: Action)
    requires Wf(text, comments, x) && Agree(x, y, F) && Raw(F) && Good(y)
    requires Sound(text, comments, true, x.ptr, x.flags, TopOf(x), a)
    requires a.Begin? || a.Leaf? || a.EndText? || (a.Close? && TopOf(x) != InNumber)
    requires Apply(true, x, a).More? && Bounded(Apply(true, x, a).s, F) && Apply(false, y, a).More?
    ensures Good(Apply(false, y, a).s)
  {
    hide Good, Arena, Next, Bounded, Raw, FinishText;
    SameTop(x, y, F);
    var x' := Apply(true, x, a).s;
    if a.Begin? {
      Created(Opening(x, a.ptr, a.flags, a.ty), a.ty);
      NextIsUp(x, y, F, x', Opening(y, a.ptr, a.flags, a.ty), a.ty);
      NewGood(y, Opening(y, a.ptr, a.flags, a.ty), a.ty);
    } else if a.Leaf? {
      Created(x.(ptr := a.ptr, flags := a.flags), a.ty);
      NextIsUp(x, y, F, x', y.(ptr := a.ptr, flags := a.flags), a.ty);
      LeafGood(y, y.(ptr := a.ptr, flags := a.flags), a.ty);
    } else if a.EndText? {
      TextGood(y, a.ptr, a.flags);
      FinishTextKeeps(y.(ptr := a.ptr, flags := a.flags));
      NextGood(FinishText(false, y.(ptr := a.ptr, flags := a.flags)).s);
    } else {
      FlagsGood(y, y.(ptr := a.ptr, flags := a.flags));
      NextGood(y.(ptr := a.ptr, flags := a.flags));
    }
  }

  lemma FinishTextKeeps(s: State)
    ensures var o := FinishText(false, s); o.More? ==> o.s.flags == s.flags && o.s.top == s.top
  {
  }

  // --------------------------------------------------------------- simulation

  /** One iteration outside numbers, in both passes. */
  lemma StepBoth(text: string, comments: bool, x: State, y: State, F: seq<Value>)
    requires Wf(text, comments, x) && !NumberMode(comments, x.flags, TopOf(x)) && Agree(x, y, F) && Good(y)
    requires Raw(F) && Bounded(x, F)
    requires var a := Decide(text, comments, true, x); !(a.Begin? && a.ty == Integer)
    requires Step(text, comments, true, x).More? && Bounded(Step(text, comments, true, x).s, F)
    ensures var x', o := Step(text, comments, true, x).s, Step(text, comments, false, y);
            o.More? && Agree(x', o.s, F) && Good(o.s) && !NumberMode(comments, x'.flags, TopOf(x'))
  {
    hide Wf, Good, Bounded, Raw, Agree, DecidePlain, Apply, Sound;
    var a := SameAction(text, comments, x, y, F);
    if a.Go? || a.BeginName? || a.Emit? || a.EndName? {
      GoNoNumber(text, comments, x, a);
      ApplyInsideAgrees(text, comments, x, y, F, a);
      InsideGood(text, comments, x, y, F, a);
    } else {
      ValueNoNumber(text, comments, x, a);
      ApplyValueAgrees(text, comments, x, y, F, a);
      ValueGood(text, comments, x, y, F, a);
    }
  }

  /** Both passes take the same action outside numbers. */
  lemma SameAction(text: string, comments: bool, x: State, y: State, F: seq<Value>) returns (a: Action)
    requires Wf(text, comments, x) && !NumberMode(comments, x.flags, TopOf(x)) && Agree(x, y, F)
    ensures y.ptr == x.ptr <= |text| && a == Decide(text, comments, true, x)
    ensures Sound(text, comments, true, x.ptr, x.flags, TopOf(x), a) && !a.Digits?
    ensures var b := Decide(text, comments, false, y);
            if a.Begin? && a.ty == Integer then b == Leaf(NumberEnd(text, x.ptr), a.flags, Integer) else b == a
    ensures TopOf(x) == InNumber ==> x.flags.done
  {
    hide DecidePlain, DecideNumber, Arena;
    SameTop(x, y, F);
    SameDecision(text, comments, x.ptr, x.flags, TopOf(x), x.strLen);
    DecideSound(text, comments, true, x);
    a := Decide(text, comments, true, x);
  }

  lemma GoNoNumber(text: string, comments: bool, x: State, a: Action)
    requires Wf(text, comments, x) && !NumberMode(comments, x.flags, TopOf(x))
    requires Sound(text, comments, true, x.ptr, x.flags, TopOf(x), a) && Apply(true, x, a).More?
    requires a.Go? || a.BeginName? || a.Emit? || a.EndName?
    ensures var x' := Apply(true, x, a).s; !NumberMode(comments, x'.flags, TopOf(x'))
    ensures TopOf(x) == InNumber ==> x.flags.done
  {
    hide Arena;
  }

  lemma ValueNoNumber(text: string, comments: bool, x: State, a: Action)
    requires Wf(text, comments, x) && !NumberMode(comments, x.flags, TopOf(x))
    requires Sound(text, comments, true, x.ptr, x.flags, TopOf(x), a) && Apply(true, x, a).More?
    requires !(a.Go? || a.BeginName? || a.Emit? || a.EndName? || a.Digits?) && !(a.Begin? && a.ty == Integer)
    ensures var x' := Apply(true, x, a).s; !NumberMode(comments, x'.flags, TopOf(x'))
    ensures a.Begin? || a.Leaf? || a.EndText? || (a.Close? && TopOf(x) != InNumber)
  {
    hide Arena, Next;
    if a.Close? {
      NextNoNumber(x.(ptr := a.ptr, flags := a.flags));
    } else if a.EndText? {
      FinishTextArena(x.(ptr := a.ptr, flags := a.flags));
      NextNoNumber(FinishText(true, x.(ptr := a.ptr, flags := a.flags)).s);
    } else if a.Leaf? {
      NewWf(x.(ptr := a.ptr, flags := a.flags), a.ty);
      NextNoNumber(NewValue(true, x.(ptr := a.ptr, flags := a.flags), a.ty).s);
    } else if a.Begin? {
      NewWf(Opening(x, a.ptr, a.flags, a.ty), a.ty);
    }
  }

  lemma NextNoNumber(s: State)
    requires Arena(s.vals) && s.top.Some? && s.top.value < |s.vals| && Next(true, s).More?
    ensures var t := Next(true, s).s; t.flags.done || TopOf(t) != InNumber
  {
    if s.vals[s.top.value].parent.Some? { assert IsContainer(s.vals[s.vals[s.top.value].parent.value].ty); }
  }

  /** A whole number in pass 1, one iteration in pass 2. */
  lemma NumberBoth(text: string, comments: bool, x: State, y: State, F: seq<Value>, g: Flags, p: nat, k: State)
    requires Wf(text, comments, x) && Agree(x, y, F) && Good(y) && Raw(F)
    requires Sound(text, comments, true, x.ptr, x.flags, TopOf(x), Begin(p, g, Integer))
    requires var x1 := NewValue(true, Opening(x, p, g, Integer), Integer).s;
             Bounded(x1, F) && SameBut(x1, k) && Wf(text, comments, k) && x1.flags == g
    requires Quiet(g) && Next(true, k).More? && Bounded(Next(true, k).s, F)
    ensures var o := Apply(false, y, Leaf(k.ptr, g, Integer)); o.More? && Agree(Next(true, k).s, o.s, F) && Good(o.s)
  {
    hide Good, Next, Bounded, Raw, Arena;
    var x1 := NewValue(true, Opening(x, p, g, Integer), Integer).s;
    var y1 := NewValue(false, Opening(y, p, g, Integer), Integer);
    NewAgrees(Opening(x, p, g, Integer), Opening(y, p, g, Integer), F, Integer);
    var t := y.(ptr := k.ptr, flags := g);
    var m := NewValue(false, t, Integer).s;
    assert m == y1.s.(ptr := k.ptr, num := y.num);
    NumberAgrees(x1, y1.s, k, m, F);
    NextAgrees(k, m, F);
    Created(Opening(x, p, g, Integer), Integer);
    NextIsUp(x, y, F, x1, t, Integer);
    LeafGood(y, t, Integer);
  }

  lemma NumberAgrees(x1: State, y1: State, k: State, m: State, F: seq<Value>)
    requires Agree(x1, y1, F) && SameBut(x1, k) && m == y1.(ptr := k.ptr, num := m.num)
    ensures Agree(k, m, F)
  {
    forall i | 0 <= i < |k.vals| ensures AgreeAt(k.vals[i], m.vals[i], F[i]) {
      assert AgreeAt(x1.vals[i], y1.vals[i], F[i]);
    }
  }

  /** The part of a run that reads a number. */
  lemma NumberPart(text: string, comments: bool, x: State, y: State, n: nat) returns (z: State, n': nat)
    requires Wf(text, comments, x) && !NumberMode(comments, x.flags, TopOf(x)) && Good(y)
    requires Run(text, comments, true, x, n).Accepted?
    requires var F := Run(text, comments, true, x, n).s.vals; Raw(F) && Agree(x, y, F)
    requires var a := Decide(text, comments, true, x); a.Begin? && a.ty == Integer
    ensures Wf(text, comments, z) && !NumberMode(comments, z.flags, TopOf(z))
    ensures n' < n && Run(text, comments, true, z, n') == Run(text, comments, true, x, n)
    ensures var F, o := Run(text, comments, true, x, n).s.vals, Step(text, comments, false, y);
            o.More? && Agree(z, o.s, F) && Good(o.s)
  {
    hide Wf, Good, Raw, Agree, Bounded, Run, DecidePlain, DecideNumber, Next, NumberEnd;
    var F := Run(text, comments, true, x, n).s.vals;
    var a := SameAction(text, comments, x, y, F);
    assert n > 0 by { RunZero(text, comments, x); }
    RunStep(text, comments, x, n);
    StepWf(text, comments, x);
    NumberOpens(text, comments, x, a);
    var x1 := Step(text, comments, true, x).s;
    RunBounded(text, comments, x1, n - 1);
    var k;
    k, n' := NumberRun(text, comments, x1, n - 1, x.ptr);
    z := Next(true, k).s;
    AfterNumber(text, comments, k);
    RunBounded(text, comments, z, n');
    NumberBoth(text, comments, x, y, F, a.flags, a.ptr, k);
  }

  lemma AfterNumber(text: string, comments: bool, k: State)
    requires Wf(text, comments, k) && NumberMode(comments, k.flags, TopOf(k)) && Next(true, k).More?
    ensures var z := Next(true, k).s; Wf(text, comments, z) && !NumberMode(comments, z.flags, TopOf(z))
  {
    hide Next;
    NextWf(text, comments, k);
    NextNoNumber(k);
  }

  /** The start of a number in pass 1. */
  lemma NumberOpens(text: string, comments: bool, x: State, a: Action)
    requires Wf(text, comments, x) && !NumberMode(comments, x.flags, TopOf(x))
    requires a == Decide(text, comments, true, x) && a.Begin? && a.ty == Integer
    requires Sound(text, comments, true, x.ptr, x.flags, TopOf(x), a)
    ensures var o := Step(text, comments, true, x);
            && o == NewValue(true, Opening(x, a.ptr, a.flags, Integer), Integer) && o.More?
            && NumberMode(comments, o.s.flags, TopOf(o.s)) && o.s.flags == a.flags && Quiet(a.flags)
            && x.ptr <= o.s.ptr <= |text| && (forall i :: x.ptr <= i < o.s.ptr ==> IsNumberChar(text[i]))
  {
    hide DecideString, DecideComment, DecideSlash, DecideDone, DecideObject, NumberEnd, Arena;
    StringNoBegin(text, x.ptr, x.flags, TopOf(x), x.strLen);
    NewWf(Opening(x, a.ptr, a.flags, Integer), Integer);
  }

  /** From corresponding states, an accepting pass 1 is followed by an accepting pass 2. */
  lemma {:induction false} Simulate(text: string, comments: bool, x: State, y: State, n: nat) returns (m: nat)
    requires Wf(text, comments, x) && !NumberMode(comments, x.flags, TopOf(x)) && Good(y)
    requires Run(text, comments, true, x, n).Accepted?
    requires var F := Run(text, comments, true, x, n).s.vals; Raw(F) && Agree(x, y, F)
    ensures var s, o := Run(text, comments, true, x, n).s, Run(text, comments, false, y, m);
            o.Accepted? && Agree(s, o.s, s.vals) && Good(o.s)
    decreases n
  {
    hide Wf, Good, Raw, Agree, Bounded, Apply, Sound, DecidePlain, DecideNumber;
    var F := Run(text, comments, true, x, n).s.vals;
    var a := SameAction(text, comments, x, y, F);
    RunBounded(text, comments, x, n);
    StepWf(text, comments, x);
    assert n > 0 by { RunZero(text, comments, x); }
    RunStep(text, comments, x, n);
    var o := Step(text, comments, true, x);
    if a.Begin? && a.ty == Integer {
      var z, n' := NumberPart(text, comments, x, y, n);
      m := Simulate(text, comments, z, Step(text, comments, false, y).s, n');
      m := m + 1;
    } else if !o.More? {
      FinishBoth(text, comments, x, y, a);
      m := 1;
    } else {
      RunBounded(text, comments, o.s, n - 1);
      StepBoth(text, comments, x, y, F);
      m := Simulate(text, comments, o.s, Step(text, comments, false, y).s, n - 1);
      m := m + 1;
    }
  }

  lemma FinishBoth(text: string, comments: bool, x: State, y: State, a: Action)
    requires Step(text, comments, true, x).Accepted? && x.ptr <= |text| && y.ptr <= |text|
    requires a == Decide(text, comments, true, x) == Decide(text, comments, false, y)
    ensures Step(text, comments, true, x) == Accepted(x) && Run(text, comments, false, y, 1) == Accepted(y)
  {
    hide Decide;
  }

  // ------------------------------------------------------------- both passes

  /** Pass 2 left value `w` for what pass 1 measured as `f`. */
  ghost predicate ExactAt(w: Value, f: Value) {
    && w.parent == f.parent && w.ty == f.ty && (IsContainer(f.ty) || f.ty == Text ==> w.length == f.length)
    && (IsContainer(f.ty) ==> |w.table| == f.length)
    && (f.ty == Object ==>
          |w.mem| == f.nameArea && Tiled(w.table, |w.table|) == Some(|w.mem|) && Written(w.mem, |w.mem|))
    && (f.ty == Text ==> |w.mem| == f.length + 1 && Written(w.mem, |w.mem|))
    && (!IsContainer(f.ty) ==> w.table == []) && (f.ty != Text && f.ty != Object ==> w.mem == [])
  }

  /** The result of pass 2 against the measurements `F` of pass 1: the same values in the same
      order, every table, name area and string filled to the last slot and byte, and the links
      a tree. */
  ghost predicate Exact(s: State, F: seq<Value>) {
    && |s.vals| == |F| == s.taken && F != [] && s.root == Some(0)
    && (forall i :: 0 <= i < |F| ==> ExactAt(s.vals[i], F[i]))
    && IsTree(s.vals)
  }

  lemma GoodIsExact(x: State, y: State)
    requires Agree(x, y, x.vals) && Good(y) && x.flags.done && !x.flags.inString && x.vals != [] && x.root == Some(0)
    requires Raw(x.vals)
    ensures Exact(y, x.vals)
  {
    forall i | 0 <= i < |x.vals| ensures ExactAt(y.vals[i], x.vals[i]) {
      assert AgreeAt(x.vals[i], y.vals[i], x.vals[i]) && FillAt(y, i);
      DoneClosed(y, i);
    }
    LinkedIsTree(y);
  }

  lemma StartsAgree(F: seq<Value>)
    requires Arena(F)
    ensures Agree(Start([]), Start(F), F) && Good(Start(F))
  {
  }

  /** Two-pass agreement: on every input that pass 1 accepts, pass 2 accepts, without a fault,
      and fills exactly what pass 1 measured. */
  lemma TwoPasses(text: string, comments: bool, n: nat) returns (m: nat)
    requires Run(text, comments, true, Start([]), n).Accepted?
    ensures var F := Run(text, comments, true, Start([]), n).s.vals;
            var o := Run(text, comments, false, Start(F), m);
            o.Accepted? && Exact(o.s, F)
  {
    hide Run, Good, Agree, Raw, Exact;
    var x := Run(text, comments, true, Start([]), n).s;
    assert Wf(text, comments, Start([]));
    RunGrows(text, comments, Start([]), n);
    StartRaw();
    RunRaw(text, comments, Start([]), n);
    StartsAgree(x.vals);
    m := Simulate(text, comments, Start([]), Start(x.vals), n);
    GoodIsExact(x, Run(text, comments, false, Start(x.vals), m).s);
  }

  lemma StartRaw()
    ensures Raw(Start([]).vals)
  {
  }

  /** One pass over the text: the parsing loop. `n` bounds the iterations it needs. */
  method ParsePass(text: string, comments: bool, first: bool, start: State, ghost n: nat) returns (o: Outcome)
    requires !Run(text, comments, first, start, n).More?
    ensures o == Run(text, comments, first, start, n)
  {
    hide Step;
    var s := start;
    ghost var left := n;
    while true
      invariant Run(text, comments, first, s, left) == Run(text, comments, first, start, n)
      decreases left
    {
      o := Step(text, comments, first, s);
      if !o.More? { return; }
      s := o.s;
      left := left - 1;
    }
  }

  /** The text after a UTF-8 byte order mark. */
  function Body(json: string): string {
    if |json| >= 3 && json[0] == 0xEF as char && json[1] == 0xBB as char && json[2] == 0xBF as char then json[3..]
    else json
  }

  /** The values with which pass 1 accepts the text. */
  ghost predicate Measures(text: string, comments: bool, F: seq<Value>) {
    exists n: nat ::
      Run(text, comments, true, Start([]), n).Accepted? && Run(text, comments, true, Start([]), n).s.vals == F
  }

  /** What pass 1 measures is the layout of the tree the text denotes. */
  lemma MeasuresLayout(text: string, comments: bool, F: seq<Value>, t: G.Tree)
    requires Measures(text, comments, F) && G.Document(text, comments, t)
    ensures F == JsonLayout.Layout(t, 0, None)
  {
    hide Run, Start, JsonLayout.Layout, G.Document;
    var n: nat :|
      Run(text, comments, true, Start([]), n).Accepted? && Run(text, comments, true, Start([]), n).s.vals == F;
    var m := JsonRead.ReadDocument(text, comments, t);
    if n <= m {
      RunLonger(text, comments, true, Start([]), n, m);
    } else {
      RunLonger(text, comments, true, Start([]), m, n);
    }
  }

  lemma MeasuresInGrammar(text: string, comments: bool, F: seq<Value>)
    requires Measures(text, comments, F)
    ensures exists t :: G.Document(text, comments, t)
  {
    hide Run, G.Document, Start;
    var t := JsonAccept.DocumentFound(text, comments);
  }

  lemma GrammarMeasures(text: string, comments: bool, t: G.Tree)
    requires G.Document(text, comments, t)
    ensures Measures(text, comments, JsonLayout.Layout(t, 0, None))
  {
    hide Run, G.Document, Start, JsonLayout.Layout;
    var n := JsonRead.ReadDocument(text, comments, t);
  }

  /** The tree built is the one the text denotes. */
  lemma ExactDenotes(text: string, comments: bool, s: State, F: seq<Value>, t: G.Tree)
    requires Measures(text, comments, F) && Exact(s, F) && G.Document(text, comments, t)
    ensures Denotes(s.vals, 0, t)
  {
    MeasuresLayout(text, comments, F, t);
    LayoutSize(t, 0, None);
    assert F[0..|F|] == F;
    forall i | 0 <= i < |F| ensures MatchesAt(s.vals[i], F[i]) { assert ExactAt(s.vals[i], F[i]); }
    hide Measures, G.Document, JsonLayout.Layout, IsTree;
    LayoutDenotes(s.vals, F, t, 0, None);
  }

  /** json_parse_ex: the tree, or None where the source returns 0. Exactly the texts of the
      grammar are parsed, into the tree they denote, and every table and buffer has the size
      that pass 1 measured: pass 2 never rejects and never faults. */
  method Parse(json: string, comments: bool) returns (r: Option<State>)
    ensures r.Some? <==> exists t :: G.Document(Body(json), comments, t)
    ensures r.Some? ==> r.value.root == Some(0)
    ensures r.Some? ==> forall t :: G.Document(Body(json), comments, t) ==> Denotes(r.value.vals, 0, t)
    ensures r.None? ==> forall F :: !Measures(Body(json), comments, F)
    ensures r.Some? ==> exists F :: Measures(Body(json), comments, F) && Exact(r.value, F)
  {
    hide Run, Exact, Measures, G.Document, Denotes;
    var text := Body(json);
    r := TwoPassParse(text, comments);
    if r.None? {
      forall t ensures !G.Document(text, comments, t) {
        if G.Document(text, comments, t) { GrammarMeasures(text, comments, t); }
      }
    } else {
      ghost var F :| Measures(text, comments, F) && Exact(r.value, F);
      MeasuresInGrammar(text, comments, F);
      ExactRoot(r.value, F);
      forall t | G.Document(text, comments, t) ensures Denotes(r.value.vals, 0, t) {
        ExactDenotes(text, comments, r.value, F, t);
      }
    }
  }

  lemma ExactRoot(s: State, F: seq<Value>)
    requires Exact(s, F)
    ensures s.root == Some(0)
  {
  }

  /** The two passes over the text behind a byte order mark. */
  method TwoPassParse(text: string, comments: bool) returns (r: Option<State>)
    ensures r.None? ==> forall F :: !Measures(text, comments, F)
    ensures r.Some? ==> exists F :: Measures(text, comments, F) && Exact(r.value, F)
  {
    hide Run, Exact;
    assert Wf(text, comments, Start([]));
    ghost var n := Measure(text, Start([])) + 1;
    FirstPassEnds(text, comments, Start([]));
    var one := ParsePass(text, comments, true, Start([]), n);
    if one.Rejected? {
      forall k: nat | Run(text, comments, true, Start([]), k).Accepted? ensures false {
        if k <= n {
          RunLonger(text, comments, true, Start([]), k, n);
        } else {
          RunLonger(text, comments, true, Start([]), n, k);
        }
      }
      return None;
    }
    assert Measures(text, comments, one.s.vals);
    ghost var m := TwoPasses(text, comments, n);
    var two := ParsePass(text, comments, false, Start(one.s.vals), m);
    return Some(two.s);
  }
}
