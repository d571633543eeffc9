/** Invariants of the parsing loop and termination of pass 1. */
module JsonControl {
  import opened Wrappers
  import opened Json

  // --------------------------------------------------------------- invariant

  predicate IsContainer(ty: Type) { ty == Array || ty == Object }

  /** Parents are containers allocated earlier; only the first value has none. */
  ghost predicate Arena(vals: seq<Value>) {
    forall i :: 0 <= i < |vals| ==>
      match vals[i].parent
      case None => i == 0
      case Some(p) => p < i && IsContainer(vals[p].ty)
  }

  /** Which flags can go with which kind of current value. */
  predicate FlagsOk(comments: bool, f: Flags, top: Top) {
    && (f.inString ==> !f.done && (top == InText || top == InObject))
    && (f.lineComment || f.blockComment ==> comments && !f.inString)
    && (f.escaped ==> f.inString)
    && (f.done ==> top != NoTop && !f.seekValue)
    && (f.needColon ==> f.seekValue && top == InObject)
    && (!f.done ==>
          match top
          case NoTop => f.seekValue && !f.needComma
          case InObject => f.seekValue ==> !f.inString
          case InArray => f.seekValue
          case InText => f.inString && !f.seekValue
          case InNumber => !f.seekValue && !f.lineComment && !f.blockComment
          case InOther => false)
  }

  /** Flags with which a value is finished. */
  predicate Quiet(f: Flags) {
    !f.inString && !f.escaped && !f.done && !f.seekValue && !f.needColon && !f.lineComment && !f.blockComment
  }

  /** The invariant of pass 1 at the head of the loop. */
  ghost predicate Wf(text: string, comments: bool, s: State) {
    && s.ptr <= |text| && s.taken == |s.vals| && Arena(s.vals)
    && (s.top.None? <==> s.vals == []) && (s.top.Some? ==> s.top.value < |s.vals|)
    && s.root == (if s.vals == [] then None else Some(0))
    && FlagsOk(comments, s.flags, TopOf(s))
  }

  /** What the rest of the loop body does without moving on in the text. */
  function Rank(f: Flags, top: Top): nat {
    if f.lineComment then 3 else if f.done then 0 else if top == InNumber then 1
    else if f.seekValue && !f.needComma then 2 else 0
  }

  /** The measure that every iteration decreases. */
  function Measure(text: string, s: State): nat
    requires s.ptr <= |text|
  {
    4 * (|text| - s.ptr) + Rank(s.flags, TopOf(s))
  }

  predicate CanStart(f: Flags, top: Top) {
    f.seekValue && !f.needComma && (top == NoTop || top == InArray || top == InObject)
  }

  /** What the decision may be, given flags and current value. */
  ghost predicate Sound(text: string, comments: bool, first: bool, ptr: nat, f: Flags, top: Top, a: Action) {
    match a
    case Fail => true
    case Finish => f.done && !f.inString
    case Go(p, g) =>
      && p <= |text| && FlagsOk(comments, g, top) && g.done == f.done
      && g.inString == f.inString && g.seekValue == f.seekValue
      && (p > ptr || (p == ptr && f.lineComment && !g.lineComment))
    case Emit(p, g, n, bytes) =>
      ptr < p <= |text| && FlagsOk(comments, g, top) && f.inString && g.inString && n == |bytes| > 0
    case BeginName(p, g) =>
      ptr < p <= |text| && FlagsOk(comments, g, top) && top == InObject &&
      !f.done && !f.inString && g.inString && !f.seekValue
    case EndName(p, g) =>
      && ptr < p <= |text| && FlagsOk(comments, g, top) && top == InObject
      && f.inString && !g.inString && g.seekValue
    case EndText(p, g) => ptr < p <= |text| && Quiet(g) && top == InText && f.inString
    case Begin(p, g, ty) =>
      && ptr <= p <= |text| && CanStart(f, top) && !f.inString && !f.lineComment
      && FlagsOk(comments, g, KindOf(ty)) && !g.done
      && (p > ptr || (KindOf(ty) == InNumber && !g.lineComment))
      && (first || KindOf(ty) != InNumber) && ty != Double
      && (g.inString <==> ty == Text) && (ty == Object ==> !g.seekValue)
    case Leaf(p, g, ty) =>
      && ptr < p <= |text| && CanStart(f, top) && !f.inString && Quiet(g)
      && (first ==> KindOf(ty) == InOther) && (KindOf(ty) == InOther || KindOf(ty) == InNumber)
    case Digits(p, _, _) => p == ptr + 1 <= |text| && NumberMode(comments, f, top)
    case Close(p, g) =>
      && ptr <= p <= |text| && Quiet(g) && !f.inString && !f.done && !f.lineComment
      && (top == InArray || (top == InObject && !f.seekValue) || top == InNumber)
      && (p > ptr || NumberMode(comments, f, top))
  }

  lemma StringSound(text: string, comments: bool, first: bool, ptr: nat, f: Flags, top: Top, strLen: nat)
    requires ptr <= |text| && FlagsOk(comments, f, top) && f.inString
    ensures Sound(text, comments, first, ptr, f, top, DecideString(text, ptr, f, top, strLen))
  {
    hide Utf8, Width, Hex4, Merge;
  }

  lemma ValueSound(text: string, comments: bool, first: bool, ptr: nat, f: Flags, top: Top)
    requires ptr <= |text| && FlagsOk(comments, f, top) && CanStart(f, top) && !f.needColon && !f.done
    requires !f.inString && !f.lineComment && !f.blockComment
    ensures Sound(text, comments, first, ptr, f, top, DecideValue(text, first, ptr, f.(seekValue := false)))
  {
    hide NumberEnd;
  }

  lemma PlainSound(text: string, comments: bool, first: bool, ptr: nat, f: Flags, top: Top, strLen: nat)
    requires ptr <= |text| && FlagsOk(comments, f, top) && !NumberMode(comments, f, top)
    ensures Sound(text, comments, first, ptr, f, top, DecidePlain(text, comments, first, ptr, f, top, strLen))
  {
    hide DecideString, DecideValue;
    if f.inString {
      StringSound(text, comments, first, ptr, f, top, strLen);
    } else if !f.done && f.seekValue && !f.needComma && !f.needColon && !f.lineComment && !f.blockComment {
      ValueSound(text, comments, first, ptr, f, top);
    }
  }

  lemma NumberSound(text: string, comments: bool, first: bool, ptr: nat, f: Flags, num: Num, double: bool)
    requires ptr <= |text| && FlagsOk(comments, f, InNumber) && NumberMode(comments, f, InNumber)
    ensures Sound(text, comments, first, ptr, f, InNumber, DecideNumber(text, comments, ptr, f, num, double))
  {
  }

  lemma DecideSound(text: string, comments: bool, first: bool, s: State)
    requires s.ptr <= |text| && FlagsOk(comments, s.flags, TopOf(s))
    ensures Sound(text, comments, first, s.ptr, s.flags, TopOf(s), Decide(text, comments, first, s))
  {
    hide DecidePlain, DecideNumber;
    if NumberMode(comments, s.flags, TopOf(s)) {
      NumberSound(text, comments, first, s.ptr, s.flags, s.num, s.vals[s.top.value].ty == Double);
    } else {
      PlainSound(text, comments, first, s.ptr, s.flags, TopOf(s), s.strLen);
    }
  }

  /** One value changed, but not its parent nor its kind. */
  lemma ArenaUpdate(vals: seq<Value>, i: nat, v: Value)
    requires Arena(vals) && i < |vals| && v.parent == vals[i].parent && KindOf(v.ty) == KindOf(vals[i].ty)
    ensures Arena(vals[i := v])
  {
    var w := vals[i := v];
    forall k | 0 <= k < |w| && w[k].parent.Some? ensures w[k].parent.value < k && IsContainer(w[w[k].parent.value].ty) {
      var p := vals[k].parent.value;
      assert w[k].parent == vals[k].parent && p < k && IsContainer(vals[p].ty);
      assert w[p].ty == if p == i then v.ty else vals[p].ty;
    }
    forall k | 0 <= k < |w| && w[k].parent.None? ensures k == 0 {
      assert vals[k].parent.None?;
    }
  }

  /** Finishing a value keeps the invariant and leaves nothing to do at this character. */
  lemma NextWf(text: string, comments: bool, s: State)
    requires s.ptr <= |text| && s.taken == |s.vals| && Arena(s.vals) && s.top.Some? && s.top.value < |s.vals|
    requires s.root == Some(0) && Quiet(s.flags)
    ensures var o := Next(true, s);
            && (o.More? || o.Rejected?)
            && (o.More? ==> Wf(text, comments, o.s) && o.s.ptr == s.ptr && Rank(o.s.flags, TopOf(o.s)) == 0)
  {
    var o := Next(true, s);
    if s.vals[s.top.value].parent.Some? {
      var p := s.vals[s.top.value].parent.value;
      assert IsContainer(s.vals[p].ty) && p < s.top.value;
      ArenaUpdate(s.vals, p, s.vals[p].(length := s.vals[p].length + 1));
    }
  }

  lemma NewWf(s: State, ty: Type)
    requires s.taken == |s.vals| && Arena(s.vals)
    requires s.top.None? <==> s.vals == []
    requires s.top.Some? ==> s.top.value < |s.vals| && IsContainer(s.vals[s.top.value].ty)
    requires s.root == (if s.vals == [] then None else Some(0))
    ensures var o := NewValue(true, s, ty);
            && o.More? && o.s.taken == |o.s.vals| == |s.vals| + 1 && Arena(o.s.vals)
            && o.s.top == Some(|s.vals|) && o.s.root == Some(0) && TopOf(o.s) == KindOf(ty)
            && o.s.ptr == s.ptr && o.s.flags == s.flags
  {
  }

  ghost predicate Progress(text: string, comments: bool, s: State, o: Outcome)
    requires s.ptr <= |text|
  {
    && !o.Fault?
    && (o.More? ==> Wf(text, comments, o.s) && Measure(text, o.s) < Measure(text, s))
    && (o.Accepted? ==> o.s == s && s.flags.done)
  }

  /** Actions that only change the current value. */
  lemma ApplyInside(text: string, comments: bool, s: State, a: Action)
    requires Wf(text, comments, s) && Sound(text, comments, true, s.ptr, s.flags, TopOf(s), a)
    requires a.EndName? || a.Digits?
    ensures Progress(text, comments, s, Apply(true, s, a))
  {
    hide Arena;
    var v := s.vals[s.top.value];
    ArenaUpdate(s.vals, s.top.value, v.(nameArea := v.nameArea + s.strLen + 1));
    if a.Digits? { ArenaUpdate(s.vals, s.top.value, v.(ty := Double)); }
  }

  /** Actions that create a value. */
  lemma ApplyNew(text: string, comments: bool, s: State, a: Action)
    requires Wf(text, comments, s) && Sound(text, comments, true, s.ptr, s.flags, TopOf(s), a)
    requires a.Begin? || a.Leaf?
    ensures Progress(text, comments, s, Apply(true, s, a))
  {
    hide Next, NewValue, Arena;
    match a
    case Begin(p, g, ty) =>
      NewWf(Opening(s, p, g, ty), ty);
    case Leaf(p, g, ty) =>
      NewWf(s.(ptr := p, flags := g), ty);
      NextWf(text, comments, NewValue(true, s.(ptr := p, flags := g), ty).s);
  }

  /** Actions that finish the current value. */
  lemma ApplyEnd(text: string, comments: bool, s: State, a: Action)
    requires Wf(text, comments, s) && Sound(text, comments, true, s.ptr, s.flags, TopOf(s), a)
    requires a.EndText? || a.Close?
    ensures Progress(text, comments, s, Apply(true, s, a))
  {
    hide Next, Arena, FlagsOk;
    match a
    case EndText(p, g) =>
      var v := s.vals[s.top.value];
      ArenaUpdate(s.vals, s.top.value, v.(length := s.strLen));
      NextWf(text, comments, FinishText(true, s.(ptr := p, flags := g)).s);
    case Close(p, g) =>
      NextWf(text, comments, s.(ptr := p, flags := g));
  }

  lemma ApplyWf(text: string, comments: bool, s: State, a: Action)
    requires Wf(text, comments, s) && Sound(text, comments, true, s.ptr, s.flags, TopOf(s), a)
    ensures Progress(text, comments, s, Apply(true, s, a))
  {
    hide Next, NewValue, Arena;
    if a.EndName? || a.Digits? {
      ApplyInside(text, comments, s, a);
    } else if a.EndText? || a.Close? {
      ApplyEnd(text, comments, s, a);
    } else if a.Begin? || a.Leaf? {
      ApplyNew(text, comments, s, a);
    }
  }

  /** Every iteration of pass 1 keeps the invariant, makes progress and never faults. */
  lemma StepWf(text: string, comments: bool, s: State)
    requires Wf(text, comments, s)
    ensures Progress(text, comments, s, Step(text, comments, true, s))
  {
    hide Decide, Apply, Sound;
    DecideSound(text, comments, true, s);
    ApplyWf(text, comments, s, Decide(text, comments, true, s));
  }

  /** Pass 1 ends on every input, accepting or rejecting, within four iterations per character. */
  lemma {:induction false} FirstPassEnds(text: string, comments: bool, s: State)
    requires Wf(text, comments, s)
    ensures var o := Run(text, comments, true, s, Measure(text, s) + 1);
            o.Rejected? || (o.Accepted? && Wf(text, comments, o.s) && o.s.flags.done)
    decreases Measure(text, s)
  {
    hide Step, Wf;
    StepWf(text, comments, s);
    var o := Step(text, comments, true, s);
    if o.More? {
      FirstPassEnds(text, comments, o.s);
      RunLonger(text, comments, true, o.s, Measure(text, o.s) + 1, Measure(text, s));
    }
  }

  /** Once a run has ended, more iterations change nothing. */
  lemma {:induction false} RunLonger(text: string, comments: bool, first: bool, s: State, n: nat, m: nat)
    requires n <= m && !Run(text, comments, first, s, n).More?
    ensures Run(text, comments, first, s, m) == Run(text, comments, first, s, n)
    decreases n
  {
    hide Step;
    var o := Step(text, comments, first, s);
    if n > 0 && o.More? { RunLonger(text, comments, first, o.s, n - 1, m - 1); }
  }
}
