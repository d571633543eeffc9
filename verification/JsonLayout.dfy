/** What pass 1 (src/utils/json.c) allocates for the values of the grammar: one value per node
    of the denoted tree, in the order of the text. */
module JsonLayout {
  import opened Wrappers
  import opened Json
  import opened JsonControl
  import opened JsonReach
  import G = JsonGrammar

  // -------------------------------------------------------------------- layout

  function TypeOf(t: G.Tree): Type {
    match t
    case Text(_) => Text
    case Number(double) => if double then Double else Integer
    case Boolean => Boolean
    case Null => Null
    case Array(_) => Array
    case Object(_, _) => Object
  }

  function Kids(t: G.Tree): seq<G.Tree> {
    match t
    case Array(items) => items
    case Object(_, values) => values
    case _ => []
  }

  function LengthOf(t: G.Tree): nat { if t.Text? then t.bytes else |Kids(t)| }

  /** The names and their terminators. */
  function NameArea(names: seq<nat>): nat {
    if names == [] then 0 else names[0] + 1 + NameArea(names[1..])
  }

  function AreaOf(t: G.Tree): nat { if t.Object? then NameArea(t.names) else 0 }

  function Node(ty: Type, parent: Option<nat>, length: nat, area: nat): Value {
    Value(parent, ty, length, area, [], [], 0)
  }

  /** The values of a tree allocated from index `base` on. */
  function Layout(t: G.Tree, base: nat, parent: Option<nat>): (vals: seq<Value>)
    ensures vals != []
  {
    var node := [Node(TypeOf(t), parent, LengthOf(t), AreaOf(t))];
    match t
    case Array(items) => node + LayoutAll(items, base + 1, base)
    case Object(_, values) => node + LayoutAll(values, base + 1, base)
    case _ => node
  }

  function LayoutAll(ts: seq<G.Tree>, base: nat, parent: nat): seq<Value> {
    if ts == [] then []
    else
      var first := Layout(ts[0], base, Some(parent));
      first + LayoutAll(ts[1..], base + |first|, parent)
  }

  lemma LayoutKids(t: G.Tree, base: nat, parent: Option<nat>)
    ensures Layout(t, base, parent) ==
            [Node(TypeOf(t), parent, LengthOf(t), AreaOf(t))] + LayoutAll(Kids(t), base + 1, base)
  {
  }

  // ------------------------------------------------------------- single steps

  const VALUE := Flags(false, true, false, false, false, false, false, false)
  const NONE := Flags(false, false, false, false, false, false, false, false)
  const DONE := Flags(true, false, false, false, false, true, false, false)

  /** Pass 1 at the place of a value. */
  ghost predicate AtValue(text: string, comments: bool, x: State) {
    Wf(text, comments, x) && x.flags == VALUE
  }

  /** The current value is container k. */
  predicate Within(s: State, k: nat, ty: Type) {
    s.top == Some(k) && k < |s.vals| && s.vals[k].ty == ty
  }

  /** Value `t` read up to j, but not finished: the state after which pass 1 goes on at its parent. */
  predicate Read(x: State, m: State, j: nat, t: G.Tree) {
    && m.ptr == j && m.flags == NONE && m.top == Some(|x.vals|)
    && m.root == (if x.root.None? then Some(|x.vals|) else x.root)
    && m.vals == x.vals + Layout(t, |x.vals|, x.top) && m.taken == x.taken + |Layout(t, |x.vals|, x.top)|
  }

  function Longer(vals: seq<Value>, k: nat, n: nat): seq<Value>
    requires k < |vals|
  {
    vals[k := vals[k].(length := vals[k].length + n)]
  }

  /** The parent goes on behind its new member, unless it is full. */
  lemma NextIs(text: string, comments: bool, x: State, m: State, j: nat, t: G.Tree)
    requires AtValue(text, comments, x) && Read(x, m, j, t)
    ensures Next(true, m) ==
            if x.top.None? then More(m.(flags := DONE))
            else if x.vals[x.top.value].length + 1 > LENGTH_LIMIT then Rejected
            else More(m.(flags := (if x.vals[x.top.value].ty == Array then VALUE else NONE).(needComma := true),
                         vals := Longer(x.vals, x.top.value, 1) + Layout(t, |x.vals|, x.top), top := x.top))
  {
    LayoutKids(t, |x.vals|, x.top);
    if x.top.Some? {
      var p := x.top.value;
      assert m.vals[p] == x.vals[p];
      assert Longer(m.vals, p, 1) == Longer(x.vals, p, 1) + Layout(t, |x.vals|, x.top);
    }
  }

  /** A value of type ty taken up, its first ptr - x.ptr characters read. */
  function Opened(x: State, ptr: nat, flags: Flags, ty: Type): State {
    x.(ptr := ptr, flags := flags, vals := x.vals + [Node(ty, x.top, 0, 0)], top := Some(|x.vals|),
       root := if x.root.None? then Some(x.taken) else x.root, taken := x.taken + 1)
  }

  lemma OpenText(text: string, comments: bool, x: State)
    requires AtValue(text, comments, x) && x.ptr < |text| && text[x.ptr] == '"'
    ensures Step(text, comments, true, x) ==
            More(Opened(x, x.ptr + 1, NONE.(inString := true), Text).(strLen := 0, strBase := 0))
  {
    hide Arena;
  }

  lemma OpenArray(text: string, comments: bool, x: State)
    requires AtValue(text, comments, x) && x.ptr < |text| && text[x.ptr] == '['
    ensures Step(text, comments, true, x) == More(Opened(x, x.ptr + 1, VALUE, Array))
  {
    hide Arena;
  }

  lemma OpenObject(text: string, comments: bool, x: State)
    requires AtValue(text, comments, x) && x.ptr < |text| && text[x.ptr] == '{'
    ensures Step(text, comments, true, x) == More(Opened(x, x.ptr + 1, NONE, Object))
  {
    hide Arena;
  }

  lemma OpenNumber(text: string, comments: bool, x: State)
    requires AtValue(text, comments, x) && x.ptr < |text| && (G.Digit(text[x.ptr]) || text[x.ptr] == '-')
    ensures Step(text, comments, true, x) ==
            More(Opened(x, G.AfterSign(text, x.ptr), NONE, Integer).(num := NO_NUM))
  {
    hide Arena;
  }

  /** A word is read and finished in one iteration. */
  lemma ReadWord(text: string, comments: bool, x: State, j: nat, t: G.Tree)
    requires AtValue(text, comments, x) && (t.Boolean? || t.Null?) && G.ValueAt(text, comments, x.ptr, j, t)
    ensures var m := Opened(x, j, NONE, TypeOf(t)); Read(x, m, j, t) && Step(text, comments, true, x) == Next(true, m)
  {
    hide Arena, Next;
    var i := x.ptr;
    if t.Boolean? && text[i..j] == "true" {
      assert text[i] == text[i..j][0] && text[i + 1] == text[i..j][1];
      assert text[i + 2] == text[i..j][2] && text[i + 3] == text[i..j][3];
    } else if t.Boolean? {
      assert text[i] == text[i..j][0] && text[i + 1] == text[i..j][1];
      assert text[i + 2] == text[i..j][2] && text[i + 3] == text[i..j][3]
          && text[i + 4] == text[i..j][4];
    } else {
      assert text[i] == text[i..j][0] && text[i + 1] == text[i..j][1];
      assert text[i + 2] == text[i..j][2] && text[i + 3] == text[i..j][3];
    }
  }

  /** The closing quote of a string value. */
  lemma TextEnds(text: string, comments: bool, x: State, u: State)
    requires AtValue(text, comments, x)
    requires u.ptr < |text| && text[u.ptr] == '"' && u.strLen <= LENGTH_LIMIT
    requires u == Opened(x, u.ptr, NONE.(inString := true), Text).(strLen := u.strLen, strBase := 0)
    ensures var t := G.Text(u.strLen);
            var m := u.(ptr := u.ptr + 1, flags := NONE, vals := Longer(u.vals, |x.vals|, u.strLen));
            Read(x, m, u.ptr + 1, t) && Step(text, comments, true, u) == Next(true, m)
  {
    hide Arena, Next;
    var m := u.(ptr := u.ptr + 1, flags := NONE, vals := Longer(u.vals, |x.vals|, u.strLen));
    assert m.vals == x.vals + [Node(Text, x.top, u.strLen, 0)];
  }

  lemma ReadText(text: string, comments: bool, x: State, j: nat, n: nat) returns (u: State, m: State)
    requires AtValue(text, comments, x) && G.StringAt(text, x.ptr, j, n)
    ensures Reach(text, comments, x, u) && Read(x, m, j, G.Text(n)) && Step(text, comments, true, u) == Next(true, m)
  {
    hide Step, Reach, Next, Wf, Read;
    OpenText(text, comments, x);
    ReachStep(text, comments, x);
    var y := Step(text, comments, true, x).s;
    CharsReach(text, comments, y, j - 1, n);
    u := y.(ptr := j - 1, strLen := n);
    ReachTrans(text, comments, x, y, u);
    TextEnds(text, comments, x, u);
    m := u.(ptr := j, flags := NONE, vals := Longer(u.vals, |x.vals|, n));
  }

  lemma NumberOpened(x: State, a: nat)
    ensures var s := Opened(x, a, NONE, Integer).(num := NO_NUM); Numeric(false, s) && Numeric(true, s) && !IsDouble(s)
  {
  }

  lemma NumberRead(x: State, u: State, a: nat, j: nat, double: bool)
    requires x.taken == |x.vals| && ReadTo(Opened(x, a, NONE, Integer).(num := NO_NUM), u, j, double)
    ensures Read(x, u, j, G.Number(double))
  {
    assert u.vals == x.vals + [Node(if double then Double else Integer, x.top, 0, 0)];
  }

  lemma NumberStarts(text: string, comments: bool, i: nat, j: nat, double: bool)
    requires G.NumberAt(text, comments, i, j, double) && j <= |text|
    ensures i < |text| && (G.Digit(text[i]) || text[i] == '-')
  {
  }

  lemma ReadNumber(text: string, comments: bool, x: State, j: nat, double: bool) returns (u: State)
    requires AtValue(text, comments, x) && G.NumberAt(text, comments, x.ptr, j, double) && j <= |text|
    ensures Reach(text, comments, x, u) && Read(x, u, j, G.Number(double))
    ensures Step(text, comments, true, u) == Next(true, u)
  {
    NumberStarts(text, comments, x.ptr, j, double);
    assert x.taken == |x.vals|;
    hide Step, Reach, Next, Wf, Read, Opened, Numeric, ReadTo, G.NumberAt;
    OpenNumber(text, comments, x);
    ReachStep(text, comments, x);
    var a := G.AfterSign(text, x.ptr);
    var y := Opened(x, a, NONE, Integer).(num := NO_NUM);
    NumberOpened(x, a);
    assert y.ptr == a && y.num == NO_NUM by { OpenedParts(x, a, NONE, Integer); }
    u := NumberReach(text, comments, y, x.ptr, j, double);
    ReachTrans(text, comments, x, y, u);
    NumberRead(x, u, a, j, double);
  }

  lemma OpenedParts(x: State, ptr: nat, flags: Flags, ty: Type)
    ensures var y := Opened(x, ptr, flags, ty); y.ptr == ptr && y.flags == flags && Within(y, |x.vals|, ty)
  {
  }

  /** A closing bracket, after a comma or not. */
  lemma CloseStep(text: string, comments: bool, s: State)
    requires s.ptr < |text| && s.top.Some? && s.top.value < |s.vals|
    requires s.flags.(needComma := false) == (if text[s.ptr] == ']' then VALUE else NONE)
    requires (text[s.ptr] == ']' && s.vals[s.top.value].ty == Array) ||
             (text[s.ptr] == '}' && s.vals[s.top.value].ty == Object)
    ensures Step(text, comments, true, s) == Next(true, s.(ptr := s.ptr + 1, flags := NONE))
  {
    hide Next;
  }

  lemma CommaStep(text: string, comments: bool, s: State)
    requires s.ptr < |text| && s.top.Some? && s.top.value < |s.vals| && s.flags.needComma && text[s.ptr] == ','
    requires (s.flags.(needComma := false) == VALUE && s.vals[s.top.value].ty == Array) ||
             (s.flags.(needComma := false) == NONE && s.vals[s.top.value].ty == Object)
    ensures Step(text, comments, true, s) == More(s.(ptr := s.ptr + 1, flags := s.flags.(needComma := false)))
  {
  }

  lemma QuoteStep(text: string, comments: bool, s: State, k: nat)
    requires s.ptr < |text| && text[s.ptr] == '"' && Within(s, k, Object) && s.flags == NONE
    ensures Step(text, comments, true, s) ==
            More(s.(ptr := s.ptr + 1, flags := NONE.(inString := true), strLen := 0, strBase := s.vals[k].memPos))
  {
  }

  function WithName(vals: seq<Value>, k: nat, n: nat): seq<Value>
    requires k < |vals|
  {
    vals[k := vals[k].(nameArea := vals[k].nameArea + n)]
  }

  lemma NameEnds(text: string, comments: bool, s: State, k: nat)
    requires s.ptr < |text| && text[s.ptr] == '"' && Within(s, k, Object) && s.flags == NONE.(inString := true)
    requires s.strLen <= LENGTH_LIMIT
    ensures Step(text, comments, true, s) ==
            More(s.(ptr := s.ptr + 1, flags := VALUE.(needColon := true), vals := WithName(s.vals, k, s.strLen + 1)))
  {
  }

  lemma ColonStep(text: string, comments: bool, s: State, k: nat)
    requires s.ptr < |text| && text[s.ptr] == ':' && Within(s, k, Object) && s.flags == VALUE.(needColon := true)
    ensures Step(text, comments, true, s) == More(s.(ptr := s.ptr + 1, flags := VALUE))
  {
  }
}
