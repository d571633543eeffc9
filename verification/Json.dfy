/** The two-pass JSON parser (src/utils/json.c). Pass 1 allocates one value per JSON value and
    measures arrays, objects and strings; pass 2 reads the text again, allocates tables and
    buffers of exactly the measured sizes and fills them. One iteration of the parsing loop is
    `Step`; what it does is decided from the text and the flags (`Decide`), how it acts on the
    values depends on the pass (`Apply`). */
module Json {
  import opened Wrappers

  /** The limits uint_max - 8 on string and container lengths. */
  const LENGTH_LIMIT: nat := 0xFFFF_FFF7

  datatype Type = Object | Array | Integer | Double | Text | Boolean | Null

  /** The flags that outlive an iteration, apart from those of numbers. */
  datatype Flags = Flags(needComma: bool, seekValue: bool, escaped: bool, inString: bool,
                         needColon: bool, done: bool, lineComment: bool, blockComment: bool)

  /** num_digits and the flag_num_* flags that decide acceptance. */
  datatype Num = Num(digits: nat, zero: bool, e: bool, gotSign: bool)
  const NO_NUM := Num(0, false, false, false)

  /** A table slot: name offset and length (objects), and the child value. */
  datatype Entry = Entry(name: Option<(nat, nat)>, child: Option<nat>)
  const UNSET := Entry(None, None)

  /** A value. `length` is u.*.length; `nameArea` the bytes of names measured in pass 1;
      `table` and `mem` the memory of pass 2, unset until written; `memPos` is object_mem. */
  datatype Value = Value(parent: Option<nat>, ty: Type, length: nat, nameArea: nat,
                         table: seq<Entry>, mem: seq<Option<char>>, memPos: nat)

  /** Values are numbered in allocation order, the order of the next_alloc chain;
      `taken` of them have been created (pass 1) or taken up (pass 2). */
  datatype State = State(ptr: nat, flags: Flags, num: Num, top: Option<nat>, root: Option<nat>,
                         taken: nat, vals: seq<Value>, strLen: nat, strBase: nat)

  /** Fault: a NULL dereference, a read behind the text or a write outside the allocated memory. */
  datatype Outcome = More(s: State) | Accepted(s: State) | Rejected | Fault

  datatype Top = NoTop | InObject | InArray | InText | InNumber | InOther

  function KindOf(ty: Type): Top {
    match ty
    case Object => InObject
    case Array => InArray
    case Text => InText
    case Integer => InNumber
    case Double => InNumber
    case _ => InOther
  }

  /** What one iteration does. */
  datatype Action =
    | Fail
    | Finish
    | Go(ptr: nat, flags: Flags)
    | Emit(ptr: nat, flags: Flags, n: nat, bytes: seq<char>)
    | BeginName(ptr: nat, flags: Flags)
    | EndName(ptr: nat, flags: Flags)
    | EndText(ptr: nat, flags: Flags)
    | Begin(ptr: nat, flags: Flags, ty: Type)
    | Leaf(ptr: nat, flags: Flags, ty: Type)
    | Digits(ptr: nat, num: Num, toDouble: bool)
    | Close(ptr: nat, flags: Flags)

  // -------------------------------------------------------------- characters

  /** The input is followed by a terminator; nothing behind it is ever read. */
  function CharAt(text: string, i: nat): char
    requires i <= |text|
  {
    if i < |text| then text[i] else '\0'
  }

  predicate IsSpace(c: char) { c == '\n' || c == ' ' || c == '\t' || c == '\r' }
  predicate IsDigit(c: char) { '0' <= c <= '9' }

  function HexValue(c: char): (r: Option<nat>)
    ensures r.Some? ==> r.value < 16 && c != '\0'
  {
    if IsDigit(c) then Some((c - '0') as nat)
    else if 'a' <= c <= 'f' then Some((c - 'a') as nat + 10)
    else if 'A' <= c <= 'F' then Some((c - 'A') as nat + 10)
    else None
  }

  function Hex4(text: string, i: nat): (r: Option<nat>)
    requires i + 3 <= |text|
    ensures r.Some? ==> r.value <= 0xFFFF && i + 4 <= |text|
  {
    var a, b := HexValue(CharAt(text, i)), HexValue(CharAt(text, i + 1));
    var c, d := HexValue(CharAt(text, i + 2)), HexValue(CharAt(text, i + 3));
    if a.None? || b.None? || c.None? || d.None? then None
    else Some(a.value * 4096 + b.value * 256 + c.value * 16 + d.value)
  }

  /** (uchar & 0xF800) == 0xD800 */
  predicate IsSurrogate(u: nat) { u / 0x800 == 0x1B }

  /** 0x010000 | ((u & 0x3FF) << 10) | (v & 0x3FF) */
  function Merge(u: nat, v: nat): (r: nat)
    ensures 0x10000 <= r < 0x20_0000
  {
    var low := u % 0x400 * 0x400 + v % 0x400;
    if low / 0x10000 % 2 == 1 then low else low + 0x10000
  }

  /** The number of bytes pass 1 adds for a code point. */
  function Width(u: nat): (w: nat)
    ensures 1 <= w <= 4
  {
    if u <= 0x7F then 1 else if u <= 0x7FF then 2 else if u <= 0xFFFF then 3 else 4
  }

  /** The bytes pass 2 writes for a code point. */
  function Utf8(u: nat): (bytes: seq<char>)
    requires u < 0x20_0000
    ensures |bytes| == Width(u)
  {
    if u <= 0x7F then [u as char]
    else if u <= 0x7FF then [(0xC0 + u / 0x40) as char, (0x80 + u % 0x40) as char]
    else if u <= 0xFFFF then
      [(0xE0 + u / 0x1000) as char, (0x80 + u / 0x40 % 0x40) as char, (0x80 + u % 0x40) as char]
    else
      [(0xF0 + u / 0x4_0000) as char, (0x80 + u / 0x1000 % 0x40) as char,
       (0x80 + u / 0x40 % 0x40) as char, (0x80 + u % 0x40) as char]
  }

  /** The characters pass 2 skips when it meets a number. */
  predicate IsNumberChar(c: char) {
    IsDigit(c) || c == '+' || c == '-' || c == 'e' || c == 'E' || c == '.'
  }

  function NumberEnd(text: string, i: nat): (j: nat)
    requires i <= |text|
    ensures i <= j <= |text| && !IsNumberChar(CharAt(text, j))
    ensures forall k :: i <= k < j ==> IsNumberChar(text[k])
    decreases |text| - i
  {
    if i < |text| && IsNumberChar(text[i]) then NumberEnd(text, i + 1) else i
  }

  // --------------------------------------------------------------- decisions

  function EmitCode(ptr: nat, f: Flags, u: nat): Action
    requires u < 0x20_0000
  {
    Emit(ptr, f, Width(u), Utf8(u))
  }

  /** A \u escape with the `u` at ptr; a high half must be followed by another escape. */
  function DecideUnicode(text: string, ptr: nat, f: Flags): Action {
    if |text| - ptr < 4 then Fail
    else
      var u := Hex4(text, ptr + 1);
      if u.None? then Fail
      else if !IsSurrogate(u.value) then EmitCode(ptr + 5, f, u.value)
      else if |text| - (ptr + 4) < 6 || CharAt(text, ptr + 5) != '\\' || CharAt(text, ptr + 6) != 'u' then Fail
      else
        var v := Hex4(text, ptr + 7);
        if v.None? then Fail else EmitCode(ptr + 11, f, Merge(u.value, v.value))
  }

  function DecideEscape(text: string, ptr: nat, f: Flags): Action
    requires ptr <= |text|
  {
    match CharAt(text, ptr)
    case 'b' => Emit(ptr + 1, f, 1, [8 as char])
    case 'f' => Emit(ptr + 1, f, 1, [12 as char])
    case 'n' => Emit(ptr + 1, f, 1, ['\n'])
    case 'r' => Emit(ptr + 1, f, 1, ['\r'])
    case 't' => Emit(ptr + 1, f, 1, ['\t'])
    case 'u' => DecideUnicode(text, ptr, f)
    case b => Emit(ptr + 1, f, 1, [b])
  }

  /** Inside a string the current value is a string or, for a name, an object. */
  function DecideString(text: string, ptr: nat, f: Flags, top: Top, strLen: nat): Action
    requires ptr <= |text|
  {
    var b := CharAt(text, ptr);
    if b == '\0' || strLen > LENGTH_LIMIT then Fail
    else if f.escaped then DecideEscape(text, ptr, f.(escaped := false))
    else if b == '\\' then Go(ptr + 1, f.(escaped := true))
    else if b == '"' then
      match top
      case InText => EndText(ptr + 1, f.(inString := false))
      case InObject => EndName(ptr + 1, f.(inString := false, seekValue := true, needColon := true))
      case _ => Go(ptr + 1, f.(inString := false))
    else Emit(ptr + 1, f, 1, [b])
  }

  predicate InComment(comments: bool, f: Flags) { comments && (f.lineComment || f.blockComment) }

  function DecideComment(text: string, ptr: nat, f: Flags): Action
    requires ptr <= |text|
  {
    var b := CharAt(text, ptr);
    if f.lineComment then
      if b == '\r' || b == '\n' || b == '\0' then Go(ptr, f.(lineComment := false)) else Go(ptr + 1, f)
    else if b == '\0' then Fail
    else if b == '*' && ptr + 1 < |text| && text[ptr + 1] == '/' then Go(ptr + 2, f.(blockComment := false))
    else Go(ptr + 1, f)
  }

  function DecideSlash(text: string, ptr: nat, f: Flags, top: Top): Action
    requires ptr < |text|
  {
    if !f.seekValue && !f.done && top != InObject then Fail
    else if ptr + 1 == |text| then Fail
    else
      match CharAt(text, ptr + 1)
      case '/' => Go(ptr + 2, f.(lineComment := true))
      case '*' => Go(ptr + 2, f.(blockComment := true))
      case _ => Fail
  }

  function DecideDone(text: string, ptr: nat, f: Flags): Action
    requires ptr <= |text|
  {
    var b := CharAt(text, ptr);
    if b == '\0' then Finish else if IsSpace(b) then Go(ptr + 1, f) else Fail
  }

  /** A value starts at ptr; `f` has seekValue cleared already. */
  function DecideValue(text: string, first: bool, ptr: nat, f: Flags): Action
    requires ptr <= |text|
  {
    var b := CharAt(text, ptr);
    if b == '{' then Begin(ptr + 1, f, Object)
    else if b == '[' then Begin(ptr + 1, f.(seekValue := true), Array)
    else if b == '"' then Begin(ptr + 1, f.(inString := true), Text)
    else if b == 't' then
      if |text| - ptr < 3 || CharAt(text, ptr + 1) != 'r' || CharAt(text, ptr + 2) != 'u' ||
         CharAt(text, ptr + 3) != 'e'
      then Fail else Leaf(ptr + 4, f, Boolean)
    else if b == 'f' then
      if |text| - ptr < 4 || CharAt(text, ptr + 1) != 'a' || CharAt(text, ptr + 2) != 'l' ||
         CharAt(text, ptr + 3) != 's' || CharAt(text, ptr + 4) != 'e'
      then Fail else Leaf(ptr + 5, f, Boolean)
    else if b == 'n' then
      if |text| - ptr < 3 || CharAt(text, ptr + 1) != 'u' || CharAt(text, ptr + 2) != 'l' ||
         CharAt(text, ptr + 3) != 'l'
      then Fail else Leaf(ptr + 4, f, Null)
    else if !IsDigit(b) && b != '-' then Fail
    else if !first then Leaf(NumberEnd(text, ptr), f, Integer)
    else Begin(if b == '-' then ptr + 1 else ptr, f, Integer)
  }

  function DecideSeek(text: string, first: bool, ptr: nat, f: Flags, top: Top): Action
    requires ptr <= |text|
  {
    var b := CharAt(text, ptr);
    if IsSpace(b) then Go(ptr + 1, f)
    else if b == ']' then
      if top == InArray then Close(ptr + 1, f.(needComma := false, seekValue := false)) else Fail
    else if f.needComma then
      if b == ',' then Go(ptr + 1, f.(needComma := false)) else Fail
    else if f.needColon then
      if b == ':' then Go(ptr + 1, f.(needColon := false)) else Fail
    else DecideValue(text, first, ptr, f.(seekValue := false))
  }

  function DecideObject(text: string, ptr: nat, f: Flags): Action
    requires ptr <= |text|
  {
    var b := CharAt(text, ptr);
    if IsSpace(b) then Go(ptr + 1, f)
    else if b == '"' then
      if f.needComma then Fail else BeginName(ptr + 1, f.(inString := true))
    else if b == '}' then Close(ptr + 1, f.(needComma := false))
    else if b == ',' && f.needComma then Go(ptr + 1, f.(needComma := false))
    else Fail
  }

  /** Everything but the inside of numbers. */
  function DecidePlain(text: string, comments: bool, first: bool, ptr: nat, f: Flags, top: Top, strLen: nat): Action
    requires ptr <= |text|
  {
    if f.inString then DecideString(text, ptr, f, top, strLen)
    else if InComment(comments, f) then DecideComment(text, ptr, f)
    else if comments && CharAt(text, ptr) == '/' then DecideSlash(text, ptr, f, top)
    else if f.done then DecideDone(text, ptr, f)
    else if f.seekValue then DecideSeek(text, first, ptr, f, top)
    else if top == InObject then DecideObject(text, ptr, f)
    else Go(ptr + 1, f)
  }

  predicate NumberMode(comments: bool, f: Flags, top: Top) {
    !f.inString && !InComment(comments, f) && !f.done && !f.seekValue && top == InNumber
  }

  function DecideNumber(text: string, comments: bool, ptr: nat, f: Flags, num: Num, double: bool): Action
    requires ptr <= |text|
  {
    var b := CharAt(text, ptr);
    if comments && b == '/' then Fail
    else if IsDigit(b) then
      var more := num.(digits := num.digits + 1);
      if num.e then Digits(ptr + 1, more.(gotSign := true), false)
      else if double then Digits(ptr + 1, more, false)
      else if num.zero then Fail
      else Digits(ptr + 1, more.(zero := more.digits == 1 && b == '0'), false)
    else if (b == '+' || b == '-') && num.e && !num.gotSign then Digits(ptr + 1, num.(gotSign := true), false)
    else if b == '.' && !double then
      if num.digits == 0 then Fail else Digits(ptr + 1, num.(digits := 0), true)
    else if num.e then
      if num.digits == 0 then Fail else Close(ptr, f)
    else if double && num.digits == 0 then Fail
    else if b == 'e' || b == 'E' then Digits(ptr + 1, num.(e := true, digits := 0, zero := false), true)
    else Close(ptr, f)
  }

  // ------------------------------------------------------------------ effects

  function TopOf(s: State): Top {
    if s.top.Some? && s.top.value < |s.vals| then KindOf(s.vals[s.top.value].ty) else NoTop
  }

  function Unset<T>(n: nat, x: T): (s: seq<T>)
    ensures |s| == n && forall i :: 0 <= i < n ==> s[i] == x
  {
    seq(n, _ => x)
  }

  /** The allocations new_value makes in pass 2, from what pass 1 measured. */
  function Allocate(v: Value): Value {
    match v.ty
    case Array => if v.length == 0 then v else v.(table := Unset(v.length, UNSET), length := 0)
    case Object =>
      if v.length == 0 then v
      else v.(table := Unset(v.length, UNSET), mem := Unset(v.nameArea, None), memPos := 0, length := 0)
    case Text => v.(mem := Unset(v.length + 1, None), length := 0)
    case _ => v
  }

  /** new_value */
  function NewValue(first: bool, s: State, ty: Type): Outcome {
    var root := if s.root.None? then Some(s.taken) else s.root;
    if first then
      More(s.(vals := s.vals + [Value(s.top, ty, 0, 0, [], [], 0)], top := Some(|s.vals|),
              root := root, taken := s.taken + 1))
    else if s.taken >= |s.vals| then Fault
    else
      More(s.(vals := s.vals[s.taken := Allocate(s.vals[s.taken])], top := Some(s.taken),
              root := root, taken := s.taken + 1))
  }

  /** Writing `bytes` at `at`, inside the buffer only. */
  function Put(mem: seq<Option<char>>, at: nat, bytes: seq<char>): (r: Option<seq<Option<char>>>)
    ensures r.Some? <==> at + |bytes| <= |mem|
    ensures r.Some? ==> |r.value| == |mem| && forall i :: 0 <= i < |mem| ==>
              r.value[i] == if at <= i < at + |bytes| then Some(bytes[i - at]) else mem[i]
  {
    if at + |bytes| > |mem| then None
    else Some(mem[..at] + seq(|bytes|, i requires 0 <= i < |bytes| => Some(bytes[i])) + mem[at + |bytes|..])
  }

  /** flag_next: the value is finished; link it into its parent and go on there. */
  function Next(first: bool, s: State): Outcome {
    if s.top.None? || s.top.value >= |s.vals| then Fault
    else
      var f := s.flags.(needComma := true);
      var parent := s.vals[s.top.value].parent;
      if parent.None? then More(s.(flags := f.(done := true)))
      else if parent.value >= |s.vals| then Fault
      else
        var p := s.vals[parent.value];
        var f' := if p.ty == Array then f.(seekValue := true) else f;
        var hasTable := p.ty == Array || p.ty == Object;
        if !first && hasTable && p.length >= |p.table| then Fault
        else
          var p' := if first || !hasTable then p.(length := p.length + 1)
                    else p.(table := p.table[p.length := p.table[p.length].(child := s.top)], length := p.length + 1);
          if p'.length > LENGTH_LIMIT then Rejected
          else More(s.(flags := f', vals := s.vals[parent.value := p'], top := parent))
  }

  function Then(first: bool, o: Outcome): Outcome {
    if o.More? then Next(first, o.s) else o
  }

  function EmitBytes(first: bool, s: State, n: nat, bytes: seq<char>): Outcome {
    if first then More(s.(strLen := s.strLen + n))
    else if s.top.None? || s.top.value >= |s.vals| then Fault
    else
      var v := s.vals[s.top.value];
      var mem := Put(v.mem, s.strBase + s.strLen, bytes);
      if mem.None? then Fault
      else More(s.(vals := s.vals[s.top.value := v.(mem := mem.value)], strLen := s.strLen + |bytes|))
  }

  /** The closing quote of a string value. */
  function FinishText(first: bool, s: State): Outcome {
    if s.top.None? || s.top.value >= |s.vals| then Fault
    else
      var v := s.vals[s.top.value];
      var mem := if first then Some(v.mem) else Put(v.mem, s.strBase + s.strLen, ['\0']);
      if mem.None? then Fault
      else More(s.(vals := s.vals[s.top.value := v.(mem := mem.value, length := s.strLen)]))
  }

  /** The closing quote of a member name. */
  function FinishName(first: bool, s: State): Outcome {
    if s.top.None? || s.top.value >= |s.vals| then Fault
    else
      var v := s.vals[s.top.value];
      if first then More(s.(vals := s.vals[s.top.value := v.(nameArea := v.nameArea + s.strLen + 1)]))
      else
        var mem := Put(v.mem, s.strBase + s.strLen, ['\0']);
        if mem.None? || v.length >= |v.table| then Fault
        else
          var e := v.table[v.length].(name := Some((v.memPos, s.strLen)));
          More(s.(vals := s.vals[s.top.value :=
            v.(mem := mem.value, table := v.table[v.length := e], memPos := v.memPos + s.strLen + 1)]))
  }

  /** The counters set up when a value is opened. */
  function Opening(s: State, ptr: nat, f: Flags, ty: Type): State {
    var s' := s.(ptr := ptr, flags := f);
    if ty == Text then s'.(strLen := 0, strBase := 0) else if ty == Integer then s'.(num := NO_NUM) else s'
  }

  function Apply(first: bool, s: State, a: Action): Outcome {
    match a
    case Fail => Rejected
    case Finish => Accepted(s)
    case Go(ptr, f) => More(s.(ptr := ptr, flags := f))
    case Emit(ptr, f, n, bytes) => EmitBytes(first, s.(ptr := ptr, flags := f), n, bytes)
    case BeginName(ptr, f) =>
      if s.top.None? || s.top.value >= |s.vals| then Fault
      else More(s.(ptr := ptr, flags := f, strLen := 0, strBase := s.vals[s.top.value].memPos))
    case EndName(ptr, f) => FinishName(first, s.(ptr := ptr, flags := f))
    case EndText(ptr, f) => Then(first, FinishText(first, s.(ptr := ptr, flags := f)))
    case Begin(ptr, f, ty) => NewValue(first, Opening(s, ptr, f, ty), ty)
    case Leaf(ptr, f, ty) => Then(first, NewValue(first, s.(ptr := ptr, flags := f), ty))
    case Digits(ptr, num, toDouble) =>
      if s.top.None? || s.top.value >= |s.vals| then Fault
      else
        var v := s.vals[s.top.value];
        More(s.(ptr := ptr, num := num, vals := if toDouble then s.vals[s.top.value := v.(ty := Double)] else s.vals))
    case Close(ptr, f) => Next(first, s.(ptr := ptr, flags := f))
  }

  function Decide(text: string, comments: bool, first: bool, s: State): Action
    requires s.ptr <= |text|
  {
    var top := TopOf(s);
    if NumberMode(comments, s.flags, top) then
      DecideNumber(text, comments, s.ptr, s.flags, s.num, s.vals[s.top.value].ty == Double)
    else DecidePlain(text, comments, first, s.ptr, s.flags, top, s.strLen)
  }

  /** One iteration of the parsing loop. Behind the terminator there is nothing to read; before
      it, every read of the iteration is in bounds, as CharAt demands. */
  function Step(text: string, comments: bool, first: bool, s: State): Outcome {
    if s.ptr > |text| then Fault else Apply(first, s, Decide(text, comments, first, s))
  }

  /** At most n iterations. */
  function Run(text: string, comments: bool, first: bool, s: State, n: nat): Outcome
    decreases n
  {
    if n == 0 then More(s)
    else
      var o := Step(text, comments, first, s);
      if o.More? then Run(text, comments, first, o.s, n - 1) else o
  }

  /** The start of a pass over the values `vals`. */
  function Start(vals: seq<Value>): State {
    State(0, Flags(false, true, false, false, false, false, false, false), NO_NUM, None, None, 0, vals, 0, 0)
  }
}
