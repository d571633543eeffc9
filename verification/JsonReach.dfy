/** How pass 1 (src/utils/json.c) moves over the tokens of the grammar: fillers, strings and
    numbers. */
module JsonReach {
  import opened Wrappers
  import opened Json
  import opened JsonControl
  import G = JsonGrammar

  /** Some iterations of pass 1 lead from x to y. */
  ghost predicate Reach(text: string, comments: bool, x: State, y: State) {
    exists n: nat :: Run(text, comments, true, x, n) == More(y)
  }

  lemma ReachSelf(text: string, comments: bool, x: State)
    ensures Reach(text, comments, x, x)
  {
    assert Run(text, comments, true, x, 0) == More(x);
  }

  lemma ReachStep(text: string, comments: bool, x: State)
    requires Step(text, comments, true, x).More?
    ensures Reach(text, comments, x, Step(text, comments, true, x).s)
  {
    hide Step;
    assert Run(text, comments, true, Step(text, comments, true, x).s, 0).More?;
    assert Run(text, comments, true, x, 1) == Step(text, comments, true, x);
  }

  lemma {:induction false} RunPlus(text: string, comments: bool, x: State, n: nat, m: nat)
    requires Run(text, comments, true, x, n).More?
    ensures Run(text, comments, true, x, n + m) == Run(text, comments, true, Run(text, comments, true, x, n).s, m)
    decreases n
  {
    hide Step;
    if n > 0 { RunPlus(text, comments, Step(text, comments, true, x).s, n - 1, m); }
  }

  lemma ReachTrans(text: string, comments: bool, x: State, y: State, z: State)
    requires Reach(text, comments, x, y) && Reach(text, comments, y, z)
    ensures Reach(text, comments, x, z)
  {
    hide Run;
    var n: nat :| Run(text, comments, true, x, n) == More(y);
    var m: nat :| Run(text, comments, true, y, m) == More(z);
    RunPlus(text, comments, x, n, m);
  }

  /** Reach and one more iteration. */
  lemma ReachMore(text: string, comments: bool, x: State, y: State)
    requires Reach(text, comments, x, y) && Step(text, comments, true, y).More?
    ensures Reach(text, comments, x, Step(text, comments, true, y).s)
  {
    hide Step, Run, Reach;
    ReachStep(text, comments, y);
    ReachTrans(text, comments, x, y, Step(text, comments, true, y).s);
  }

  lemma {:induction false} RunWf(text: string, comments: bool, x: State, n: nat)
    requires Wf(text, comments, x) && Run(text, comments, true, x, n).More?
    ensures Wf(text, comments, Run(text, comments, true, x, n).s)
    decreases n
  {
    hide Step, Wf;
    if n > 0 {
      StepWf(text, comments, x);
      RunWf(text, comments, Step(text, comments, true, x).s, n - 1);
    }
  }

  lemma ReachWf(text: string, comments: bool, x: State, y: State)
    requires Wf(text, comments, x) && Reach(text, comments, x, y)
    ensures Wf(text, comments, y)
  {
    hide Run, Wf;
    var n: nat :| Run(text, comments, true, x, n) == More(y);
    RunWf(text, comments, x, n);
  }

  // ------------------------------------------------------------------- fillers

  /** A state between tokens. */
  predicate Between(x: State) {
    && !x.flags.inString && !x.flags.lineComment && !x.flags.blockComment
    && (x.flags.done || x.flags.seekValue || TopOf(x) == InObject)
  }

  lemma SpaceStep(text: string, comments: bool, x: State)
    requires Between(x) && x.ptr < |text| && G.Space(text[x.ptr])
    ensures Step(text, comments, true, x) == More(x.(ptr := x.ptr + 1))
  {
  }

  lemma OpenStep(text: string, comments: bool, x: State)
    requires Between(x) && comments && x.ptr + 1 < |text| && text[x.ptr] == '/'
    ensures var o := Step(text, comments, true, x);
            if text[x.ptr + 1] == '/' then o == More(x.(ptr := x.ptr + 2, flags := x.flags.(lineComment := true)))
            else if text[x.ptr + 1] == '*' then o == More(x.(ptr := x.ptr + 2, flags := x.flags.(blockComment := true)))
            else o == Rejected
  {
  }

  lemma LineStep(text: string, x: State)
    requires !x.flags.inString && x.flags.lineComment && x.ptr <= |text|
    ensures var o, b := Step(text, true, true, x), CharAt(text, x.ptr);
            o == More(if b == '\r' || b == '\n' || b == '\0' then x.(flags := x.flags.(lineComment := false))
                      else x.(ptr := x.ptr + 1))
  {
  }

  lemma BlockStep(text: string, x: State)
    requires !x.flags.inString && x.flags.blockComment && !x.flags.lineComment && x.ptr <= |text|
    ensures var o, b := Step(text, true, true, x), CharAt(text, x.ptr);
            o == if b == '\0' then Rejected
                 else More(if G.ClosesComment(text, x.ptr)
                           then x.(ptr := x.ptr + 2, flags := x.flags.(blockComment := false))
                           else x.(ptr := x.ptr + 1))
  {
  }

  lemma {:induction false} LineReach(text: string, x: State, j: nat)
    requires !x.flags.inString && x.flags.lineComment && x.ptr <= j <= |text|
    requires forall p :: x.ptr <= p < j ==> text[p] != '\n' && text[p] != '\r' && text[p] != '\0'
    requires j < |text| ==> text[j] == '\n' || text[j] == '\r' || text[j] == '\0'
    ensures Reach(text, true, x, x.(ptr := j, flags := x.flags.(lineComment := false)))
    decreases j - x.ptr
  {
    hide Step, Reach;
    LineStep(text, x);
    ReachStep(text, true, x);
    if x.ptr < j {
      var y := x.(ptr := x.ptr + 1);
      LineReach(text, y, j);
      ReachTrans(text, true, x, y, x.(ptr := j, flags := x.flags.(lineComment := false)));
    }
  }

  lemma {:induction false} BlockReach(text: string, x: State, j: nat)
    requires !x.flags.inString && x.flags.blockComment && !x.flags.lineComment
    requires x.ptr + 2 <= j <= |text| && G.ClosesComment(text, j - 2)
    requires forall p :: x.ptr <= p < j - 2 ==> text[p] != '\0' && !G.ClosesComment(text, p)
    ensures Reach(text, true, x, x.(ptr := j, flags := x.flags.(blockComment := false)))
    decreases j - x.ptr
  {
    hide Step, Reach;
    BlockStep(text, x);
    ReachStep(text, true, x);
    if x.ptr < j - 2 {
      var y := x.(ptr := x.ptr + 1);
      BlockReach(text, y, j);
      ReachTrans(text, true, x, y, x.(ptr := j, flags := x.flags.(blockComment := false)));
    }
  }

  lemma BlankReach(text: string, comments: bool, x: State, j: nat)
    requires Between(x) && G.Blank(text, comments, x.ptr, j)
    ensures Reach(text, comments, x, x.(ptr := j))
  {
    hide Step, Reach;
    if j == x.ptr + 1 {
      SpaceStep(text, comments, x);
      ReachStep(text, comments, x);
    } else {
      OpenStep(text, comments, x);
      ReachStep(text, comments, x);
      var y := Step(text, comments, true, x).s;
      if text[x.ptr + 1] == '/' { LineReach(text, y, j); } else { BlockReach(text, y, j); }
      assert y.(ptr := j, flags := x.flags) == x.(ptr := j);
      ReachTrans(text, comments, x, y, x.(ptr := j));
    }
  }

  lemma {:induction false} FillerReach(text: string, comments: bool, x: State, j: nat)
    requires Between(x) && G.Filler(text, comments, x.ptr, j)
    ensures Reach(text, comments, x, x.(ptr := j))
    decreases j - x.ptr
  {
    hide Reach, G.Blank;
    if x.ptr == j {
      ReachSelf(text, comments, x);
    } else {
      var k: nat :| x.ptr < k <= j && G.Blank(text, comments, x.ptr, k) && G.Filler(text, comments, k, j);
      var y := x.(ptr := k);
      BlankReach(text, comments, x, k);
      FillerReach(text, comments, y, j);
      ReachTrans(text, comments, x, y, x.(ptr := j));
    }
  }

  // ------------------------------------------------------------------- strings

  /** The string limit of the parser is that of the grammar. */
  lemma SameLimit()
    ensures LENGTH_LIMIT == G.MOST
  {
  }

  lemma HexIs(c: char)
    ensures HexValue(c) == if G.HexDigit(c) >= 0 then Some(G.HexDigit(c)) else None
  {
  }

  lemma CodeIs(text: string, i: nat)
    requires i + 6 <= |text| && text[i] == '\\' && text[i + 1] == 'u'
    ensures Hex4(text, i + 2) == if G.CodeUnit(text, i) then Some(G.Code(text, i)) else None
  {
    HexIs(text[i + 2]);
    HexIs(text[i + 3]);
    HexIs(text[i + 4]);
    HexIs(text[i + 5]);
  }

  lemma SurrogateIs(u: nat)
    ensures IsSurrogate(u) <==> G.Surrogate(u)
  {
  }

  /** A character that is not escaped. */
  lemma PlainStep(text: string, comments: bool, x: State)
    requires x.flags.inString && !x.flags.escaped && x.ptr < |text| && x.strLen <= LENGTH_LIMIT
    requires text[x.ptr] != '"' && text[x.ptr] != '\\' && text[x.ptr] != '\0'
    ensures Step(text, comments, true, x) == More(x.(ptr := x.ptr + 1, strLen := x.strLen + 1))
  {
  }

  lemma BackslashStep(text: string, comments: bool, x: State)
    requires x.flags.inString && !x.flags.escaped && x.ptr < |text| && x.strLen <= LENGTH_LIMIT && text[x.ptr] == '\\'
    ensures Step(text, comments, true, x) == More(x.(ptr := x.ptr + 1, flags := x.flags.(escaped := true)))
  {
  }

  /** The character after a backslash: what pass 1 does depends on the unit that starts at the
      backslash. */
  lemma EscapeStep(text: string, comments: bool, x: State, i: nat)
    requires x.flags.inString && x.flags.escaped && x.ptr == i + 1 <= |text| && x.strLen <= LENGTH_LIMIT
    requires text[i] == '\\'
    ensures var o, f := Step(text, comments, true, x), x.flags.(escaped := false);
            if CharAt(text, i + 1) == '\0' then o == Rejected
            else if text[i + 1] != 'u' then o == More(x.(ptr := i + 2, flags := f, strLen := x.strLen + 1))
            else if !G.CodeUnit(text, i) then o == Rejected
            else if !G.Surrogate(G.Code(text, i)) then
              o == More(x.(ptr := i + 6, flags := f, strLen := x.strLen + G.Utf8Bytes(G.Code(text, i))))
            else if !G.CodeUnit(text, i + 6) then o == Rejected
            else o == More(x.(ptr := i + 12, flags := f, strLen := x.strLen + 4))
  {
    hide Hex4, IsSurrogate, G.CodeUnit, Merge, Utf8;
    if i + 6 <= |text| && text[i + 1] == 'u' {
      CodeIs(text, i);
      if Hex4(text, i + 2).Some? { SurrogateIs(Hex4(text, i + 2).value); }
    } else {
      assert !G.CodeUnit(text, i) by { ShortCode(text, i); }
    }
    if i + 12 <= |text| && text[i + 6] == '\\' && text[i + 7] == 'u' {
      CodeIs(text, i + 6);
    } else {
      ShortCode(text, i + 6);
    }
  }

  lemma ShortCode(text: string, i: nat)
    ensures G.CodeUnit(text, i) ==> i + 6 <= |text| && text[i] == '\\' && text[i + 1] == 'u'
  {
  }

  lemma UnitLength(text: string, i: nat, k: nat, w: nat)
    requires G.Unit(text, i, k, w)
    ensures i < |text| && (text[i] == '\\' ==> i + 1 < |text| && text[i + 1] != '\0')
  {
  }

  lemma UnitReach(text: string, comments: bool, x: State, k: nat, w: nat)
    requires x.flags.inString && !x.flags.escaped && x.strLen <= LENGTH_LIMIT && G.Unit(text, x.ptr, k, w)
    ensures Reach(text, comments, x, x.(ptr := k, strLen := x.strLen + w))
  {
    hide Step, Reach;
    if text[x.ptr] != '\\' {
      PlainStep(text, comments, x);
      ReachStep(text, comments, x);
    } else {
      BackslashStep(text, comments, x);
      ReachStep(text, comments, x);
      var y := Step(text, comments, true, x).s;
      UnitLength(text, x.ptr, k, w);
      EscapeStep(text, comments, y, x.ptr);
      ReachMore(text, comments, x, y);
      assert y.flags.(escaped := false) == x.flags;
    }
  }

  lemma {:induction false} CharsReach(text: string, comments: bool, x: State, j: nat, n: nat)
    requires x.flags.inString && !x.flags.escaped && G.Chars(text, x.ptr, j, n) && x.strLen + n <= LENGTH_LIMIT
    ensures Reach(text, comments, x, x.(ptr := j, strLen := x.strLen + n))
    decreases j - x.ptr
  {
    hide Reach, G.Unit;
    if x.ptr == j {
      ReachSelf(text, comments, x);
    } else {
      var k: nat, w: nat :| x.ptr < k <= j && w <= n && G.Unit(text, x.ptr, k, w) && G.Chars(text, k, j, n - w);
      var y := x.(ptr := k, strLen := x.strLen + w);
      UnitReach(text, comments, x, k, w);
      CharsReach(text, comments, y, j, n - w);
      ReachTrans(text, comments, x, y, x.(ptr := j, strLen := x.strLen + n));
    }
  }

  // ------------------------------------------------------------------- numbers

  /** A state inside a number. */
  predicate Numeric(comments: bool, s: State) {
    s.top.Some? && s.top.value < |s.vals| && NumberMode(comments, s.flags, TopOf(s))
  }

  predicate IsDouble(s: State)
    requires s.top.Some? && s.top.value < |s.vals|
  {
    s.vals[s.top.value].ty == Double
  }

  function AsDouble(s: State): State
    requires s.top.Some? && s.top.value < |s.vals|
  {
    s.(vals := s.vals[s.top.value := s.vals[s.top.value].(ty := Double)])
  }

  lemma WholeDigit(text: string, comments: bool, s: State)
    requires Numeric(comments, s) && !IsDouble(s) && !s.num.e && s.ptr < |text| && G.Digit(text[s.ptr])
    ensures Step(text, comments, true, s) ==
            if s.num.zero then Rejected
            else More(s.(ptr := s.ptr + 1,
                         num := Num(s.num.digits + 1, s.num.digits == 0 && text[s.ptr] == '0', false, s.num.gotSign)))
  {
  }

  lemma FractionDigit(text: string, comments: bool, s: State)
    requires Numeric(comments, s) && IsDouble(s) && !s.num.e && s.ptr < |text| && G.Digit(text[s.ptr])
    ensures Step(text, comments, true, s) == More(s.(ptr := s.ptr + 1, num := s.num.(digits := s.num.digits + 1)))
  {
  }

  lemma ExponentDigit(text: string, comments: bool, s: State)
    requires Numeric(comments, s) && s.num.e && s.ptr < |text| && G.Digit(text[s.ptr])
    ensures Step(text, comments, true, s) ==
            More(s.(ptr := s.ptr + 1, num := s.num.(digits := s.num.digits + 1, gotSign := true)))
  {
  }

  lemma PointStep(text: string, comments: bool, s: State)
    requires Numeric(comments, s) && !IsDouble(s) && !s.num.e && s.ptr < |text| && text[s.ptr] == '.'
    ensures Step(text, comments, true, s) ==
            if s.num.digits == 0 then Rejected
            else More(AsDouble(s.(ptr := s.ptr + 1, num := s.num.(digits := 0))))
  {
  }

  lemma ExpStep(text: string, comments: bool, s: State)
    requires Numeric(comments, s) && !s.num.e && s.ptr < |text| && (text[s.ptr] == 'e' || text[s.ptr] == 'E')
    requires IsDouble(s) ==> s.num.digits > 0
    ensures Step(text, comments, true, s) ==
            More(AsDouble(s.(ptr := s.ptr + 1, num := s.num.(e := true, digits := 0, zero := false))))
  {
  }

  lemma SignStep(text: string, comments: bool, s: State)
    requires Numeric(comments, s) && s.num.e && !s.num.gotSign && s.ptr < |text|
    requires (text[s.ptr] == '+' || text[s.ptr] == '-')
    ensures Step(text, comments, true, s) == More(s.(ptr := s.ptr + 1, num := s.num.(gotSign := true)))
  {
  }

  lemma EndStep(text: string, comments: bool, s: State)
    requires Numeric(comments, s) && s.ptr <= |text| && G.EndsNumber(text, comments, s.ptr)
    requires s.num.e || IsDouble(s) ==> s.num.digits > 0
    ensures Step(text, comments, true, s) == Next(true, s)
  {
    hide Next;
  }

  lemma {:induction false} WholeReach(text: string, comments: bool, s: State, b: nat)
    requires Numeric(comments, s) && !IsDouble(s) && s.num == NO_NUM
    requires G.Digits(text, s.ptr, b) && (b > s.ptr + 1 ==> text[s.ptr] != '0')
    ensures var num := Num(b - s.ptr, b == s.ptr + 1 && text[s.ptr] == '0', false, false);
            Reach(text, comments, s, s.(ptr := b, num := num))
    decreases b - s.ptr
  {
    hide Step, Reach;
    if b == s.ptr {
      assert s.(ptr := b, num := NO_NUM) == s;
      ReachSelf(text, comments, s);
    } else {
      WholeReach(text, comments, s, b - 1);
      var y := s.(ptr := b - 1, num := Num(b - 1 - s.ptr, b - 1 == s.ptr + 1 && text[s.ptr] == '0', false, false));
      WholeDigit(text, comments, y);
      ReachMore(text, comments, s, y);
    }
  }

  lemma {:induction false} FractionReach(text: string, comments: bool, s: State, k: nat)
    requires Numeric(comments, s) && IsDouble(s) && !s.num.e && G.Digits(text, s.ptr, k)
    ensures Reach(text, comments, s, s.(ptr := k, num := s.num.(digits := s.num.digits + k - s.ptr)))
    decreases k - s.ptr
  {
    hide Step, Reach;
    if k == s.ptr {
      ReachSelf(text, comments, s);
    } else {
      FractionReach(text, comments, s, k - 1);
      var y := s.(ptr := k - 1, num := s.num.(digits := s.num.digits + k - 1 - s.ptr));
      FractionDigit(text, comments, y);
      ReachMore(text, comments, s, y);
    }
  }

  lemma {:induction false} ExponentReach(text: string, comments: bool, s: State, j: nat)
    requires Numeric(comments, s) && s.num.e && G.Digits(text, s.ptr, j)
    ensures var num := s.num.(digits := s.num.digits + j - s.ptr, gotSign := s.num.gotSign || j > s.ptr);
            Reach(text, comments, s, s.(ptr := j, num := num))
    decreases j - s.ptr
  {
    hide Step, Reach;
    if j == s.ptr {
      ReachSelf(text, comments, s);
    } else {
      ExponentReach(text, comments, s, j - 1);
      var num := s.num.(digits := s.num.digits + j - 1 - s.ptr, gotSign := s.num.gotSign || j - 1 > s.ptr);
      var y := s.(ptr := j - 1, num := num);
      ExponentDigit(text, comments, y);
      ReachMore(text, comments, s, y);
    }
  }

  /** Where the digits of an exponent start. */
  lemma ExpOpens(text: string, comments: bool, s: State) returns (y: State)
    requires Numeric(comments, s) && !s.num.e && !s.num.gotSign
    requires s.ptr < |text| && (text[s.ptr] == 'e' || text[s.ptr] == 'E') && (IsDouble(s) ==> s.num.digits > 0)
    ensures Reach(text, comments, s, y)
    ensures var signed := G.AfterExpSign(text, s.ptr) == s.ptr + 2;
            y == AsDouble(s.(ptr := G.AfterExpSign(text, s.ptr), num := Num(0, false, true, signed)))
  {
    hide Step, Reach;
    ExpStep(text, comments, s);
    ReachStep(text, comments, s);
    y := Step(text, comments, true, s).s;
    if G.AfterExpSign(text, s.ptr) == s.ptr + 2 {
      SignStep(text, comments, y);
      ReachMore(text, comments, s, y);
      y := Step(text, comments, true, y).s;
    }
  }

  /** What a number read up to ptr has left behind: its value is double from the first point or
      exponent on. */
  predicate ReadTo(s: State, u: State, j: nat, double: bool)
    requires s.top.Some? && s.top.value < |s.vals|
  {
    u == (if double then AsDouble(s) else s).(ptr := j, num := u.num)
  }

  /** The whole part and the fraction. */
  lemma MantissaReach(text: string, comments: bool, s: State, i: nat, b: nat, k: nat) returns (u: State)
    requires Numeric(comments, s) && !IsDouble(s) && s.num == NO_NUM && s.ptr == G.AfterSign(text, i)
    requires i <= b <= k && G.Whole(text, i, b) && G.Fraction(text, i, b, k)
    ensures Reach(text, comments, s, u) && ReadTo(s, u, k, b < k)
    ensures !u.num.e && !u.num.gotSign && u.num.digits == (if k == b then b - s.ptr else k - b - 1)
  {
    hide Step, Reach;
    WholeReach(text, comments, s, b);
    u := s.(ptr := b, num := Num(b - s.ptr, b == s.ptr + 1 && text[s.ptr] == '0', false, false));
    if b < k {
      PointStep(text, comments, u);
      ReachMore(text, comments, s, u);
      var y := Step(text, comments, true, u).s;
      FractionReach(text, comments, y, k);
      u := y.(ptr := k, num := y.num.(digits := k - b - 1));
      ReachTrans(text, comments, s, y, u);
    }
  }

  /** A whole number, up to the iteration that finishes it. */
  lemma NumberReach(text: string, comments: bool, s: State, i: nat, j: nat, double: bool) returns (u: State)
    requires Numeric(comments, s) && !IsDouble(s) && s.num == NO_NUM && s.ptr == G.AfterSign(text, i)
    requires G.NumberAt(text, comments, i, j, double) && j <= |text|
    ensures Reach(text, comments, s, u) && ReadTo(s, u, j, double) && Step(text, comments, true, u) == Next(true, u)
  {
    hide Step, Reach, Next, G.Whole, G.EndsNumber;
    var b: nat, k: nat :| G.Parts(text, i, b, k, j) && (double <==> b < j);
    u := MantissaReach(text, comments, s, i, b, k);
    if k < j {
      var y := ExpOpens(text, comments, u);
      ExponentReach(text, comments, y, j);
      ReachTrans(text, comments, s, u, y);
      u := y.(ptr := j, num := y.num.(digits := j - y.ptr, gotSign := true));
      ReachTrans(text, comments, s, y, u);
    }
    EndStep(text, comments, u);
  }
}
