/** Whatever pass 1 (src/utils/json.c) accepts is a text of the grammar. */
module JsonAccept {
  import opened Wrappers
  import opened Json
  import opened JsonControl
  import opened JsonReach
  import opened JsonLayout
  import opened JsonRead
  import JsonTwoPass
  import G = JsonGrammar

  /** Pass 1 accepts from this state on. */
  ghost predicate Accepting(text: string, comments: bool, x: State) {
    exists n: nat :: Run(text, comments, true, x, n).Accepted?
  }

  lemma AcceptingStep(text: string, comments: bool, x: State)
    requires Accepting(text, comments, x)
    ensures var o := Step(text, comments, true, x); o.Accepted? || (o.More? && Accepting(text, comments, o.s))
  {
    hide Step;
    var n: nat :| Run(text, comments, true, x, n).Accepted?;
    assert n > 0;
    var o := Step(text, comments, true, x);
    if o.More? { assert Run(text, comments, true, o.s, n - 1).Accepted?; }
  }

  lemma AcceptingReach(text: string, comments: bool, x: State, y: State)
    requires Accepting(text, comments, x) && Reach(text, comments, x, y)
    ensures Accepting(text, comments, y)
  {
    hide Step, Run;
    var n: nat :| Run(text, comments, true, x, n).Accepted?;
    var m: nat :| Run(text, comments, true, x, m) == More(y);
    if n <= m { RunLonger(text, comments, true, x, n, m); }
    RunPlus(text, comments, x, m, n - m);
  }

  // ------------------------------------------------------------------- fillers

  /** Neither a space nor, with comments on, a slash. */
  predicate Stops(text: string, comments: bool, j: nat) {
    j <= |text| && !G.Space(CharAt(text, j)) && !(comments && CharAt(text, j) == '/')
  }

  lemma FillerCons(text: string, comments: bool, i: nat, k: nat, j: nat)
    requires i < k && G.Blank(text, comments, i, k) && G.Filler(text, comments, k, j)
    ensures G.Filler(text, comments, i, j)
  {
    hide G.Blank;
  }

  lemma {:induction false} LineEnd(text: string, i: nat) returns (j: nat)
    requires i <= |text|
    ensures i <= j <= |text| && (j < |text| ==> text[j] == '\n' || text[j] == '\r' || text[j] == '\0')
    ensures forall p :: i <= p < j ==> text[p] != '\n' && text[p] != '\r' && text[p] != '\0'
    decreases |text| - i
  {
    j := i;
    if i < |text| && text[i] != '\n' && text[i] != '\r' && text[i] != '\0' { j := LineEnd(text, i + 1); }
  }

  /** A block comment that pass 1 accepts is closed before any NUL. */
  lemma {:induction false} BlockEnd(text: string, x: State) returns (j: nat)
    requires !x.flags.inString && x.flags.blockComment && !x.flags.lineComment && x.ptr <= |text|
    requires Accepting(text, true, x)
    ensures x.ptr + 2 <= j <= |text| && G.ClosesComment(text, j - 2)
    ensures forall p :: x.ptr <= p < j - 2 ==> text[p] != '\0' && !G.ClosesComment(text, p)
    decreases |text| - x.ptr
  {
    hide Step, Accepting, G.ClosesComment;
    BlockStep(text, x);
    AcceptingStep(text, true, x);
    if G.ClosesComment(text, x.ptr) {
      j := x.ptr + 2;
      Closed(text, x.ptr);
    } else {
      assert x.ptr < |text|;
      j := BlockEnd(text, x.(ptr := x.ptr + 1));
    }
  }

  lemma Closed(text: string, p: nat)
    requires G.ClosesComment(text, p)
    ensures p + 2 <= |text|
  {
  }

  /** The filler at a place where pass 1 goes on to accept. */
  lemma {:induction false} FillerEnd(text: string, comments: bool, x: State) returns (j: nat)
    requires Between(x) && x.ptr <= |text| && Accepting(text, comments, x)
    ensures G.Filler(text, comments, x.ptr, j) && Stops(text, comments, j) && Accepting(text, comments, x.(ptr := j))
    decreases |text| - x.ptr, 0
  {
    hide Step, Accepting, Reach, G.Blank, G.LineComment, G.BlockComment;
    var i := x.ptr;
    if i < |text| && G.Space(text[i]) {
      assert G.Blank(text, comments, i, i + 1) by { OneSpace(text, comments, i); }
      j := FillerFrom(text, comments, x, i + 1);
    } else if i < |text| && comments && text[i] == '/' {
      var k := CommentEnd(text, x);
      j := FillerFrom(text, comments, x, k);
    } else {
      j := i;
    }
  }

  lemma OneSpace(text: string, comments: bool, i: nat)
    requires i < |text| && G.Space(text[i])
    ensures G.Blank(text, comments, i, i + 1)
  {
  }

  lemma {:induction false} FillerFrom(text: string, comments: bool, x: State, k: nat) returns (j: nat)
    requires Between(x) && x.ptr < k <= |text| && Accepting(text, comments, x) && G.Blank(text, comments, x.ptr, k)
    ensures G.Filler(text, comments, x.ptr, j) && Stops(text, comments, j) && Accepting(text, comments, x.(ptr := j))
    decreases |text| - k, 1
  {
    hide Step, Accepting, Reach, G.Blank, G.Filler, Stops;
    var y := x.(ptr := k);
    BlankReach(text, comments, x, k);
    AcceptingReach(text, comments, x, y);
    j := FillerEnd(text, comments, y);
    FillerCons(text, comments, x.ptr, k, j);
  }

  lemma SlashStep(text: string, x: State)
    requires Between(x) && x.ptr < |text| && text[x.ptr] == '/' && x.ptr + 1 == |text|
    ensures Step(text, true, true, x).Rejected?
  {
  }

  lemma CommentEnd(text: string, x: State) returns (k: nat)
    requires Between(x) && x.ptr < |text| && text[x.ptr] == '/' && Accepting(text, true, x)
    ensures x.ptr < k <= |text| && G.Blank(text, true, x.ptr, k)
  {
    hide Step, Accepting, Reach;
    AcceptingStep(text, true, x);
    if x.ptr + 1 == |text| {
      SlashStep(text, x);
    } else {
      OpenStep(text, true, x);
      if text[x.ptr + 1] == '/' {
        k := LineEnd(text, x.ptr + 2);
        assert G.LineComment(text, x.ptr, k);
      } else {
        k := BlockEnd(text, Step(text, true, true, x).s);
        assert G.BlockComment(text, x.ptr, k);
      }
    }
  }

  // ------------------------------------------------------------------- strings

  lemma StringRejects(text: string, comments: bool, x: State)
    requires x.flags.inString && x.ptr <= |text| && (CharAt(text, x.ptr) == '\0' || x.strLen > LENGTH_LIMIT)
    ensures Step(text, comments, true, x).Rejected?
  {
  }

  lemma CharsCons(text: string, i: nat, k: nat, w: nat, j: nat, n: nat)
    requires i < k <= j && G.Unit(text, i, k, w) && G.Chars(text, k, j, n)
    ensures G.Chars(text, i, j, w + n)
  {
    hide G.Unit;
    assert G.Chars(text, k, j, w + n - w);
  }

  /** The unit at a place inside a string where pass 1 goes on to accept. */
  lemma UnitEnd(text: string, comments: bool, x: State) returns (k: nat, w: nat)
    requires x.flags.inString && !x.flags.escaped && x.ptr < |text| && text[x.ptr] != '"'
    requires Accepting(text, comments, x)
    ensures x.ptr < k <= |text| && G.Unit(text, x.ptr, k, w) && x.strLen <= LENGTH_LIMIT
  {
    hide Step, Accepting, G.CodeUnit;
    var i := x.ptr;
    AcceptingStep(text, comments, x);
    if text[i] == '\0' || x.strLen > LENGTH_LIMIT { StringRejects(text, comments, x); }
    if text[i] != '\\' {
      k, w := i + 1, 1;
    } else {
      BackslashStep(text, comments, x);
      var y := Step(text, comments, true, x).s;
      AcceptingStep(text, comments, y);
      EscapeStep(text, comments, y, i);
      ShortCode(text, i);
      ShortCode(text, i + 6);
      if text[i + 1] != 'u' {
        k, w := i + 2, 1;
      } else if !G.Surrogate(G.Code(text, i)) {
        k, w := i + 6, G.Utf8Bytes(G.Code(text, i));
      } else {
        k, w := i + 12, 4;
      }
    }
  }

  /** The rest of a string where pass 1 goes on to accept. */
  lemma {:induction false} StringEnd(text: string, comments: bool, x: State) returns (j: nat, n: nat)
    requires x.flags.inString && !x.flags.escaped && x.ptr <= |text| && Accepting(text, comments, x)
    ensures x.ptr <= j < |text| && text[j] == '"' && G.Chars(text, x.ptr, j, n) && x.strLen + n <= LENGTH_LIMIT
    ensures Accepting(text, comments, x.(ptr := j, strLen := x.strLen + n))
    decreases |text| - x.ptr
  {
    hide Step, Accepting, Reach, G.Unit;
    AcceptingStep(text, comments, x);
    if x.ptr == |text| || x.strLen > LENGTH_LIMIT { StringRejects(text, comments, x); }
    if text[x.ptr] == '"' {
      j, n := x.ptr, 0;
    } else {
      var k, w := UnitEnd(text, comments, x);
      var y := x.(ptr := k, strLen := x.strLen + w);
      UnitReach(text, comments, x, k, w);
      AcceptingReach(text, comments, x, y);
      j, n := StringEnd(text, comments, y);
      CharsCons(text, x.ptr, k, w, j, n);
      n := w + n;
    }
  }

  // ------------------------------------------------------------------- numbers

  lemma {:induction false} DigitsEnd(text: string, i: nat) returns (j: nat)
    requires i <= |text|
    ensures G.Digits(text, i, j) && (j < |text| ==> !G.Digit(text[j]))
    decreases |text| - i
  {
    j := i;
    if i < |text| && G.Digit(text[i]) { j := DigitsEnd(text, i + 1); }
  }

  /** A point or an exponent without digits is rejected at the next character. */
  lemma NoDigits(text: string, comments: bool, s: State)
    requires Numeric(comments, s) && s.ptr <= |text| && !G.Digit(CharAt(text, s.ptr)) && s.num.digits == 0
    requires IsDouble(s)
    requires s.num.e && (CharAt(text, s.ptr) == '+' || CharAt(text, s.ptr) == '-') ==> s.num.gotSign
    ensures Step(text, comments, true, s).Rejected?
  {
  }

  /** A complete number is finished at a character that cannot continue it. */
  lemma Finishes(text: string, comments: bool, s: State)
    requires Numeric(comments, s) && s.ptr <= |text| && !G.Digit(CharAt(text, s.ptr))
    requires (s.num.e ==> s.num.gotSign && IsDouble(s)) && (IsDouble(s) ==> s.num.digits > 0)
    requires !s.num.e ==> CharAt(text, s.ptr) != 'e' && CharAt(text, s.ptr) != 'E'
    requires !IsDouble(s) ==> CharAt(text, s.ptr) != '.'
    ensures Step(text, comments, true, s) ==
            if comments && CharAt(text, s.ptr) == '/' then Rejected else Next(true, s)
  {
    hide Next;
  }

  /** The mantissa where pass 1 goes on to accept. */
  lemma MantissaEnd(text: string, comments: bool, s: State, i: nat) returns (b: nat, k: nat, u: State)
    requires Numeric(comments, s) && !IsDouble(s) && s.num == NO_NUM && s.ptr == G.AfterSign(text, i)
    requires i < |text| && (G.Digit(text[i]) || text[i] == '-') && Accepting(text, comments, s)
    ensures i <= b <= k <= |text| && i < k && G.Whole(text, i, b) && G.Fraction(text, i, b, k)
    ensures Reach(text, comments, s, u) && ReadTo(s, u, k, b < k) && !u.num.e && !u.num.gotSign
    ensures b < k ==> u.num.digits > 0
    ensures k < |text| ==> !G.Digit(text[k]) && (b == k ==> text[k] != '.')
  {
    var a := s.ptr;
    b := DigitsEnd(text, a);
    NoLeadingZero(text, comments, s, b);
    k := b;
    if b < |text| && text[b] == '.' {
      k := DigitsEnd(text, b + 1);
      PointNeedsDigits(text, comments, s, b, k);
    }
    hide Step, Reach;
    u := MantissaReach(text, comments, s, i, b, k);
  }

  lemma NoLeadingZero(text: string, comments: bool, s: State, b: nat)
    requires Numeric(comments, s) && !IsDouble(s) && s.num == NO_NUM && Accepting(text, comments, s)
    requires G.Digits(text, s.ptr, b)
    ensures b > s.ptr + 1 ==> text[s.ptr] != '0'
  {
    hide Step, Reach, Accepting;
    var a := s.ptr;
    if b > a + 1 && text[a] == '0' {
      WholeReach(text, comments, s, a + 1);
      var y := s.(ptr := a + 1, num := Num(1, true, false, false));
      AcceptingReach(text, comments, s, y);
      WholeDigit(text, comments, y);
      AcceptingStep(text, comments, y);
    }
  }

  lemma PointNeedsDigits(text: string, comments: bool, s: State, b: nat, k: nat)
    requires Numeric(comments, s) && !IsDouble(s) && s.num == NO_NUM && Accepting(text, comments, s)
    requires G.Digits(text, s.ptr, b) && (b > s.ptr + 1 ==> text[s.ptr] != '0') && b < |text| && text[b] == '.'
    requires G.Digits(text, b + 1, k) && (k < |text| ==> !G.Digit(text[k]))
    ensures s.ptr < b && b + 1 < k
  {
    hide Step, Reach, Accepting;
    WholeReach(text, comments, s, b);
    var y := s.(ptr := b, num := Num(b - s.ptr, b == s.ptr + 1 && text[s.ptr] == '0', false, false));
    AcceptingReach(text, comments, s, y);
    PointStep(text, comments, y);
    AcceptingStep(text, comments, y);
    if k == b + 1 {
      var z := Step(text, comments, true, y).s;
      AcceptingStep(text, comments, z);
      NoDigits(text, comments, z);
    }
  }

  /** The exponent, if any, where pass 1 goes on to accept. */
  lemma ExponentEnd(text: string, comments: bool, s: State) returns (j: nat, u: State)
    requires Numeric(comments, s) && !s.num.e && !s.num.gotSign && s.ptr <= |text| && Accepting(text, comments, s)
    requires IsDouble(s) ==> s.num.digits > 0
    requires s.ptr < |text| ==> !G.Digit(text[s.ptr])
    ensures s.ptr <= j <= |text| && G.Exponent(text, s.ptr, j) && (j < |text| ==> !G.Digit(text[j]))
    ensures Reach(text, comments, s, u)
    ensures if j == s.ptr then u == s && (j < |text| ==> text[j] != 'e' && text[j] != 'E')
            else ReadTo(s, u, j, true) && u.num.e && u.num.gotSign && u.num.digits > 0
  {
    hide Step, Reach, Accepting;
    if s.ptr < |text| && (text[s.ptr] == 'e' || text[s.ptr] == 'E') {
      var y := ExpOpens(text, comments, s);
      AcceptingReach(text, comments, s, y);
      j := DigitsEnd(text, y.ptr);
      if j == y.ptr {
        NoDigits(text, comments, y);
        AcceptingStep(text, comments, y);
      }
      ExponentReach(text, comments, y, j);
      u := y.(ptr := j, num := y.num.(digits := j - y.ptr, gotSign := true));
      ReachTrans(text, comments, s, y, u);
    } else {
      j, u := s.ptr, s;
      ReachSelf(text, comments, s);
    }
  }

  lemma NextGoesOn(s: State)
    ensures !Next(true, s).Accepted?
  {
  }

  /** The number at a place where pass 1 goes on to accept. */
  lemma NumberEnd(text: string, comments: bool, s: State, i: nat) returns (j: nat, double: bool)
    requires Wf(text, comments, s) && Numeric(comments, s) && !IsDouble(s) && s.num == NO_NUM
    requires s.ptr == G.AfterSign(text, i)
    requires i < |text| && (G.Digit(text[i]) || text[i] == '-') && Accepting(text, comments, s)
    ensures i < j <= |text| && G.NumberAt(text, comments, i, j, double)
  {
    hide Step, Reach, Accepting, Next, Wf, G.Whole, G.Fraction, G.Exponent;
    var b, k, u := MantissaEnd(text, comments, s, i);
    AcceptingReach(text, comments, s, u);
    var v;
    j, v := ExponentEnd(text, comments, u);
    AcceptingReach(text, comments, u, v);
    ReachTrans(text, comments, s, u, v);
    ReachWf(text, comments, s, v);
    Finishes(text, comments, v);
    AcceptingStep(text, comments, v);
    NextGoesOn(v);
    if IsNumberChar(CharAt(text, j)) {
      JsonTwoPass.NoNumberAfterNumber(text, comments, v);
      AcceptingStep(text, comments, Next(true, v).s);
    }
    assert G.EndsNumber(text, comments, j);
    double := b < j;
    assert G.Parts(text, i, b, k, j);
  }

  // -------------------------------------------------------------------- values

  /** A character with which no value starts is rejected, but for the end of an array. */
  lemma ValueRejects(text: string, comments: bool, x: State)
    requires AtValue(text, comments, x) && Stops(text, comments, x.ptr)
    requires var b := CharAt(text, x.ptr);
             && b != '{' && b != '[' && b != '"' && b != 't' && b != 'f' && b != 'n' && !G.Digit(b) && b != '-'
             && (b == ']' ==> TopOf(x) != InArray)
    ensures Step(text, comments, true, x).Rejected?
  {
  }

  lemma WordRejects(text: string, comments: bool, x: State)
    requires AtValue(text, comments, x) && x.ptr < |text|
    requires var i := x.ptr;
             || (text[i] == 't' && !G.WordAt(text, i, i + 4, "true"))
             || (text[i] == 'f' && !G.WordAt(text, i, i + 5, "false"))
             || (text[i] == 'n' && !G.WordAt(text, i, i + 4, "null"))
    ensures Step(text, comments, true, x).Rejected?
  {
    var i := x.ptr;
    SpellsWord(text, i, "true");
    SpellsWord(text, i, "null");
    SpellsWord(text, i, "false");
  }

  lemma SpellsWord(text: string, i: nat, word: string)
    ensures i + |word| <= |text| && (forall k :: 0 <= k < |word| ==> word[k] == text[i + k]) ==>
              G.WordAt(text, i, i + |word|, word)
  {
  }

  /** What may follow a member. */
  lemma AfterMemberRejects(text: string, comments: bool, s: State, p: nat)
    requires Stops(text, comments, s.ptr) && s.top == Some(p) && p < |s.vals| && IsContainer(s.vals[p].ty)
    requires s.flags == (if s.vals[p].ty == Array then VALUE else NONE).(needComma := true)
    requires CharAt(text, s.ptr) != ',' && CharAt(text, s.ptr) != (if s.vals[p].ty == Array then ']' else '}')
    ensures Step(text, comments, true, s).Rejected?
  {
  }

  /** What may stand where a member name is expected. */
  lemma NameRejects(text: string, comments: bool, s: State, p: nat)
    requires Stops(text, comments, s.ptr) && Within(s, p, Object) && s.flags == NONE
    requires CharAt(text, s.ptr) != '"' && CharAt(text, s.ptr) != '}'
    ensures Step(text, comments, true, s).Rejected?
  {
  }

  lemma ColonRejects(text: string, comments: bool, s: State, p: nat)
    requires Stops(text, comments, s.ptr) && Within(s, p, Object) && s.flags == VALUE.(needColon := true)
    requires CharAt(text, s.ptr) != ':'
    ensures Step(text, comments, true, s).Rejected?
  {
  }

  lemma WordFound(text: string, comments: bool, x: State) returns (j: nat, t: G.Tree)
    requires AtValue(text, comments, x) && x.ptr < |text| && Accepting(text, comments, x)
    requires text[x.ptr] == 't' || text[x.ptr] == 'f' || text[x.ptr] == 'n'
    ensures G.ValueAt(text, comments, x.ptr, j, t)
  {
    hide Step, Accepting;
    AcceptingStep(text, comments, x);
    if !(text[x.ptr] == 't' && G.WordAt(text, x.ptr, x.ptr + 4, "true")) &&
       !(text[x.ptr] == 'f' && G.WordAt(text, x.ptr, x.ptr + 5, "false")) &&
       !(text[x.ptr] == 'n' && G.WordAt(text, x.ptr, x.ptr + 4, "null"))
    {
      WordRejects(text, comments, x);
    }
    j := x.ptr + if text[x.ptr] == 'f' then 5 else 4;
    t := if text[x.ptr] == 'n' then G.Null else G.Boolean;
  }

  lemma TextFound(text: string, comments: bool, x: State) returns (j: nat, n: nat)
    requires AtValue(text, comments, x) && x.ptr < |text| && Accepting(text, comments, x) && text[x.ptr] == '"'
    ensures G.StringAt(text, x.ptr, j, n)
  {
    hide Step, Accepting, G.Chars;
    OpenText(text, comments, x);
    AcceptingStep(text, comments, x);
    j, n := StringEnd(text, comments, Step(text, comments, true, x).s);
    j := j + 1;
  }

  lemma NumberFound(text: string, comments: bool, x: State) returns (j: nat, double: bool)
    requires AtValue(text, comments, x) && x.ptr < |text| && Accepting(text, comments, x)
    requires G.Digit(text[x.ptr]) || text[x.ptr] == '-'
    ensures x.ptr < j <= |text| && G.NumberAt(text, comments, x.ptr, j, double)
  {
    hide Step, Accepting, G.NumberAt, Wf, Opened;
    OpenNumber(text, comments, x);
    AcceptingStep(text, comments, x);
    StepWf(text, comments, x);
    var a := G.AfterSign(text, x.ptr);
    NumberOpened(x, a);
    OpenedParts(x, a, NONE, Integer);
    j, double := NumberEnd(text, comments, Opened(x, a, NONE, Integer).(num := NO_NUM), x.ptr);
  }

  /** A value at a place where pass 1 goes on to accept. */
  lemma {:induction false} ValueFound(text: string, comments: bool, x: State) returns (j: nat, t: G.Tree)
    requires AtValue(text, comments, x) && Accepting(text, comments, x) && Stops(text, comments, x.ptr)
    requires CharAt(text, x.ptr) == ']' ==> TopOf(x) != InArray
    ensures G.ValueAt(text, comments, x.ptr, j, t)
    decreases |text| - x.ptr, 0
  {
    hide Step, Accepting, Wf, G.StringAt, G.NumberAt, G.Items, G.Members;
    AcceptingStep(text, comments, x);
    var b := CharAt(text, x.ptr);
    if b == '"' {
      var n;
      j, n := TextFound(text, comments, x);
      t := G.Text(n);
      assert x.ptr < j <= |text| by { StringBounds(text, x.ptr, j, n); }
    } else if G.Digit(b) || b == '-' {
      var double;
      j, double := NumberFound(text, comments, x);
      t := G.Number(double);
    } else if b == 't' || b == 'f' || b == 'n' {
      j, t := WordFound(text, comments, x);
    } else if b == '[' {
      j, t := ArrayFound(text, comments, x);
    } else if b == '{' {
      j, t := ObjectFound(text, comments, x);
    } else {
      ValueRejects(text, comments, x);
    }
  }

  lemma StringBounds(text: string, i: nat, j: nat, n: nat)
    requires G.StringAt(text, i, j, n)
    ensures i + 2 <= j <= |text|
  {
  }

  lemma {:induction false} ArrayFound(text: string, comments: bool, x: State) returns (j: nat, t: G.Tree)
    requires AtValue(text, comments, x) && Accepting(text, comments, x) && x.ptr < |text| && text[x.ptr] == '['
    ensures G.ValueAt(text, comments, x.ptr, j, t)
    decreases |text| - x.ptr - 1, 4
  {
    hide Step, Accepting, Reach, Wf, G.Items;
    OpenArray(text, comments, x);
    AcceptingStep(text, comments, x);
    StepWf(text, comments, x);
    var items;
    j, items := ItemsFound(text, comments, Opened(x, x.ptr + 1, VALUE, Array), |x.vals|);
    j, t := j + 1, G.Array(items);
  }

  lemma {:induction false} ObjectFound(text: string, comments: bool, x: State) returns (j: nat, t: G.Tree)
    requires AtValue(text, comments, x) && Accepting(text, comments, x) && x.ptr < |text| && text[x.ptr] == '{'
    ensures G.ValueAt(text, comments, x.ptr, j, t)
    decreases |text| - x.ptr - 1, 4
  {
    hide Step, Accepting, Reach, Wf, G.Members;
    OpenObject(text, comments, x);
    AcceptingStep(text, comments, x);
    StepWf(text, comments, x);
    var names, values;
    j, names, values := MembersFound(text, comments, Opened(x, x.ptr + 1, NONE, Object), |x.vals|);
    j, t := j + 1, G.Object(names, values);
  }

  /** A value between fillers at a place where pass 1 goes on to accept; s.ptr is behind the
      first filler, y at the end of the second. */
  lemma {:induction false} ItemFound(text: string, comments: bool, s: State, p: nat)
    returns (b: nat, t: G.Tree, y: State)
    requires AtValue(text, comments, s) && Accepting(text, comments, s) && Stops(text, comments, s.ptr)
    requires s.top == Some(p) && p < |s.vals| && IsContainer(s.vals[p].ty)
    requires CharAt(text, s.ptr) == ']' ==> s.vals[p].ty == Object
    ensures s.ptr < b <= y.ptr <= |text| && G.ValueAt(text, comments, s.ptr, b, t) && G.Filler(text, comments, b, y.ptr)
    ensures Accepting(text, comments, y) && Wf(text, comments, y) && Stops(text, comments, y.ptr)
    ensures y.top == s.top && y.flags == (if s.vals[p].ty == Array then VALUE else NONE).(needComma := true)
    ensures p < |y.vals| && y.vals[p] == s.vals[p].(length := s.vals[p].length + 1)
    ensures s.vals[p].length + 1 <= LENGTH_LIMIT
    decreases |text| - s.ptr, 1
  {
    hide Step, Accepting, Reach, Next, Wf, G.Filler, G.ValueAt, Layout, Stops;
    b, t := ValueFound(text, comments, s);
    ValueBounds(text, comments, s.ptr, b, t);
    var u, m := ReadValue(text, comments, s, b, t);
    AcceptingReach(text, comments, s, u);
    AcceptingStep(text, comments, u);
    NextIs(text, comments, s, m, b, t);
    y := ReadNext(text, comments, s, u, m, b, t);
    AcceptingReach(text, comments, s, y);
    assert y.vals[p] == Longer(s.vals, p, 1)[p];
    StillTop(y, p);
    var k := FillerEnd(text, comments, y);
    y := SkipFiller(text, comments, y, k);
    FillerBounds(text, comments, b, k);
  }

  lemma ValueBounds(text: string, comments: bool, i: nat, j: nat, t: G.Tree)
    requires G.ValueAt(text, comments, i, j, t)
    ensures i < j <= |text|
  {
  }

  lemma FillerBounds(text: string, comments: bool, i: nat, j: nat)
    requires G.Filler(text, comments, i, j)
    ensures i <= j <= |text|
  {
  }

  /** One item and then the others. */
  lemma ItemsCons(text: string, comments: bool, i: nat, a: nat, b: nat, k: nat, t: G.Tree, j: nat, rest: seq<G.Tree>)
    requires i <= a < b <= k <= j <= |text|
    requires G.Filler(text, comments, i, a) && G.ValueAt(text, comments, a, b, t) && G.Filler(text, comments, b, k)
    requires if k == j then rest == [] else text[k] == ',' && G.Items(text, comments, k + 1, j, rest)
    ensures G.Items(text, comments, i, j, [t] + rest)
  {
    hide G.Filler, G.ValueAt;
    assert G.Item(text, comments, i, a, b, k, t);
    assert ([t] + rest)[1..] == rest && ([t] + rest)[0] == t;
  }

  lemma {:induction false} ItemsFound(text: string, comments: bool, s: State, p: nat)
    returns (j: nat, items: seq<G.Tree>)
    requires AtValue(text, comments, s) && Accepting(text, comments, s) && Within(s, p, Array)
    requires s.vals[p].length <= LENGTH_LIMIT
    ensures s.ptr <= j < |text| && text[j] == ']' && G.Items(text, comments, s.ptr, j, items)
    ensures s.vals[p].length + |items| <= LENGTH_LIMIT
    decreases |text| - s.ptr, 2
  {
    WfPtr(text, comments, s);
    StillTop(s, p);
    hide Step, Accepting, Reach, Next, Wf, G.Filler, G.ValueAt, G.Items, Stops, Between;
    var a := FillerEnd(text, comments, s);
    FillerBounds(text, comments, s.ptr, a);
    var x := SkipFiller(text, comments, s, a);
    if CharAt(text, a) == ']' {
      j, items := a, [];
      assert G.Items(text, comments, s.ptr, j, []) by { NoItems(text, comments, s.ptr, j); }
    } else {
      var b, t, y := ItemFound(text, comments, x, p);
      j, items := ItemsAfter(text, comments, s.ptr, a, b, t, y, p);
    }
  }

  /** The items from one that has been read on. */
  lemma {:induction false} ItemsAfter(text: string, comments: bool, i: nat, a: nat, b: nat, t: G.Tree, y: State, p: nat)
    returns (j: nat, items: seq<G.Tree>)
    requires i <= a < b <= y.ptr <= |text|
    requires G.Filler(text, comments, i, a) && G.ValueAt(text, comments, a, b, t) && G.Filler(text, comments, b, y.ptr)
    requires Accepting(text, comments, y) && Wf(text, comments, y) && Stops(text, comments, y.ptr)
    requires Within(y, p, Array) && y.flags == VALUE.(needComma := true) && 0 < y.vals[p].length <= LENGTH_LIMIT
    ensures y.ptr <= j < |text| && text[j] == ']' && G.Items(text, comments, i, j, items)
    ensures y.vals[p].length - 1 + |items| <= LENGTH_LIMIT
    decreases |text| - y.ptr, 0
  {
    hide Step, Accepting, Reach, Next, Wf, G.Filler, G.ValueAt, G.Items, Stops, Between;
    AcceptingStep(text, comments, y);
    var c := CharAt(text, y.ptr);
    if c != ',' && c != ']' { AfterMemberRejects(text, comments, y, p); }
    if c == ']' {
      j, items := y.ptr, [t];
      ItemsCons(text, comments, i, a, b, j, t, j, []);
      assert [t] + [] == [t];
    } else {
      CommaStep(text, comments, y);
      StepWf(text, comments, y);
      var rest;
      j, rest := ItemsFound(text, comments, Step(text, comments, true, y).s, p);
      ItemsCons(text, comments, i, a, b, y.ptr, t, j, rest);
      items := [t] + rest;
    }
  }

  lemma WfPtr(text: string, comments: bool, x: State)
    requires Wf(text, comments, x)
    ensures x.ptr <= |text|
  {
  }

  lemma NoItems(text: string, comments: bool, i: nat, j: nat)
    requires G.Filler(text, comments, i, j)
    ensures G.Items(text, comments, i, j, []) && G.Members(text, comments, i, j, [], [])
  {
    hide G.Filler;
  }

  /** A member name and its colon; the filler behind the colon is part of the next item. */
  lemma NameFound(text: string, comments: bool, s: State, p: nat) returns (b: nat, d: nat, n: nat)
    requires Wf(text, comments, s) && Accepting(text, comments, s) && Within(s, p, Object) && s.flags == NONE
    requires s.ptr < |text| && text[s.ptr] == '"'
    ensures s.ptr < b < d <= |text| && G.StringAt(text, s.ptr, b, n)
    ensures G.Filler(text, comments, b, d - 1) && text[d - 1] == ':'
  {
    hide Step, Accepting, Reach, Next, Wf, G.Filler, G.Chars, Stops;
    QuoteStep(text, comments, s, p);
    AcceptingStep(text, comments, s);
    var y := Step(text, comments, true, s).s;
    b, n := StringEnd(text, comments, y);
    var z := y.(ptr := b, strLen := n);
    NameEnds(text, comments, z, p);
    AcceptingStep(text, comments, z);
    y := Step(text, comments, true, z).s;
    b := b + 1;
    d := FillerEnd(text, comments, y);
    FillerBounds(text, comments, b, d);
    z := y.(ptr := d);
    AcceptingStep(text, comments, z);
    if CharAt(text, d) != ':' { ColonRejects(text, comments, z, p); }
    d := d + 1;
  }

  /** One member and then the others. */
  lemma MembersCons(text: string, comments: bool, i: nat, d: nat, k: nat, n: nat, t: G.Tree,
                    j: nat, names: seq<nat>, values: seq<G.Tree>)
    requires i < d <= k <= j <= |text| && |names| == |values| && G.MemberAt(text, comments, i, d, k, n, t)
    requires if k == j then values == [] else text[k] == ',' && G.Members(text, comments, k + 1, j, names, values)
    ensures G.Members(text, comments, i, j, [n] + names, [t] + values)
  {
    hide G.MemberAt;
    assert ([t] + values)[1..] == values && ([t] + values)[0] == t;
    assert ([n] + names)[1..] == names && ([n] + names)[0] == n;
  }

  /** One member at a place where pass 1 goes on to accept; y is behind the filler after it. */
  lemma {:induction false} MemberFound(text: string, comments: bool, s: State, p: nat, i: nat)
    returns (d: nat, n: nat, t: G.Tree, y: State)
    requires Wf(text, comments, s) && Accepting(text, comments, s) && Within(s, p, Object) && s.flags == NONE
    requires i <= s.ptr < |text| && text[s.ptr] == '"' && G.Filler(text, comments, i, s.ptr)
    ensures i < d <= y.ptr <= |text| && G.MemberAt(text, comments, i, d, y.ptr, n, t)
    ensures s.ptr < y.ptr
    ensures Accepting(text, comments, y) && Wf(text, comments, y) && Stops(text, comments, y.ptr)
    ensures y.top == s.top && y.flags == NONE.(needComma := true) && Within(y, p, Object)
    ensures y.vals[p].length == s.vals[p].length + 1 <= LENGTH_LIMIT
    decreases |text| - s.ptr, 1
  {
    hide Step, Accepting, Reach, Next, Wf, G.Filler, G.ValueAt, G.StringAt, Stops, Between;
    var b;
    b, d, n := NameFound(text, comments, s, p);
    assert G.NameAt(text, comments, i, s.ptr, b, d, n);
    FillerSelf(text, comments, s.ptr);
    assert G.NameAt(text, comments, s.ptr, s.ptr, b, d, n);
    var x := ReadName(text, comments, s, p, s.ptr, b, d, n);
    AcceptingReach(text, comments, s, x);
    StillTop(x, p);
    var e := FillerEnd(text, comments, x);
    FillerBounds(text, comments, d, e);
    var z := SkipFiller(text, comments, x, e);
    var f;
    f, t, y := ItemFound(text, comments, z, p);
    assert G.Item(text, comments, d, e, f, y.ptr, t);
  }

  lemma FillerSelf(text: string, comments: bool, i: nat)
    requires i <= |text|
    ensures G.Filler(text, comments, i, i)
  {
  }

  lemma {:induction false} MembersFound(text: string, comments: bool, s: State, p: nat)
    returns (j: nat, names: seq<nat>, values: seq<G.Tree>)
    requires Wf(text, comments, s) && Accepting(text, comments, s) && Within(s, p, Object) && s.flags == NONE
    requires s.vals[p].length <= LENGTH_LIMIT
    ensures s.ptr <= j < |text| && text[j] == '}' && G.Members(text, comments, s.ptr, j, names, values)
    ensures |names| == |values| && s.vals[p].length + |values| <= LENGTH_LIMIT
    decreases |text| - s.ptr, 2
  {
    WfPtr(text, comments, s);
    StillTop(s, p);
    hide Step, Accepting, Reach, Next, Wf, G.Filler, G.MemberAt, G.Members, Stops, Between;
    var a := FillerEnd(text, comments, s);
    FillerBounds(text, comments, s.ptr, a);
    var x := SkipFiller(text, comments, s, a);
    AcceptingStep(text, comments, x);
    if CharAt(text, a) != '"' && CharAt(text, a) != '}' { NameRejects(text, comments, x, p); }
    if CharAt(text, a) == '}' {
      j, names, values := a, [], [];
      assert G.Members(text, comments, s.ptr, j, [], []) by { NoItems(text, comments, s.ptr, j); }
    } else {
      var d, n, t, y := MemberFound(text, comments, x, p, s.ptr);
      j, names, values := MembersAfter(text, comments, s.ptr, d, n, t, y, p);
    }
  }

  /** The members from one that has been read on. */
  lemma {:induction false} MembersAfter(text: string, comments: bool, i: nat, d: nat, n: nat, t: G.Tree,
                                        y: State, p: nat)
    returns (j: nat, names: seq<nat>, values: seq<G.Tree>)
    requires i < d <= y.ptr <= |text| && G.MemberAt(text, comments, i, d, y.ptr, n, t)
    requires Accepting(text, comments, y) && Wf(text, comments, y) && Stops(text, comments, y.ptr)
    requires Within(y, p, Object) && y.flags == NONE.(needComma := true) && 0 < y.vals[p].length <= LENGTH_LIMIT
    ensures y.ptr <= j < |text| && text[j] == '}' && G.Members(text, comments, i, j, names, values)
    ensures |names| == |values| && y.vals[p].length - 1 + |values| <= LENGTH_LIMIT
    decreases |text| - y.ptr, 0
  {
    hide Step, Accepting, Reach, Next, Wf, G.Filler, G.MemberAt, G.Members, Stops, Between;
    AcceptingStep(text, comments, y);
    var c := CharAt(text, y.ptr);
    if c != ',' && c != '}' { AfterMemberRejects(text, comments, y, p); }
    if c == '}' {
      j, names, values := y.ptr, [n], [t];
      MembersCons(text, comments, i, d, j, n, t, j, [], []);
      assert [t] + [] == [t] && [n] + [] == [n];
    } else {
      CommaStep(text, comments, y);
      StepWf(text, comments, y);
      j, names, values := MembersFound(text, comments, Step(text, comments, true, y).s, p);
      MembersCons(text, comments, i, d, y.ptr, n, t, j, names, values);
      names, values := [n] + names, [t] + values;
    }
  }

  /** After the root only filler, up to the end of the text or a NUL. */
  lemma EndRejects(text: string, comments: bool, s: State)
    requires s.flags == DONE && Stops(text, comments, s.ptr) && CharAt(text, s.ptr) != '\0'
    ensures Step(text, comments, true, s).Rejected?
  {
  }

  /** Every text that pass 1 accepts is in the grammar. */
  lemma DocumentFound(text: string, comments: bool) returns (t: G.Tree)
    requires Accepting(text, comments, Start([]))
    ensures G.Document(text, comments, t)
  {
    var s := Start([]);
    assert Wf(text, comments, s) && s.flags == VALUE && Between(s) && TopOf(s) == NoTop;
    hide Step, Accepting, Reach, Next, Wf, Start, Stops, Between, G.Filler, G.ValueAt, Layout;
    var i := FillerEnd(text, comments, s);
    var x := SkipFiller(text, comments, s, i);
    var j;
    j, t := ValueFound(text, comments, x);
    var u, m := ReadValue(text, comments, x, j, t);
    AcceptingReach(text, comments, x, u);
    NextIs(text, comments, x, m, j, t);
    AcceptingStep(text, comments, u);
    var y := Step(text, comments, true, u).s;
    ValueBounds(text, comments, i, j, t);
    assert Between(y) by { DoneBetween(y); }
    var k := FillerEnd(text, comments, y);
    FillerBounds(text, comments, 0, i);
    FillerBounds(text, comments, j, k);
    var z := y.(ptr := k);
    AcceptingStep(text, comments, z);
    if CharAt(text, k) != '\0' { EndRejects(text, comments, z); }
    assert G.Item(text, comments, 0, i, j, k, t);
  }

  lemma DoneBetween(y: State)
    requires y.flags == DONE
    ensures Between(y)
  {
  }
}
