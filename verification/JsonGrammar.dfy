/** The texts that src/utils/json.c accepts, as a grammar on positions of the text, with the
    tree a text denotes. Wider than JSON: a trailing comma may precede a closing bracket, any
    character may be escaped, a minus sign alone or right before an exponent is a number, and
    the text ends at its first NUL outside strings and comments. */
module JsonGrammar {

  /** The most bytes in a string and the most members in a container: UINT_MAX - 8. */
  const MOST: nat := 4294967287

  /** What a text denotes: strings with their length in bytes, objects with the lengths of
      their member names. */
  datatype Tree =
    | Text(bytes: nat)
    | Number(double: bool)
    | Boolean
    | Null
    | Array(items: seq<Tree>)
    | Object(names: seq<nat>, values: seq<Tree>)

  // -------------------------------------------------------- between the tokens

  predicate Space(c: char) { c == ' ' || c == '\t' || c == '\n' || c == '\r' }

  /** From two slashes up to, not including, the end of the line or text. */
  predicate LineComment(text: string, i: nat, j: nat) {
    && i + 2 <= j <= |text| && text[i] == '/' && text[i + 1] == '/'
    && (forall p :: i + 2 <= p < j ==> text[p] != '\n' && text[p] != '\r' && text[p] != '\0')
    && (j < |text| ==> text[j] == '\n' || text[j] == '\r' || text[j] == '\0')
  }

  predicate ClosesComment(text: string, p: nat) {
    p + 1 < |text| && text[p] == '*' && text[p + 1] == '/'
  }

  /** Up to the first asterisk and slash after the opening ones. */
  predicate BlockComment(text: string, i: nat, j: nat) {
    && i + 4 <= j <= |text| && text[i] == '/' && text[i + 1] == '*' && ClosesComment(text, j - 2)
    && forall p :: i + 2 <= p < j - 2 ==> text[p] != '\0' && !ClosesComment(text, p)
  }

  predicate Blank(text: string, comments: bool, i: nat, j: nat) {
    || (i < |text| && j == i + 1 && Space(text[i]))
    || (comments && (LineComment(text, i, j) || BlockComment(text, i, j)))
  }

  /** Any number of spaces and, if enabled, comments. */
  ghost predicate Filler(text: string, comments: bool, i: nat, j: nat)
    decreases j - i
  {
    i <= j <= |text| &&
    (i == j || exists k :: i < k <= j && Blank(text, comments, i, k) && Filler(text, comments, k, j))
  }

  // ------------------------------------------------------------------- strings

  function HexDigit(c: char): int {
    if '0' <= c <= '9' then c as int - '0' as int
    else if 'a' <= c <= 'f' then c as int - 'a' as int + 10
    else if 'A' <= c <= 'F' then c as int - 'A' as int + 10
    else -1
  }

  /** Backslash, u, and four hexadecimal digits. */
  predicate CodeUnit(text: string, i: nat) {
    && i + 6 <= |text| && text[i] == '\\' && text[i + 1] == 'u'
    && forall p :: i + 2 <= p < i + 6 ==> HexDigit(text[p]) >= 0
  }

  function Code(text: string, i: nat): nat
    requires CodeUnit(text, i)
  {
    HexDigit(text[i + 2]) * 0x1000 + HexDigit(text[i + 3]) * 0x100 + HexDigit(text[i + 4]) * 0x10
    + HexDigit(text[i + 5])
  }

  predicate Surrogate(code: nat) { 0xD800 <= code <= 0xDFFF }

  /** The bytes of the UTF-8 encoding. */
  function Utf8Bytes(code: nat): nat {
    if code < 0x80 then 1 else if code < 0x800 then 2 else if code < 0x10000 then 3 else 4
  }

  /** One character of a string, which takes up w bytes. A surrogate, high or low, must be
      followed by another escape. */
  predicate Unit(text: string, i: nat, j: nat, w: nat) {
    || (i < |text| && j == i + 1 && w == 1 && text[i] != '"' && text[i] != '\\' && text[i] != '\0')
    || (i + 1 < |text| && j == i + 2 && w == 1 && text[i] == '\\' && text[i + 1] != 'u' && text[i + 1] != '\0')
    || (j == i + 6 && CodeUnit(text, i) && !Surrogate(Code(text, i)) && w == Utf8Bytes(Code(text, i)))
    || (j == i + 12 && w == 4 && CodeUnit(text, i) && Surrogate(Code(text, i)) && CodeUnit(text, i + 6))
  }

  ghost predicate Chars(text: string, i: nat, j: nat, n: nat)
    decreases j - i
  {
    i <= j <= |text| &&
    if i == j then n == 0
    else exists k: nat, w: nat :: i < k <= j && w <= n && Unit(text, i, k, w) && Chars(text, k, j, n - w)
  }

  /** A string of n bytes with its quotes. */
  ghost predicate StringAt(text: string, i: nat, j: nat, n: nat) {
    i + 2 <= j <= |text| && text[i] == '"' && text[j - 1] == '"' && Chars(text, i + 1, j - 1, n) && n <= MOST
  }

  // ------------------------------------------------------------------- numbers

  predicate Digit(c: char) { '0' <= c <= '9' }

  predicate Digits(text: string, i: nat, j: nat) {
    i <= j <= |text| && forall p :: i <= p < j ==> Digit(text[p])
  }

  function AfterSign(text: string, i: nat): nat {
    if i < |text| && text[i] == '-' then i + 1 else i
  }

  /** No digit at all only after a minus sign; no zero before other digits. */
  predicate Whole(text: string, i: nat, b: nat) {
    var a := AfterSign(text, i);
    && Digits(text, a, b) && (b == a ==> a > i)
    && (b > a + 1 ==> text[a] != '0')
  }

  /** Nothing, or a point between digits. */
  predicate Fraction(text: string, i: nat, b: nat, k: nat) {
    k == b || (b > AfterSign(text, i) && b + 1 < k && b < |text| && text[b] == '.' && Digits(text, b + 1, k))
  }

  function AfterExpSign(text: string, k: nat): nat {
    if k + 1 < |text| && (text[k + 1] == '+' || text[k + 1] == '-') then k + 2 else k + 1
  }

  predicate Exponent(text: string, k: nat, j: nat) {
    j == k || (k < |text| && (text[k] == 'e' || text[k] == 'E') && AfterExpSign(text, k) < j
               && Digits(text, AfterExpSign(text, k), j))
  }

  /** A number ends where none of its characters follows; with comments on, no slash may follow
      either. */
  predicate EndsNumber(text: string, comments: bool, j: nat) {
    j < |text| ==>
      && !Digit(text[j]) && text[j] != '+' && text[j] != '-' && text[j] != '.' && text[j] != 'e' && text[j] != 'E'
      && !(comments && text[j] == '/')
  }

  predicate Parts(text: string, i: nat, b: nat, k: nat, j: nat) {
    i <= b <= k <= j <= |text| && i < j && Whole(text, i, b) && Fraction(text, i, b, k) && Exponent(text, k, j)
  }

  ghost predicate NumberAt(text: string, comments: bool, i: nat, j: nat, double: bool) {
    EndsNumber(text, comments, j) && exists b: nat, k: nat :: Parts(text, i, b, k, j) && (double <==> b < j)
  }

  // -------------------------------------------------------------------- values

  predicate WordAt(text: string, i: nat, j: nat, word: string) {
    i <= j <= |text| && text[i..j] == word
  }

  ghost predicate ValueAt(text: string, comments: bool, i: nat, j: nat, t: Tree)
    decreases j - i, 0
  {
    i < j <= |text| &&
    match t
    case Text(n) => StringAt(text, i, j, n)
    case Number(double) => NumberAt(text, comments, i, j, double)
    case Boolean => WordAt(text, i, j, "true") || WordAt(text, i, j, "false")
    case Null => WordAt(text, i, j, "null")
    case Array(items) =>
      && i + 2 <= j && text[i] == '[' && text[j - 1] == ']' && |items| <= MOST
      && Items(text, comments, i + 1, j - 1, items)
    case Object(names, values) =>
      && i + 2 <= j && text[i] == '{' && text[j - 1] == '}' && |values| <= MOST
      && Members(text, comments, i + 1, j - 1, names, values)
  }

  /** A value between fillers. */
  ghost predicate Item(text: string, comments: bool, i: nat, a: nat, b: nat, k: nat, t: Tree)
    decreases k - i, 1
  {
    i <= a < b <= k && Filler(text, comments, i, a) && ValueAt(text, comments, a, b, t) && Filler(text, comments, b, k)
  }

  /** Items separated by commas; one more comma may follow the last. */
  ghost predicate Items(text: string, comments: bool, i: nat, j: nat, items: seq<Tree>)
    decreases j - i, 2
  {
    if items == [] then Filler(text, comments, i, j)
    else
      i <= j <= |text| &&
      exists a, b, k :: i <= a < b <= k <= j && Item(text, comments, i, a, b, k, items[0]) &&
        if k == j then |items| == 1
        else text[k] == ',' && Items(text, comments, k + 1, j, items[1..])
  }

  /** A member name and its colon, which is the last character before d. */
  ghost predicate NameAt(text: string, comments: bool, i: nat, a: nat, b: nat, d: nat, n: nat) {
    && i <= a < b < d <= |text| && Filler(text, comments, i, a) && StringAt(text, a, b, n)
    && Filler(text, comments, b, d - 1) && text[d - 1] == ':'
  }

  /** A name, its colon, which is the last character before d, and a value between fillers. */
  ghost predicate MemberAt(text: string, comments: bool, i: nat, d: nat, k: nat, n: nat, t: Tree)
    decreases k - i, 1
  {
    && i < d <= k
    && (exists a: nat, b: nat :: NameAt(text, comments, i, a, b, d, n))
    && (exists e: nat, f: nat :: Item(text, comments, d, e, f, k, t))
  }

  /** Members separated by commas; one more comma may follow the last. */
  ghost predicate Members(text: string, comments: bool, i: nat, j: nat, names: seq<nat>, values: seq<Tree>)
    decreases j - i, 2
  {
    |names| == |values| &&
    if values == [] then Filler(text, comments, i, j)
    else
      i <= j <= |text| &&
      exists d, k :: i < d <= k <= j && MemberAt(text, comments, i, d, k, names[0], values[0]) &&
        if k == j then |values| == 1
        else text[k] == ',' && Members(text, comments, k + 1, j, names[1..], values[1..])
  }

  /** A whole text: one value between fillers, up to the end or a NUL. */
  ghost predicate Document(text: string, comments: bool, t: Tree) {
    exists i: nat, j: nat, k: nat ::
      Item(text, comments, 0, i, j, k, t) && k <= |text| && (k < |text| ==> text[k] == '\0')
  }
}
