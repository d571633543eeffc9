/** MD5 (src/md5.c): the block operation as the source spells it out, the streaming interface,
    and RFC 1321 as the reference. */
module Md5 {
  type Byte = bv8

  datatype Digest = Digest(a: bv32, b: bv32, c: bv32, d: bv32)

  const INIT := Digest(0x67452301, 0xefcdab89, 0x98badcfe, 0x10325476)

  // ------------------------------------------------- RFC 1321, section 3.4

  /** The operations of one block: four rounds of sixteen. */
  const OPERATIONS: nat := 64

  function F(x: bv32, y: bv32, z: bv32): bv32 { (x & y) | (!x & z) }
  function G(x: bv32, y: bv32, z: bv32): bv32 { (x & z) | (y & !z) }
  function H(x: bv32, y: bv32, z: bv32): bv32 { x ^ y ^ z }
  function I(x: bv32, y: bv32, z: bv32): bv32 { y ^ (x | !z) }

  /** The function of each round. */
  function Fun(round: nat, x: bv32, y: bv32, z: bv32): bv32 {
    if round == 0 then F(x, y, z) else if round == 1 then G(x, y, z) else if round == 2 then H(x, y, z) else I(x, y, z)
  }

  function Up(x: bv32, n: bv32): bv32
    requires n < 32
  {
    x << n
  }

  function Down(x: bv32, n: bv32): bv32
    requires n < 32
  {
    x >> n
  }

  function Or(x: bv32, y: bv32): bv32 { x | y }

  /** x <<< n, a circular shift. */
  function Rotl(x: bv32, n: bv32): bv32
    requires 0 < n < 32
  {
    Or(Up(x, n), Down(x, 32 - n))
  }

  /** Bit k, the low-order one being bit 0. */
  predicate Bit(x: bv32, k: bv32)
    requires k < 32
  {
    (x >> k) & 1 == 1
  }

  lemma FFormula(x: bv32, y: bv32, z: bv32, k: bv32)
    requires k < 32
    ensures Bit((x & y) | (!x & z), k) == if Bit(x, k) then Bit(y, k) else Bit(z, k)
  {
  }

  lemma HFormula(x: bv32, y: bv32, z: bv32, k: bv32)
    requires k < 32
    ensures Bit(x ^ y ^ z, k) == ((Bit(x, k) != Bit(y, k)) != Bit(z, k))
  {
  }

  lemma GFormula(x: bv32, y: bv32, z: bv32, k: bv32)
    requires k < 32
    ensures Bit((x & z) | (y & !z), k) == if Bit(z, k) then Bit(x, k) else Bit(y, k)
  {
  }

  lemma IFormula(x: bv32, y: bv32, z: bv32, k: bv32)
    requires k < 32
    ensures Bit(y ^ (x | !z), k) == (Bit(y, k) != (Bit(x, k) || !Bit(z, k)))
  {
  }

  /** If x then y else z. */
  lemma FBits(x: bv32, y: bv32, z: bv32, k: bv32)
    requires k < 32
    ensures Bit(F(x, y, z), k) == if Bit(x, k) then Bit(y, k) else Bit(z, k)
  {
    FFormula(x, y, z, k);
  }

  /** If z then x else y. */
  lemma GBits(x: bv32, y: bv32, z: bv32, k: bv32)
    requires k < 32
    ensures Bit(G(x, y, z), k) == if Bit(z, k) then Bit(x, k) else Bit(y, k)
  {
    GFormula(x, y, z, k);
  }

  /** The parity. */
  lemma HBits(x: bv32, y: bv32, z: bv32, k: bv32)
    requires k < 32
    ensures Bit(H(x, y, z), k) == ((Bit(x, k) != Bit(y, k)) != Bit(z, k))
  {
    HFormula(x, y, z, k);
  }

  /** y, inverted where x is set or z is not. */
  lemma IBits(x: bv32, y: bv32, z: bv32, k: bv32)
    requires k < 32
    ensures Bit(I(x, y, z), k) == (Bit(y, k) != (Bit(x, k) || !Bit(z, k)))
  {
    IFormula(x, y, z, k);
  }

  lemma UpFormula(x: bv32, n: bv32, k: bv32)
    requires 0 < n < 32 && k < 32
    ensures Bit(x << n, k) == (k >= n && Bit(x, k - n))
  {
  }

  lemma DownFormula(x: bv32, n: bv32, k: bv32)
    requires 0 < n < 32 && k < 32
    ensures Bit(x >> n, k) == (n + k < 32 && Bit(x, k + n))
  {
  }

  lemma OrFormula(x: bv32, y: bv32, k: bv32)
    requires k < 32
    ensures Bit(x | y, k) == (Bit(x, k) || Bit(y, k))
  {
  }

  lemma UpBits(x: bv32, n: bv32, k: bv32)
    requires 0 < n < 32 && k < 32
    ensures Bit(Up(x, n), k) == (k >= n && Bit(x, k - n))
  {
    UpFormula(x, n, k);
  }

  lemma DownBits(x: bv32, n: bv32, k: bv32)
    requires 0 < n < 32 && k < 32
    ensures Bit(Down(x, n), k) == (n + k < 32 && Bit(x, k + n))
  {
    DownFormula(x, n, k);
  }

  lemma OrBits(x: bv32, y: bv32, k: bv32)
    requires k < 32
    ensures Bit(Or(x, y), k) == (Bit(x, k) || Bit(y, k))
  {
    OrFormula(x, y, k);
  }

  /** A rotation moves every bit n places up, round the end. */
  lemma RotlBits(x: bv32, n: bv32, k: bv32)
    requires 0 < n < 32 && k < 32
    ensures Bit(Rotl(x, n), k) == if k < n then Bit(x, k + (32 - n)) else Bit(x, k - n)
  {
    hide Bit, Up, Down, Or;
    UpBits(x, n, k);
    DownBits(x, 32 - n, k);
    OrBits(Up(x, n), Down(x, 32 - n), k);
  }

  /** Byte k of a word, low-order byte first. */
  function Octet(w: bv32, k: nat): Byte
    requires k < 4
  {
    if k == 0 then (w & 0xFF) as bv8
    else if k == 1 then ((w >> 8) & 0xFF) as bv8
    else if k == 2 then ((w >> 16) & 0xFF) as bv8
    else ((w >> 24) & 0xFF) as bv8
  }

  /** Bit j of byte k is bit 8 k + j of the word. */
  lemma OctetBits(w: bv32, j: bv32)
    requires j < 8
    ensures Bit(Octet(w, 0) as bv32, j) == Bit(w, j) && Bit(Octet(w, 1) as bv32, j) == Bit(w, j + 8)
    ensures Bit(Octet(w, 2) as bv32, j) == Bit(w, j + 16) && Bit(Octet(w, 3) as bv32, j) == Bit(w, j + 24)
  {
  }

  /** The bytes of a word are those of the block. */
  lemma WordOctets(block: seq<Byte>, k: nat, j: nat)
    requires |block| == 64 && k < 16 && j < 4
    ensures Octet(Word(block, k), j) == block[4 * k + j]
  {
    hide Octet;
    OctetsOf(block[4 * k], block[4 * k + 1], block[4 * k + 2], block[4 * k + 3]);
    assert j == 0 || j == 1 || j == 2 || j == 3;
  }

  lemma OctetsOf(p: Byte, q: Byte, r: Byte, s: Byte)
    ensures var w := (p as bv32) | ((q as bv32) << 8) | ((r as bv32) << 16) | ((s as bv32) << 24);
            Octet(w, 0) == p && Octet(w, 1) == q && Octet(w, 2) == r && Octet(w, 3) == s
  {
  }

  /** Section 3.3: the registers start as these bytes, low-order byte first. */
  lemma InitOctets()
    ensures Octet(INIT.a, 0) == 0x01 && Octet(INIT.a, 1) == 0x23 && Octet(INIT.a, 2) == 0x45 && Octet(INIT.a, 3) == 0x67
    ensures Octet(INIT.b, 0) == 0x89 && Octet(INIT.b, 1) == 0xab && Octet(INIT.b, 2) == 0xcd && Octet(INIT.b, 3) == 0xef
    ensures Octet(INIT.c, 0) == 0xfe && Octet(INIT.c, 1) == 0xdc && Octet(INIT.c, 2) == 0xba && Octet(INIT.c, 3) == 0x98
    ensures Octet(INIT.d, 0) == 0x76 && Octet(INIT.d, 1) == 0x54 && Octet(INIT.d, 2) == 0x32 && Octet(INIT.d, 3) == 0x10
  {
  }

  function Plus(a: bv32, b: bv32): bv32 { a + b }

  function Sum(a: bv32, f: bv32, x: bv32, t: bv32): bv32 { a + f + x + t }

  /** b + ((a + f(b,c,d) + x + t) <<< s) */
  function Mix(round: nat, a: bv32, b: bv32, c: bv32, d: bv32, x: bv32, s: bv32, t: bv32): bv32
    requires 0 < s < 32
  {
    Plus(Rotl(Sum(a, Fun(round, b, c, d), x, t), s), b)
  }

  /** The integer part of 4294967296 * abs(sin(i + 1)). */
  function Table(i: nat): bv32 {
    match i / 16
    case 0 => Table1(i % 16)
    case 1 => Table2(i % 16)
    case 2 => Table3(i % 16)
    case _ => Table4(i % 16)
  }

  function Table1(k: nat): bv32 {
    match k
    case 0 => 0xd76aa478
    case 1 => 0xe8c7b756
    case 2 => 0x242070db
    case 3 => 0xc1bdceee
    case 4 => 0xf57c0faf
    case 5 => 0x4787c62a
    case 6 => 0xa8304613
    case 7 => 0xfd469501
    case 8 => 0x698098d8
    case 9 => 0x8b44f7af
    case 10 => 0xffff5bb1
    case 11 => 0x895cd7be
    case 12 => 0x6b901122
    case 13 => 0xfd987193
    case 14 => 0xa679438e
    case _ => 0x49b40821
  }

  function Table2(k: nat): bv32 {
    match k
    case 0 => 0xf61e2562
    case 1 => 0xc040b340
    case 2 => 0x265e5a51
    case 3 => 0xe9b6c7aa
    case 4 => 0xd62f105d
    case 5 => 0x02441453
    case 6 => 0xd8a1e681
    case 7 => 0xe7d3fbc8
    case 8 => 0x21e1cde6
    case 9 => 0xc33707d6
    case 10 => 0xf4d50d87
    case 11 => 0x455a14ed
    case 12 => 0xa9e3e905
    case 13 => 0xfcefa3f8
    case 14 => 0x676f02d9
    case _ => 0x8d2a4c8a
  }

  function Table3(k: nat): bv32 {
    match k
    case 0 => 0xfffa3942
    case 1 => 0x8771f681
    case 2 => 0x6d9d6122
    case 3 => 0xfde5380c
    case 4 => 0xa4beea44
    case 5 => 0x4bdecfa9
    case 6 => 0xf6bb4b60
    case 7 => 0xbebfbc70
    case 8 => 0x289b7ec6
    case 9 => 0xeaa127fa
    case 10 => 0xd4ef3085
    case 11 => 0x04881d05
    case 12 => 0xd9d4d039
    case 13 => 0xe6db99e5
    case 14 => 0x1fa27cf8
    case _ => 0xc4ac5665
  }

  function Table4(k: nat): bv32 {
    match k
    case 0 => 0xf4292244
    case 1 => 0x432aff97
    case 2 => 0xab9423a7
    case 3 => 0xfc93a039
    case 4 => 0x655b59c3
    case 5 => 0x8f0ccc92
    case 6 => 0xffeff47d
    case 7 => 0x85845dd1
    case 8 => 0x6fa87e4f
    case 9 => 0xfe2ce6e0
    case 10 => 0xa3014314
    case 11 => 0x4e0811a1
    case 12 => 0xf7537e82
    case 13 => 0xbd3af235
    case 14 => 0x2ad7d2bb
    case _ => 0xeb86d391
  }

  /** The word of the block used in operation i. */
  function Index(i: nat): (k: nat)
    ensures k < 16
  {
    var k := i % 16;
    match i / 16
    case 0 => k
    case 1 => (5 * k + 1) % 16
    case 2 => (3 * k + 5) % 16
    case _ => 7 * k % 16
  }

  /** The rotation of operation i. */
  function Shift(i: nat): (s: bv32)
    ensures 0 < s < 32
  {
    match (i / 16, i % 4)
    case (0, 0) => 7 case (0, 1) => 12 case (0, 2) => 17 case (0, _) => 22
    case (1, 0) => 5 case (1, 1) => 9 case (1, 2) => 14 case (1, _) => 20
    case (2, 0) => 4 case (2, 1) => 11 case (2, 2) => 16 case (2, _) => 23
    case (_, 0) => 6 case (_, 1) => 10 case (_, 2) => 15 case (_, _) => 21
  }

  /** Word k of a block, low-order byte first (section 2). */
  function Word(block: seq<Byte>, k: nat): bv32
    requires |block| == 64 && k < 16
  {
    (block[4 * k] as bv32) | ((block[4 * k + 1] as bv32) << 8) |
    ((block[4 * k + 2] as bv32) << 16) | ((block[4 * k + 3] as bv32) << 24)
  }

  /** The value operation i computes. */
  function Value(i: nat, a: bv32, b: bv32, c: bv32, d: bv32, block: seq<Byte>): bv32
    requires |block| == 64
  {
    Mix(i / 16, a, b, c, d, Word(block, Index(i)), Shift(i), Table(i))
  }

  /** Operation i, with the registers renamed so that the one just computed is b. */
  function Operation(i: nat, r: Digest, block: seq<Byte>): Digest
    requires |block| == 64 && i < 64
  {
    Digest(r.d, Value(i, r.a, r.b, r.c, r.d, block), r.b, r.c)
  }

  function Operations(n: nat, r: Digest, block: seq<Byte>): Digest
    requires |block| == 64 && n <= OPERATIONS
  {
    if n == 0 then r else Operation(n - 1, Operations(n - 1, r, block), block)
  }

  /** Each register is incremented by the value it had before the block. */
  function Add(r: Digest, o: Digest): Digest { Digest(r.a + o.a, r.b + o.b, r.c + o.c, r.d + o.d) }

  /** One block of the digest computation. */
  function Process(r: Digest, block: seq<Byte>): Digest
    requires |block| == 64
  {
    var o := Operations(OPERATIONS, r, block);
    Add(r, o)
  }

  // ------------------------------------------------- md5_process

  /** The macros F, G, H and I of the source, one per round. */
  function Macro(round: nat, x: bv32, y: bv32, z: bv32): bv32 {
    if round == 0 then (x & y) | (!x & z)
    else if round == 1 then (x & z) | (y & !z)
    else if round == 2 then x ^ y ^ z
    else y ^ (x | !z)
  }

  /** ROTATE_LEFT */
  function RotateLeft(x: bv32, n: bv32): bv32
    requires 0 < n < 32
  {
    (x << n) | (x >> (32 - n))
  }

  /** X[k], as computed on machines of any byte order. */
  function X(block: seq<Byte>, k: nat): bv32
    requires |block| == 64 && k < 16
  {
    (block[4 * k] as bv32) + ((block[4 * k + 1] as bv32) << 8) +
    ((block[4 * k + 2] as bv32) << 16) + ((block[4 * k + 3] as bv32) << 24)
  }

  /** One line SET(a, b, c, d, k, s, Ti) of the source. */
  function Set(round: nat, a: bv32, b: bv32, c: bv32, d: bv32, block: seq<Byte>, k: nat, s: bv32, t: bv32): bv32
    requires |block| == 64 && k < 16 && 0 < s < 32
  {
    Plus(RotateLeft(Sum(a, Macro(round, b, c, d), X(block, k), t), s), b)
  }

  lemma XIsWord(block: seq<Byte>, k: nat)
    requires |block| == 64 && k < 16
    ensures X(block, k) == Word(block, k)
  {
    SumIsOr(block[4 * k], block[4 * k + 1], block[4 * k + 2], block[4 * k + 3]);
  }

  lemma SumIsOr(p: Byte, q: Byte, r: Byte, s: Byte)
    ensures (p as bv32) + ((q as bv32) << 8) + ((r as bv32) << 16) + ((s as bv32) << 24)
         == (p as bv32) | ((q as bv32) << 8) | ((r as bv32) << 16) | ((s as bv32) << 24)
  {
  }

  lemma SetIsMix(round: nat, a: bv32, b: bv32, c: bv32, d: bv32, block: seq<Byte>, k: nat, s: bv32, t: bv32)
    requires |block| == 64 && k < 16 && 0 < s < 32
    ensures Set(round, a, b, c, d, block, k, s, t) == Mix(round, a, b, c, d, Word(block, k), s, t)
  {
    hide X, Word, Macro, Fun, RotateLeft, Rotl, Sum, Plus;
    XIsWord(block, k);
    MacroIsFun(round, b, c, d);
    RotationIs(Sum(a, Fun(round, b, c, d), Word(block, k), t), s);
  }

  lemma MacroIsFun(round: nat, x: bv32, y: bv32, z: bv32)
    ensures Macro(round, x, y, z) == Fun(round, x, y, z)
  {
    if round == 0 {
      assert Macro(0, x, y, z) == F(x, y, z);
    } else if round == 1 {
      assert Macro(1, x, y, z) == G(x, y, z);
    } else if round == 2 {
      assert Macro(2, x, y, z) == H(x, y, z);
    } else {
      assert Macro(round, x, y, z) == I(x, y, z);
    }
  }

  lemma RotationIs(x: bv32, n: bv32)
    requires 0 < n < 32
    ensures RotateLeft(x, n) == Rotl(x, n)
  {
  }

  /** One more operation: the register names move on by one. */
  lemma One(i: nat, r: Digest, start: Digest, block: seq<Byte>)
    requires |block| == 64 && i < 64 && r == Operations(i, start, block)
    ensures Operations(i + 1, start, block) ==
            Digest(r.d, Set(i / 16, r.a, r.b, r.c, r.d, block, Index(i), Shift(i), Table(i)), r.b, r.c)
  {
    hide Mix, Word, Index, Shift, Table, Set;
    SetIsMix(i / 16, r.a, r.b, r.c, r.d, block, Index(i), Shift(i), Table(i));
  }

  /** The constants of round 1 are those of the tables. */
  lemma Rows1a()
    ensures Index(0) == 0 && Shift(0) == 7 && Table(0) == 0xFFFF_FFFF ^ 0x28955b87
    ensures Index(1) == 1 && Shift(1) == 12 && Table(1) == 0xFFFF_FFFF ^ 0x173848a9
    ensures Index(2) == 2 && Shift(2) == 17 && Table(2) == 0x242070db
    ensures Index(3) == 3 && Shift(3) == 22 && Table(3) == 0xFFFF_FFFF ^ 0x3e423111
  {
  }

  lemma Rows1b()
    ensures Index(4) == 4 && Shift(4) == 7 && Table(4) == 0xFFFF_FFFF ^ 0x0a83f050
    ensures Index(5) == 5 && Shift(5) == 12 && Table(5) == 0x4787c62a
    ensures Index(6) == 6 && Shift(6) == 17 && Table(6) == 0xFFFF_FFFF ^ 0x57cfb9ec
    ensures Index(7) == 7 && Shift(7) == 22 && Table(7) == 0xFFFF_FFFF ^ 0x02b96afe
  {
  }

  lemma Rows1c()
    ensures Index(8) == 8 && Shift(8) == 7 && Table(8) == 0x698098d8
    ensures Index(9) == 9 && Shift(9) == 12 && Table(9) == 0xFFFF_FFFF ^ 0x74bb0850
    ensures Index(10) == 10 && Shift(10) == 17 && Table(10) == 0xFFFF_FFFF ^ 0x0000a44e
    ensures Index(11) == 11 && Shift(11) == 22 && Table(11) == 0xFFFF_FFFF ^ 0x76a32841
  {
  }

  lemma Rows1d()
    ensures Index(12) == 12 && Shift(12) == 7 && Table(12) == 0x6b901122
    ensures Index(13) == 13 && Shift(13) == 12 && Table(13) == 0xFFFF_FFFF ^ 0x02678e6c
    ensures Index(14) == 14 && Shift(14) == 17 && Table(14) == 0xFFFF_FFFF ^ 0x5986bc71
    ensures Index(15) == 15 && Shift(15) == 22 && Table(15) == 0x49b40821
  {
  }

  /** Round 1 of md5_process. */
  method Round1(r: Digest, block: seq<Byte>, ghost start: Digest, ghost n: nat) returns (o: Digest)
    requires |block| == 64 && n == 0 && r == Operations(n, start, block)
    ensures o == Operations(n + 16, start, block)
  {
    hide *;
    Rows1a();
    Rows1b();
    Rows1c();
    Rows1d();
    var a, b, c, d := r.a, r.b, r.c, r.d;
    ghost var st := r;
    One(n + 0, st, start, block);
    a := Set(0, a, b, c, d, block, 0, 7, 0xFFFF_FFFF ^ 0x28955b87);
    st := Digest(st.d, a, st.b, st.c);
    One(n + 1, st, start, block);
    d := Set(0, d, a, b, c, block, 1, 12, 0xFFFF_FFFF ^ 0x173848a9);
    st := Digest(st.d, d, st.b, st.c);
    One(n + 2, st, start, block);
    c := Set(0, c, d, a, b, block, 2, 17, 0x242070db);
    st := Digest(st.d, c, st.b, st.c);
    One(n + 3, st, start, block);
    b := Set(0, b, c, d, a, block, 3, 22, 0xFFFF_FFFF ^ 0x3e423111);
    st := Digest(st.d, b, st.b, st.c);
    One(n + 4, st, start, block);
    a := Set(0, a, b, c, d, block, 4, 7, 0xFFFF_FFFF ^ 0x0a83f050);
    st := Digest(st.d, a, st.b, st.c);
    One(n + 5, st, start, block);
    d := Set(0, d, a, b, c, block, 5, 12, 0x4787c62a);
    st := Digest(st.d, d, st.b, st.c);
    One(n + 6, st, start, block);
    c := Set(0, c, d, a, b, block, 6, 17, 0xFFFF_FFFF ^ 0x57cfb9ec);
    st := Digest(st.d, c, st.b, st.c);
    One(n + 7, st, start, block);
    b := Set(0, b, c, d, a, block, 7, 22, 0xFFFF_FFFF ^ 0x02b96afe);
    st := Digest(st.d, b, st.b, st.c);
    One(n + 8, st, start, block);
    a := Set(0, a, b, c, d, block, 8, 7, 0x698098d8);
    st := Digest(st.d, a, st.b, st.c);
    One(n + 9, st, start, block);
    d := Set(0, d, a, b, c, block, 9, 12, 0xFFFF_FFFF ^ 0x74bb0850);
    st := Digest(st.d, d, st.b, st.c);
    One(n + 10, st, start, block);
    c := Set(0, c, d, a, b, block, 10, 17, 0xFFFF_FFFF ^ 0x0000a44e);
    st := Digest(st.d, c, st.b, st.c);
    One(n + 11, st, start, block);
    b := Set(0, b, c, d, a, block, 11, 22, 0xFFFF_FFFF ^ 0x76a32841);
    st := Digest(st.d, b, st.b, st.c);
    One(n + 12, st, start, block);
    a := Set(0, a, b, c, d, block, 12, 7, 0x6b901122);
    st := Digest(st.d, a, st.b, st.c);
    One(n + 13, st, start, block);
    d := Set(0, d, a, b, c, block, 13, 12, 0xFFFF_FFFF ^ 0x02678e6c);
    st := Digest(st.d, d, st.b, st.c);
    One(n + 14, st, start, block);
    c := Set(0, c, d, a, b, block, 14, 17, 0xFFFF_FFFF ^ 0x5986bc71);
    st := Digest(st.d, c, st.b, st.c);
    One(n + 15, st, start, block);
    b := Set(0, b, c, d, a, block, 15, 22, 0x49b40821);
    st := Digest(st.d, b, st.b, st.c);
    o := Digest(a, b, c, d);
  }

  /** The constants of round 2 are those of the tables. */
  lemma Rows2a()
    ensures Index(16) == 1 && Shift(16) == 5 && Table(16) == 0xFFFF_FFFF ^ 0x09e1da9d
    ensures Index(17) == 6 && Shift(17) == 9 && Table(17) == 0xFFFF_FFFF ^ 0x3fbf4cbf
    ensures Index(18) == 11 && Shift(18) == 14 && Table(18) == 0x265e5a51
    ensures Index(19) == 0 && Shift(19) == 20 && Table(19) == 0xFFFF_FFFF ^ 0x16493855
  {
  }

  lemma Rows2b()
    ensures Index(20) == 5 && Shift(20) == 5 && Table(20) == 0xFFFF_FFFF ^ 0x29d0efa2
    ensures Index(21) == 10 && Shift(21) == 9 && Table(21) == 0x02441453
    ensures Index(22) == 15 && Shift(22) == 14 && Table(22) == 0xFFFF_FFFF ^ 0x275e197e
    ensures Index(23) == 4 && Shift(23) == 20 && Table(23) == 0xFFFF_FFFF ^ 0x182c0437
  {
  }

  lemma Rows2c()
    ensures Index(24) == 9 && Shift(24) == 5 && Table(24) == 0x21e1cde6
    ensures Index(25) == 14 && Shift(25) == 9 && Table(25) == 0xFFFF_FFFF ^ 0x3cc8f829
    ensures Index(26) == 3 && Shift(26) == 14 && Table(26) == 0xFFFF_FFFF ^ 0x0b2af278
    ensures Index(27) == 8 && Shift(27) == 20 && Table(27) == 0x455a14ed
  {
  }

  lemma Rows2d()
    ensures Index(28) == 13 && Shift(28) == 5 && Table(28) == 0xFFFF_FFFF ^ 0x561c16fa
    ensures Index(29) == 2 && Shift(29) == 9 && Table(29) == 0xFFFF_FFFF ^ 0x03105c07
    ensures Index(30) == 7 && Shift(30) == 14 && Table(30) == 0x676f02d9
    ensures Index(31) == 12 && Shift(31) == 20 && Table(31) == 0xFFFF_FFFF ^ 0x72d5b375
  {
  }

  /** Round 2 of md5_process. */
  method Round2(r: Digest, block: seq<Byte>, ghost start: Digest, ghost n: nat) returns (o: Digest)
    requires |block| == 64 && n == 16 && r == Operations(n, start, block)
    ensures o == Operations(n + 16, start, block)
  {
    hide *;
    Rows2a();
    Rows2b();
    Rows2c();
    Rows2d();
    var a, b, c, d := r.a, r.b, r.c, r.d;
    ghost var st := r;
    One(n + 0, st, start, block);
    a := Set(1, a, b, c, d, block, 1, 5, 0xFFFF_FFFF ^ 0x09e1da9d);
    st := Digest(st.d, a, st.b, st.c);
    One(n + 1, st, start, block);
    d := Set(1, d, a, b, c, block, 6, 9, 0xFFFF_FFFF ^ 0x3fbf4cbf);
    st := Digest(st.d, d, st.b, st.c);
    One(n + 2, st, start, block);
    c := Set(1, c, d, a, b, block, 11, 14, 0x265e5a51);
    st := Digest(st.d, c, st.b, st.c);
    One(n + 3, st, start, block);
    b := Set(1, b, c, d, a, block, 0, 20, 0xFFFF_FFFF ^ 0x16493855);
    st := Digest(st.d, b, st.b, st.c);
    One(n + 4, st, start, block);
    a := Set(1, a, b, c, d, block, 5, 5, 0xFFFF_FFFF ^ 0x29d0efa2);
    st := Digest(st.d, a, st.b, st.c);
    One(n + 5, st, start, block);
    d := Set(1, d, a, b, c, block, 10, 9, 0x02441453);
    st := Digest(st.d, d, st.b, st.c);
    One(n + 6, st, start, block);
    c := Set(1, c, d, a, b, block, 15, 14, 0xFFFF_FFFF ^ 0x275e197e);
    st := Digest(st.d, c, st.b, st.c);
    One(n + 7, st, start, block);
    b := Set(1, b, c, d, a, block, 4, 20, 0xFFFF_FFFF ^ 0x182c0437);
    st := Digest(st.d, b, st.b, st.c);
    One(n + 8, st, start, block);
    a := Set(1, a, b, c, d, block, 9, 5, 0x21e1cde6);
    st := Digest(st.d, a, st.b, st.c);
    One(n + 9, st, start, block);
    d := Set(1, d, a, b, c, block, 14, 9, 0xFFFF_FFFF ^ 0x3cc8f829);
    st := Digest(st.d, d, st.b, st.c);
    One(n + 10, st, start, block);
    c := Set(1, c, d, a, b, block, 3, 14, 0xFFFF_FFFF ^ 0x0b2af278);
    st := Digest(st.d, c, st.b, st.c);
    One(n + 11, st, start, block);
    b := Set(1, b, c, d, a, block, 8, 20, 0x455a14ed);
    st := Digest(st.d, b, st.b, st.c);
    One(n + 12, st, start, block);
    a := Set(1, a, b, c, d, block, 13, 5, 0xFFFF_FFFF ^ 0x561c16fa);
    st := Digest(st.d, a, st.b, st.c);
    One(n + 13, st, start, block);
    d := Set(1, d, a, b, c, block, 2, 9, 0xFFFF_FFFF ^ 0x03105c07);
    st := Digest(st.d, d, st.b, st.c);
    One(n + 14, st, start, block);
    c := Set(1, c, d, a, b, block, 7, 14, 0x676f02d9);
    st := Digest(st.d, c, st.b, st.c);
    One(n + 15, st, start, block);
    b := Set(1, b, c, d, a, block, 12, 20, 0xFFFF_FFFF ^ 0x72d5b375);
    st := Digest(st.d, b, st.b, st.c);
    o := Digest(a, b, c, d);
  }

  /** The constants of round 3 are those of the tables. */
  lemma Rows3a()
    ensures Index(32) == 5 && Shift(32) == 4 && Table(32) == 0xFFFF_FFFF ^ 0x0005c6bd
    ensures Index(33) == 8 && Shift(33) == 11 && Table(33) == 0xFFFF_FFFF ^ 0x788e097e
    ensures Index(34) == 11 && Shift(34) == 16 && Table(34) == 0x6d9d6122
    ensures Index(35) == 14 && Shift(35) == 23 && Table(35) == 0xFFFF_FFFF ^ 0x021ac7f3
  {
  }

  lemma Rows3b()
    ensures Index(36) == 1 && Shift(36) == 4 && Table(36) == 0xFFFF_FFFF ^ 0x5b4115bb
    ensures Index(37) == 4 && Shift(37) == 11 && Table(37) == 0x4bdecfa9
    ensures Index(38) == 7 && Shift(38) == 16 && Table(38) == 0xFFFF_FFFF ^ 0x0944b49f
    ensures Index(39) == 10 && Shift(39) == 23 && Table(39) == 0xFFFF_FFFF ^ 0x4140438f
  {
  }

  lemma Rows3c()
    ensures Index(40) == 13 && Shift(40) == 4 && Table(40) == 0x289b7ec6
    ensures Index(41) == 0 && Shift(41) == 11 && Table(41) == 0xFFFF_FFFF ^ 0x155ed805
    ensures Index(42) == 3 && Shift(42) == 16 && Table(42) == 0xFFFF_FFFF ^ 0x2b10cf7a
    ensures Index(43) == 6 && Shift(43) == 23 && Table(43) == 0x04881d05
  {
  }

  lemma Rows3d()
    ensures Index(44) == 9 && Shift(44) == 4 && Table(44) == 0xFFFF_FFFF ^ 0x262b2fc6
    ensures Index(45) == 12 && Shift(45) == 11 && Table(45) == 0xFFFF_FFFF ^ 0x1924661a
    ensures Index(46) == 15 && Shift(46) == 16 && Table(46) == 0x1fa27cf8
    ensures Index(47) == 2 && Shift(47) == 23 && Table(47) == 0xFFFF_FFFF ^ 0x3b53a99a
  {
  }

  /** Round 3 of md5_process. */
  method Round3(r: Digest, block: seq<Byte>, ghost start: Digest, ghost n: nat) returns (o: Digest)
    requires |block| == 64 && n == 32 && r == Operations(n, start, block)
    ensures o == Operations(n + 16, start, block)
  {
    hide *;
    Rows3a();
    Rows3b();
    Rows3c();
    Rows3d();
    var a, b, c, d := r.a, r.b, r.c, r.d;
    ghost var st := r;
    One(n + 0, st, start, block);
    a := Set(2, a, b, c, d, block, 5, 4, 0xFFFF_FFFF ^ 0x0005c6bd);
    st := Digest(st.d, a, st.b, st.c);
    One(n + 1, st, start, block);
    d := Set(2, d, a, b, c, block, 8, 11, 0xFFFF_FFFF ^ 0x788e097e);
    st := Digest(st.d, d, st.b, st.c);
    One(n + 2, st, start, block);
    c := Set(2, c, d, a, b, block, 11, 16, 0x6d9d6122);
    st := Digest(st.d, c, st.b, st.c);
    One(n + 3, st, start, block);
    b := Set(2, b, c, d, a, block, 14, 23, 0xFFFF_FFFF ^ 0x021ac7f3);
    st := Digest(st.d, b, st.b, st.c);
    One(n + 4, st, start, block);
    a := Set(2, a, b, c, d, block, 1, 4, 0xFFFF_FFFF ^ 0x5b4115bb);
    st := Digest(st.d, a, st.b, st.c);
    One(n + 5, st, start, block);
    d := Set(2, d, a, b, c, block, 4, 11, 0x4bdecfa9);
    st := Digest(st.d, d, st.b, st.c);
    One(n + 6, st, start, block);
    c := Set(2, c, d, a, b, block, 7, 16, 0xFFFF_FFFF ^ 0x0944b49f);
    st := Digest(st.d, c, st.b, st.c);
    One(n + 7, st, start, block);
    b := Set(2, b, c, d, a, block, 10, 23, 0xFFFF_FFFF ^ 0x4140438f);
    st := Digest(st.d, b, st.b, st.c);
    One(n + 8, st, start, block);
    a := Set(2, a, b, c, d, block, 13, 4, 0x289b7ec6);
    st := Digest(st.d, a, st.b, st.c);
    One(n + 9, st, start, block);
    d := Set(2, d, a, b, c, block, 0, 11, 0xFFFF_FFFF ^ 0x155ed805);
    st := Digest(st.d, d, st.b, st.c);
    One(n + 10, st, start, block);
    c := Set(2, c, d, a, b, block, 3, 16, 0xFFFF_FFFF ^ 0x2b10cf7a);
    st := Digest(st.d, c, st.b, st.c);
    One(n + 11, st, start, block);
    b := Set(2, b, c, d, a, block, 6, 23, 0x04881d05);
    st := Digest(st.d, b, st.b, st.c);
    One(n + 12, st, start, block);
    a := Set(2, a, b, c, d, block, 9, 4, 0xFFFF_FFFF ^ 0x262b2fc6);
    st := Digest(st.d, a, st.b, st.c);
    One(n + 13, st, start, block);
    d := Set(2, d, a, b, c, block, 12, 11, 0xFFFF_FFFF ^ 0x1924661a);
    st := Digest(st.d, d, st.b, st.c);
    One(n + 14, st, start, block);
    c := Set(2, c, d, a, b, block, 15, 16, 0x1fa27cf8);
    st := Digest(st.d, c, st.b, st.c);
    One(n + 15, st, start, block);
    b := Set(2, b, c, d, a, block, 2, 23, 0xFFFF_FFFF ^ 0x3b53a99a);
    st := Digest(st.d, b, st.b, st.c);
    o := Digest(a, b, c, d);
  }

  /** The constants of round 4 are those of the tables. */
  lemma Rows4a()
    ensures Index(48) == 0 && Shift(48) == 6 && Table(48) == 0xFFFF_FFFF ^ 0x0bd6ddbb
    ensures Index(49) == 7 && Shift(49) == 10 && Table(49) == 0x432aff97
    ensures Index(50) == 14 && Shift(50) == 15 && Table(50) == 0xFFFF_FFFF ^ 0x546bdc58
    ensures Index(51) == 5 && Shift(51) == 21 && Table(51) == 0xFFFF_FFFF ^ 0x036c5fc6
  {
  }

  lemma Rows4b()
    ensures Index(52) == 12 && Shift(52) == 6 && Table(52) == 0x655b59c3
    ensures Index(53) == 3 && Shift(53) == 10 && Table(53) == 0xFFFF_FFFF ^ 0x70f3336d
    ensures Index(54) == 10 && Shift(54) == 15 && Table(54) == 0xFFFF_FFFF ^ 0x00100b82
    ensures Index(55) == 1 && Shift(55) == 21 && Table(55) == 0xFFFF_FFFF ^ 0x7a7ba22e
  {
  }

  lemma Rows4c()
    ensures Index(56) == 8 && Shift(56) == 6 && Table(56) == 0x6fa87e4f
    ensures Index(57) == 15 && Shift(57) == 10 && Table(57) == 0xFFFF_FFFF ^ 0x01d3191f
    ensures Index(58) == 6 && Shift(58) == 15 && Table(58) == 0xFFFF_FFFF ^ 0x5cfebceb
    ensures Index(59) == 13 && Shift(59) == 21 && Table(59) == 0x4e0811a1
  {
  }

  lemma Rows4d()
    ensures Index(60) == 4 && Shift(60) == 6 && Table(60) == 0xFFFF_FFFF ^ 0x08ac817d
    ensures Index(61) == 11 && Shift(61) == 10 && Table(61) == 0xFFFF_FFFF ^ 0x42c50dca
  {
  }

  lemma Rows4e()
    ensures Index(62) == 2 && Shift(62) == 15 && Table(62) == 0x2ad7d2bb
    ensures Index(63) == 9 && Shift(63) == 21 && Table(63) == 0xFFFF_FFFF ^ 0x14792c6e
  {
  }

  /** Round 4 of md5_process. */
  method Round4(r: Digest, block: seq<Byte>, ghost start: Digest, ghost n: nat) returns (o: Digest)
    requires |block| == 64 && n == 48 && r == Operations(n, start, block)
    ensures o == Operations(n + 16, start, block)
  {
    hide *;
    Rows4a();
    Rows4b();
    Rows4c();
    Rows4d();
    Rows4e();
    var a, b, c, d := r.a, r.b, r.c, r.d;
    ghost var st := r;
    One(n + 0, st, start, block);
    a := Set(3, a, b, c, d, block, 0, 6, 0xFFFF_FFFF ^ 0x0bd6ddbb);
    st := Digest(st.d, a, st.b, st.c);
    One(n + 1, st, start, block);
    d := Set(3, d, a, b, c, block, 7, 10, 0x432aff97);
    st := Digest(st.d, d, st.b, st.c);
    One(n + 2, st, start, block);
    c := Set(3, c, d, a, b, block, 14, 15, 0xFFFF_FFFF ^ 0x546bdc58);
    st := Digest(st.d, c, st.b, st.c);
    One(n + 3, st, start, block);
    b := Set(3, b, c, d, a, block, 5, 21, 0xFFFF_FFFF ^ 0x036c5fc6);
    st := Digest(st.d, b, st.b, st.c);
    One(n + 4, st, start, block);
    a := Set(3, a, b, c, d, block, 12, 6, 0x655b59c3);
    st := Digest(st.d, a, st.b, st.c);
    One(n + 5, st, start, block);
    d := Set(3, d, a, b, c, block, 3, 10, 0xFFFF_FFFF ^ 0x70f3336d);
    st := Digest(st.d, d, st.b, st.c);
    One(n + 6, st, start, block);
    c := Set(3, c, d, a, b, block, 10, 15, 0xFFFF_FFFF ^ 0x00100b82);
    st := Digest(st.d, c, st.b, st.c);
    One(n + 7, st, start, block);
    b := Set(3, b, c, d, a, block, 1, 21, 0xFFFF_FFFF ^ 0x7a7ba22e);
    st := Digest(st.d, b, st.b, st.c);
    One(n + 8, st, start, block);
    a := Set(3, a, b, c, d, block, 8, 6, 0x6fa87e4f);
    st := Digest(st.d, a, st.b, st.c);
    One(n + 9, st, start, block);
    d := Set(3, d, a, b, c, block, 15, 10, 0xFFFF_FFFF ^ 0x01d3191f);
    st := Digest(st.d, d, st.b, st.c);
    One(n + 10, st, start, block);
    c := Set(3, c, d, a, b, block, 6, 15, 0xFFFF_FFFF ^ 0x5cfebceb);
    st := Digest(st.d, c, st.b, st.c);
    One(n + 11, st, start, block);
    b := Set(3, b, c, d, a, block, 13, 21, 0x4e0811a1);
    st := Digest(st.d, b, st.b, st.c);
    One(n + 12, st, start, block);
    a := Set(3, a, b, c, d, block, 4, 6, 0xFFFF_FFFF ^ 0x08ac817d);
    st := Digest(st.d, a, st.b, st.c);
    One(n + 13, st, start, block);
    d := Set(3, d, a, b, c, block, 11, 10, 0xFFFF_FFFF ^ 0x42c50dca);
    st := Digest(st.d, d, st.b, st.c);
    One(n + 14, st, start, block);
    c := Set(3, c, d, a, b, block, 2, 15, 0x2ad7d2bb);
    st := Digest(st.d, c, st.b, st.c);
    One(n + 15, st, start, block);
    b := Set(3, b, c, d, a, block, 9, 21, 0xFFFF_FFFF ^ 0x14792c6e);
    st := Digest(st.d, b, st.b, st.c);
    o := Digest(a, b, c, d);
  }

  /** md5_process */
  method ProcessBlock(r: Digest, block: seq<Byte>) returns (o: Digest)
    requires |block| == 64
    ensures o == Process(r, block)
  {
    hide Operation, Operations, Add;
    NoOperations(r, block);
    ghost var n := 0;
    var x := Round1(r, block, r, n);
    x := Round2(x, block, r, n + 16);
    x := Round3(x, block, r, n + 32);
    x := Round4(x, block, r, n + 48);
    o := Add(r, x);
  }

  lemma NoOperations(r: Digest, block: seq<Byte>)
    requires |block| == 64
    ensures Operations(0, r, block) == r
  {
  }
}
