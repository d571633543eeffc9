/** The streaming interface of MD5 (md5_init, md5_append, md5_finish) against the one-shot
    definition in sections 3.1 to 3.5 of RFC 1321. */
module Md5Stream {
  import opened Md5

  const WORD: nat := 0x1_0000_0000
  const BIG: nat := 0x1_0000_0000_0000_0000

  // ------------------------------------------------------------------ reference

  /** The registers after all blocks of a message whose length is a multiple of 64. */
  function Fold(m: seq<Byte>): Digest
    requires |m| % 64 == 0
  {
    if m == [] then INIT
    else Process(Fold(m[..|m| - 64]), m[|m| - 64..])
  }

  /** The number of zero bytes after the first padding byte: the fewest that leave 56 mod 64. */
  function Zeros(n: nat): (z: nat)
    ensures z < 64 && (n + 1 + z) % 64 == 56
  {
    (119 - n % 64) % 64
  }

  function Le32(w: nat): (b: seq<Byte>)
    requires w < WORD
    ensures |b| == 4
  {
    [(w % 0x100) as bv8, (w / 0x100 % 0x100) as bv8, (w / 0x1_0000 % 0x100) as bv8, (w / 0x100_0000) as bv8]
  }

  /** Step 1 and 2: one bit, zeros, and the length in bits as two words, low-order word first. */
  function Padded(m: seq<Byte>): seq<Byte> {
    m + Padding(Zeros(|m|) + 1) + LengthBytes(8 * |m| % BIG)
  }

  /** The first n bytes of the padding. */
  function Padding(n: nat): (p: seq<Byte>)
    requires n > 0
    ensures |p| == n
  {
    [0x80] + seq(n - 1, _ => 0)
  }

  function LengthBytes(bits: nat): (b: seq<Byte>)
    requires bits < BIG
    ensures |b| == 8
  {
    Le32(bits % WORD) + Le32(bits / WORD)
  }

  lemma PaddedLength(m: seq<Byte>)
    ensures |Padded(m)| == |m| + Zeros(|m|) + 9 && |Padded(m)| % 64 == 0
  {
    hide Padding, LengthBytes, Zeros;
    EightMore(|m| + 1 + Zeros(|m|));
  }

  lemma EightMore(n: nat)
    requires n % 64 == 56
    ensures (n + 8) % 64 == 0
  {
  }

  function Register(r: Digest, k: nat): bv32 {
    if k == 0 then r.a else if k == 1 then r.b else if k == 2 then r.c else r.d
  }

  /** The bytes of the four registers. */
  function Octets(r: Digest): (b: seq<Byte>)
    ensures |b| == 16 && forall i :: 0 <= i < 16 ==> b[i] == Octet(Register(r, i / 4), i % 4)
  {
    seq(16, i requires 0 <= i < 16 => Octet(Register(r, i / 4), i % 4))
  }

  /** The message digest. */
  function MessageDigest(m: seq<Byte>): seq<Byte> {
    PaddedLength(m);
    Octets(Fold(Padded(m)))
  }

  // ----------------------------------------------------------------- invariants

  /** The bytes in whole blocks, and the rest. */
  function Whole(m: seq<Byte>): (w: seq<Byte>)
    ensures |w| % 64 == 0
  {
    m[..|m| / 64 * 64]
  }

  function Part(m: seq<Byte>): (p: seq<Byte>)
    ensures |p| == |m| % 64
  {
    m[|m| / 64 * 64..]
  }

  lemma WholePart(m: seq<Byte>)
    ensures Whole(m) + Part(m) == m
  {
  }

  lemma FoldSnoc(m: seq<Byte>, block: seq<Byte>)
    requires |m| % 64 == 0 && |block| == 64
    ensures |m + block| % 64 == 0 && Fold(m + block) == Process(Fold(m), block)
  {
    hide Process;
    var s := m + block;
    assert s[..|s| - 64] == m && s[|s| - 64..] == block;
  }

  /** A message cut into whole blocks and a rest shorter than a block is cut there. */
  lemma CutAt(w: seq<Byte>, p: seq<Byte>)
    requires |w| % 64 == 0 && |p| < 64
    ensures Whole(w + p) == w && Part(w + p) == p
  {
    var m := w + p;
    assert |m| / 64 * 64 == |w|;
  }

  /** The two 32-bit counter words hold the length in bits modulo 2^64. */
  predicate Counted(lo: nat, hi: nat, total: nat) {
    lo < WORD && hi < WORD && lo + WORD * hi == 8 * total % BIG
  }

  /** The two-word bit counter after n more bytes: 32-bit addition with carry is addition
      modulo 2^64. */
  lemma Carry(lo: nat, hi: nat, n: nat, total: nat)
    requires Counted(lo, hi, total) && n < 0x1000_0000
    ensures var lo' := (lo + 8 * n) % WORD;
            var hi' := if lo' < 8 * n then (hi + 1) % WORD else hi;
            Counted(lo', hi', total + n)
  {
    ModAdd(8 * total, 8 * n);
    assert 8 * (total + n) == 8 * total + 8 * n;
    AtMostOnce(lo + 8 * n, WORD);
    AtMostOnce(lo + WORD * hi + 8 * n, BIG);
    AtMostOnce(hi + 1, WORD);
  }

  lemma AtMostOnce(v: nat, m: nat)
    requires v < 2 * m
    ensures v % m == if v < m then v else v - m
  {
  }

  lemma ModAdd(a: nat, b: nat)
    ensures (a + b) % BIG == (a % BIG + b) % BIG
  {
  }

  /** The buffer offset the source computes from the counter. */
  lemma OffsetIs(lo: nat, hi: nat, total: nat)
    requires Counted(lo, hi, total)
    ensures lo / 8 % 64 == total % 64
  {
    var q := 8 * total / BIG;
    assert 8 * total == q * BIG + lo + WORD * hi;
    var k := q * 0x80_0000_0000_0000 + hi * 0x80_0000;
    assert total == lo / 8 + 64 * k;
    SixtyFours(lo / 8, k);
  }

  lemma SixtyFours(x: nat, k: nat)
    ensures (x + 64 * k) % 64 == x % 64
  {
  }

  lemma Regroup(seen: seq<Byte>, data: seq<Byte>, from: nat)
    requires from <= |data|
    ensures (seen + data[..from]) + data[from..] == seen + data
  {
    assert data == data[..from] + data[from..];
  }

  /** md5_state_t; `seen` is the message so far. */
  class State {
    var lo: nat
    var hi: nat
    var abcd: Digest
    const buf: array<Byte>
    ghost var seen: seq<Byte>

    ghost predicate Valid()
      reads this, buf
    {
      && Counted(lo, hi, |seen|)
      && buf.Length == 64
      && abcd == Fold(Whole(seen)) && buf[..|seen| % 64] == Part(seen)
    }

    /** md5_init */
    constructor ()
      ensures Valid() && seen == [] && fresh(buf)
    {
      lo, hi, abcd, seen := 0, 0, INIT, [];
      buf := new Byte[64];
      new;
      assert Whole(seen) == [] && Part(seen) == [] && buf[..0] == [];
    }

    /** md5_append: the message grows by the chunk, whatever the chunk boundaries. */
    method Append(data: seq<Byte>)
      requires Valid() && |data| < 0x1000_0000
      modifies this`lo, this`hi, this`abcd, this`seen, buf
      ensures Valid() && seen == old(seen) + data
    {
      hide Fold, Process, Whole, Part, Counted;
      OffsetIs(lo, hi, |seen|);
      var offset := lo / 8 % 64;
      if |data| == 0 {
        assert seen + data == seen;
        return;
      }
      Count(|data|);
      var from, full := TopUp(data, offset);
      if full {
        ghost var v;
        from, v := ProcessWhole(data, from, seen + data[..from]);
        KeepRest(data, from);
        Regroup(seen, data, from);
        CutAt(v, data[from..]);
      }
      seen := seen + data;
    }

    /** The message length, in bits. */
    method Count(n: nat)
      requires Counted(lo, hi, |seen|) && n < 0x1000_0000
      modifies this`lo, this`hi
      ensures Counted(lo, hi, |seen| + n)
    {
      Carry(lo, hi, n, |seen|);
      hide Counted;
      var nbits := 8 * n;
      lo := (lo + nbits) % WORD;
      if lo < nbits { hi := (hi + 1) % WORD; }
    }

    /** An initial partial block: filled up from the chunk and processed when complete. */
    method TopUp(data: seq<Byte>, offset: nat) returns (from: nat, full: bool)
      requires buf.Length == 64 && offset == |seen| % 64
      requires abcd == Fold(Whole(seen)) && buf[..offset] == Part(seen)
      modifies this`abcd, buf
      ensures from <= |data|
      ensures full ==> |seen + data[..from]| % 64 == 0 && abcd == Fold(seen + data[..from])
      ensures !full ==> abcd == Fold(Whole(seen + data)) && buf[..|seen + data| % 64] == Part(seen + data)
    {
      hide Fold, Process, Whole, Part;
      WholePart(seen);
      ghost var w, part := Whole(seen), Part(seen);
      if offset == 0 {
        assert seen + data[..0] == w;
        return 0, true;
      }
      var copy := if offset + |data| > 64 then 64 - offset else |data|;
      forall i | 0 <= i < copy { buf[offset + i] := data[i]; }
      assert buf[..offset + copy] == part + data[..copy];
      assert w + (part + data[..copy]) == seen + data[..copy];
      if offset + copy < 64 {
        assert data[..copy] == data;
        CutAt(w, part + data);
        return copy, false;
      }
      assert buf[..] == part + data[..copy];
      FoldSnoc(w, buf[..]);
      abcd := ProcessBlock(abcd, buf[..]);
      return copy, true;
    }

    /** The final partial block. */
    method KeepRest(data: seq<Byte>, from: nat)
      requires buf.Length == 64 && from <= |data| && |data| - from < 64
      modifies buf
      ensures buf[..|data| - from] == data[from..]
    {
      forall i | 0 <= i < |data| - from { buf[i] := data[from + i]; }
    }

    /** The loop over full blocks. */
    method ProcessWhole(data: seq<Byte>, from: nat, ghost w: seq<Byte>) returns (to: nat, ghost v: seq<Byte>)
      requires from <= |data| && |w| % 64 == 0 && abcd == Fold(w) && w == seen + data[..from]
      modifies this`abcd
      ensures from <= to <= |data| && |data| - to < 64
      ensures |v| % 64 == 0 && abcd == Fold(v) && v == seen + data[..to]
    {
      hide Fold, Process;
      to, v := from, w;
      while |data| - to >= 64
        invariant from <= to <= |data|
        invariant |v| % 64 == 0 && abcd == Fold(v) && v == seen + data[..to]
      {
        var block := data[to..to + 64];
        abcd := ProcessBlock(abcd, block);
        FoldSnoc(v, block);
        assert data[..to] + block == data[..to + 64];
        assert seen + data[..to] + block == seen + data[..to + 64];
        v := v + block;
        to := to + 64;
      }
    }

    /** md5_finish: the digest that RFC 1321 defines for everything appended. */
    method Finish() returns (digest: seq<Byte>)
      requires Valid()
      modifies this`lo, this`hi, this`abcd, this`seen, buf
      ensures digest == MessageDigest(old(seen))
    {
      hide Fold, Process, Whole, Part, Counted, Zeros, Le32, Octet, Shifted, Padding, LengthBytes;
      ghost var m := seen;
      CountedBits(lo, hi, |m|);
      var data := LengthOf(lo, hi);
      PadLength(lo, hi, |m|);
      var count := (55 + WORD - lo / 8) % WORD % 64 + 1;
      PadPrefix(count);
      Append(PAD[..count]);
      Append(data);
      PaddedLength(m);
      WholeAll(seen);
      digest := [];
      var i := 0;
      while i < 16
        invariant 0 <= i <= 16 && |digest| == i && abcd == Fold(Padded(m))
        invariant forall k :: 0 <= k < i ==> digest[k] == Octet(Register(abcd, k / 4), k % 4)
      {
        ShiftedOctet(Register(abcd, i / 4), i % 4);
        digest := digest + [Shifted(Register(abcd, i / 4), i % 4)];
        i := i + 1;
      }
    }

    /** The length before padding, low-order byte first. */
    method LengthOf(low: nat, high: nat) returns (data: seq<Byte>)
      requires low < WORD && high < WORD
      ensures data == Le32(low) + Le32(high)
    {
      hide Le32;
      data := [];
      var i := 0;
      while i < 8
        invariant 0 <= i <= 8 && |data| == i
        invariant forall k :: 0 <= k < i ==> data[k] == (Le32(low) + Le32(high))[k]
      {
        var w := if i / 4 == 0 then low else high;
        LeByte(w, i % 4);
        data := data + [ShiftedByte(w, i % 4)];
        i := i + 1;
      }
    }
  }

  /** (md5_byte_t) (w >> (k << 3)) */
  function Shifted(w: bv32, k: nat): Byte
    requires k < 4
  {
    var s: bv32 := k as bv32 << 3;
    ((w >> s) & 0xFF) as bv8
  }

  lemma ShiftedOctet(w: bv32, k: nat)
    requires k < 4
    ensures Shifted(w, k) == Octet(w, k)
  {
    assert k == 0 || k == 1 || k == 2 || k == 3;
  }

  /** The same of a counter word. */
  function ShiftedByte(w: nat, k: nat): Byte
    requires w < WORD && k < 4
  {
    var v := if k == 0 then w else if k == 1 then w / 0x100 else if k == 2 then w / 0x1_0000 else w / 0x100_0000;
    (v % 0x100) as bv8
  }

  lemma LeByte(w: nat, k: nat)
    requires w < WORD && k < 4
    ensures Le32(w)[k] == ShiftedByte(w, k)
  {
  }

  lemma CountedBits(lo: nat, hi: nat, total: nat)
    requires Counted(lo, hi, total)
    ensures lo < WORD && hi < WORD && LengthBytes(8 * total % BIG) == Le32(lo) + Le32(hi)
  {
    hide Le32;
    var bits := 8 * total % BIG;
    assert bits % WORD == lo && bits / WORD == hi;
  }

  /** ((55 - (count >> 3)) & 63) + 1, in unsigned arithmetic */
  lemma PadLength(lo: nat, hi: nat, total: nat)
    requires Counted(lo, hi, total)
    ensures lo < WORD && (55 + WORD - lo / 8) % WORD % 64 == Zeros(total)
  {
    OffsetIs(lo, hi, total);
    var c := lo / 8;
    assert c == c / 64 * 64 + c % 64;
    if c <= 55 {
      assert (55 + WORD - c) % WORD == 55 - c;
    } else {
      assert (55 + WORD - c) % WORD == 55 + WORD - c;
    }
  }

  const PAD: seq<Byte> := [0x80] + seq(63, _ => 0)

  lemma PadPrefix(n: nat)
    requires 0 < n <= 64
    ensures |PAD| == 64 && PAD[..n] == Padding(n)
  {
  }

  lemma WholeAll(m: seq<Byte>)
    requires |m| % 64 == 0
    ensures Whole(m) == m
  {
  }

  function Concat(chunks: seq<seq<Byte>>): seq<Byte> {
    if chunks == [] then [] else Concat(chunks[..|chunks| - 1]) + chunks[|chunks| - 1]
  }

  /** Streaming is chunk-blind: any chunks below 2^28 bytes give the digest of their concatenation. */
  method DigestOf(chunks: seq<seq<Byte>>) returns (digest: seq<Byte>)
    requires forall i :: 0 <= i < |chunks| ==> |chunks[i]| < 0x1000_0000
    ensures digest == MessageDigest(Concat(chunks))
  {
    hide MessageDigest;
    var s := new State();
    var i := 0;
    assert chunks[..0] == [];
    while i < |chunks|
      invariant 0 <= i <= |chunks| && s.Valid() && s.seen == Concat(chunks[..i]) && fresh(s) && fresh(s.buf)
    {
      s.Append(chunks[i]);
      assert chunks[..i + 1][..i] == chunks[..i];
      i := i + 1;
    }
    assert chunks[..i] == chunks;
    digest := s.Finish();
  }
}
