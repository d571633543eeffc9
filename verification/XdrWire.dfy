/** The wire formats of RFC 1813 as lists of items, each given by its bytes (RFC 4506), and
    the filters of src/xdr.c against them: what an encoder writes is exactly its items, and
    what a decoder accepts, of any input, is exactly what starts with its items. */
module XdrWire {
  import opened Wrappers
  import opened Protocol
  import opened Xdr

  /** Fixed: opaque data whose length the format or an item before it gives. */
  datatype Item = Word(w: U32) | Hyper(h: U64) | Flag(f: bool) | Fixed(data: seq<Byte>)

  /** The bytes an item takes, a multiple of four. */
  function Width(x: Item): nat {
    match x
    case Word(_) => 4
    case Hyper(_) => 8
    case Flag(_) => 4
    case Fixed(data) => if |data| % 4 == 0 then |data| else |data| + 4 - |data| % 4
  }

  /** Big-endian: the first byte counts most (sections 4.1 to 4.5). */
  function BigEndian(b0: nat, b1: nat, b2: nat, b3: nat): nat { b0 * 16777216 + b1 * 65536 + b2 * 256 + b3 }

  predicate IsWord(b: seq<Byte>, w: U32)
    requires |b| == 4
  {
    w == BigEndian(b[0], b[1], b[2], b[3])
  }

  predicate IsHyper(b: seq<Byte>, h: U64)
    requires |b| == 8
  {
    h == BigEndian(b[0], b[1], b[2], b[3]) * 4294967296 + BigEndian(b[4], b[5], b[6], b[7])
  }

  /** The bytes of an item as a decoder takes them: any nonzero word is TRUE, padding is not looked at. */
  ghost predicate Holds(b: seq<Byte>, x: Item)
    requires |b| == Width(x)
  {
    match x
    case Word(w) => IsWord(b, w)
    case Hyper(h) => IsHyper(b, h)
    case Flag(f) => f <==> b != [0, 0, 0, 0]
    case Fixed(data) => b[..|data|] == data
  }

  /** The bytes of an item as an encoder writes them: TRUE is 0, 0, 0, 1 and padding is zero. */
  ghost predicate Written(b: seq<Byte>, x: Item)
    requires |b| == Width(x)
  {
    && Holds(b, x) && (x.Flag? && x.f ==> b == [0, 0, 0, 1])
    && (x.Fixed? ==> forall i :: |x.data| <= i < |b| ==> b[i] == 0)
  }

  /** The input starts with these items, and `rest` follows them. */
  ghost predicate Reads(b: seq<Byte>, items: seq<Item>, rest: seq<Byte>)
    decreases |items|
  {
    if items == [] then b == rest
    else
      var n := Width(items[0]);
      n <= |b| && Holds(b[..n], items[0]) && Reads(b[n..], items[1..], rest)
  }

  /** The bytes are these items, written one after the other, and nothing else. */
  ghost predicate Writes(b: seq<Byte>, items: seq<Item>)
    decreases |items|
  {
    if items == [] then b == []
    else
      var n := Width(items[0]);
      n <= |b| && Written(b[..n], items[0]) && Writes(b[n..], items[1..])
  }

  // ------------------------------------------------------------------ formats

  /** set_mode3, set_uid3, set_gid3 and set_size3 */
  function Set32(v: Option<U32>): seq<Item> { if v.None? then [Flag(false)] else [Flag(true), Word(v.value)] }
  function Set64(v: Option<U64>): seq<Item> { if v.None? then [Flag(false)] else [Flag(true), Hyper(v.value)] }

  function Time(t: NfsTime): seq<Item> { [Word(t.seconds), Word(t.nseconds)] }

  /** set_atime and set_mtime; SET_TO_CLIENT_TIME is 2 */
  function SetTimeItems(v: SetTime): seq<Item> {
    match v
    case Keep(how) => [Word(how)]
    case Client(time) => [Word(2)] + Time(time)
  }

  function SattrItems(a: Sattr): seq<Item> {
    Set32(a.mode) + (Set32(a.uid) + (Set32(a.gid) + (Set64(a.size) + (SetTimeItems(a.atime) + SetTimeItems(a.mtime)))))
  }

  /** createhow3: UNCHECKED is 0, GUARDED 1, EXCLUSIVE 2 */
  function CreateHowItems(h: CreateHow): seq<Item> {
    match h
    case Unchecked(attr) => [Word(0)] + SattrItems(attr)
    case Guarded(attr) => [Word(1)] + SattrItems(attr)
    case Exclusive(verf) => [Word(2), Fixed(verf)]
  }

  function FattrItems(a: Fattr): seq<Item> {
    [Word(a.ftype)] + ([Word(a.mode)] + ([Word(a.nlink)] + ([Word(a.uid)] + ([Word(a.gid)] +
    ([Hyper(a.size)] + ([Hyper(a.used)] + ([Word(a.rdev1)] + ([Word(a.rdev2)] + ([Hyper(a.fsid)] +
    ([Hyper(a.fileid)] + (Time(a.atime) + (Time(a.mtime) + Time(a.ctime)))))))))))))
  }

  function PostAttrItems(a: Option<Fattr>): seq<Item> {
    if a.None? then [Flag(false)] else [Flag(true)] + FattrItems(a.value)
  }

  /** Variable-length data: its length, then the bytes. */
  function Counted(data: seq<Byte>): seq<Item>
    requires |data| <= STRING_MAX
  {
    [Word(|data|), Fixed(data)]
  }

  function PostFhItems(h: Option<seq<Byte>>): seq<Item>
    requires h.Some? ==> |h.value| <= 64
  {
    if h.None? then [Flag(false)] else [Flag(true)] + Counted(h.value)
  }

  function EntryItems(e: Entry): seq<Item>
    requires e.Valid()
  {
    [Hyper(e.fileid)] + (Counted(e.name) + [Hyper(e.cookie)])
  }

  ghost function ListItems(es: seq<Entry>): seq<Item>
    requires ValidList(es)
  {
    if es == [] then [Flag(false)] else [Flag(true)] + (EntryItems(es[0]) + ListItems(es[1..]))
  }

  ghost function DirlistItems(es: seq<Entry>, eof: bool): seq<Item>
    requires ValidList(es)
  {
    ListItems(es) + [Flag(eof)]
  }

  ghost function ResokItems(attr: Option<Fattr>, verf: seq<Byte>, es: seq<Entry>, eof: bool): seq<Item>
    requires ValidList(es)
  {
    PostAttrItems(attr) + ([Fixed(verf)] + DirlistItems(es, eof))
  }

  // ----------------------------------------------------------------- item lists

  lemma WritesCons(b: seq<Byte>, tail: seq<Byte>, x: Item, xs: seq<Item>)
    requires |b| == Width(x) && Written(b, x) && Writes(tail, xs)
    ensures Writes(b + tail, [x] + xs)
  {
    hide Written, Width;
    assert (b + tail)[..|b|] == b && (b + tail)[|b|..] == tail && ([x] + xs)[1..] == xs;
  }

  lemma WritesHead(b: seq<Byte>, items: seq<Item>) returns (head: seq<Byte>, tail: seq<Byte>)
    requires Writes(b, items) && items != []
    ensures b == head + tail && |head| == Width(items[0]) && Written(head, items[0]) && Writes(tail, items[1..])
  {
    hide Written, Width;
    var n := Width(items[0]);
    head, tail := b[..n], b[n..];
  }

  lemma Assoc<T>(a: seq<T>, b: seq<T>, c: seq<T>)
    ensures (a + b) + c == a + (b + c)
  {
  }

  lemma {:induction false} WritesAppend(a: seq<Byte>, b: seq<Byte>, xs: seq<Item>, ys: seq<Item>)
    requires Writes(a, xs) && Writes(b, ys)
    ensures Writes(a + b, xs + ys)
    decreases |xs|
  {
    if xs == [] {
      assert a + b == b && xs + ys == ys;
    } else {
      hide *;
      var head, tail := WritesHead(a, xs);
      WritesAppend(tail, b, xs[1..], ys);
      WritesCons(head, tail + b, xs[0], xs[1..] + ys);
      Assoc(head, tail, b);
      Assoc([xs[0]], xs[1..], ys);
      assert [xs[0]] + xs[1..] == xs;
    }
  }

  lemma WritesOne(b: seq<Byte>, x: Item)
    requires |b| == Width(x) && Written(b, x)
    ensures Writes(b, [x])
  {
    assert b[..|b|] == b && b[|b|..] == [] && [x][1..] == [];
  }

  lemma {:induction false} ReadsAppend(b: seq<Byte>, mid: seq<Byte>, rest: seq<Byte>, xs: seq<Item>, ys: seq<Item>)
    requires Reads(b, xs, mid) && Reads(mid, ys, rest)
    ensures Reads(b, xs + ys, rest)
    decreases |xs|
  {
    hide Holds;
    if xs == [] {
      assert xs + ys == ys;
    } else {
      ReadsAppend(b[Width(xs[0])..], mid, rest, xs[1..], ys);
      assert (xs + ys)[1..] == xs[1..] + ys;
    }
  }

  /** What is read of a longer list is read of its first part. */
  lemma {:induction false} ReadsSplit(b: seq<Byte>, rest: seq<Byte>, xs: seq<Item>, ys: seq<Item>)
    returns (mid: seq<Byte>)
    requires Reads(b, xs + ys, rest)
    ensures Reads(b, xs, mid) && Reads(mid, ys, rest)
    decreases |xs|
  {
    hide Holds;
    if xs == [] {
      mid := b;
      assert xs + ys == ys;
    } else {
      assert (xs + ys)[1..] == xs[1..] + ys;
      mid := ReadsSplit(b[Width(xs[0])..], rest, xs[1..], ys);
    }
  }

  lemma ReadsOne(b: seq<Byte>, x: Item, rest: seq<Byte>)
    ensures Reads(b, [x], rest) <==> Width(x) <= |b| && Holds(b[..Width(x)], x) && rest == b[Width(x)..]
  {
    hide Holds;
    assert [x][1..] == [];
  }

  // ----------------------------------------------------------------- primitives

  /** A word is its bytes, big end first, whatever the input. */
  lemma WireU32(v: U32, b: seq<Byte>, w: U32, rest: seq<Byte>)
    ensures Writes(EncU32(v), [Word(v)])
    ensures DecU32(b) == Some((w, rest)) <==> Reads(b, [Word(w)], rest)
  {
    EncodedWord(v);
    WritesOne(EncU32(v), Word(v));
    ReadsOne(b, Word(w), rest);
  }

  lemma WireU64(v: U64, b: seq<Byte>, w: U64, rest: seq<Byte>)
    ensures Writes(EncU64(v), [Hyper(v)])
    ensures DecU64(b) == Some((w, rest)) <==> Reads(b, [Hyper(w)], rest)
  {
    EncodedHyper(v);
    DecodedHyper(b, w);
    hide EncU64, DecU64, IsHyper;
    WritesOne(EncU64(v), Hyper(v));
    ReadsOne(b, Hyper(w), rest);
  }

  lemma EncodedHyper(v: U64)
    ensures IsHyper(EncU64(v), v)
  {
    var hi, lo := v / 4294967296, v % 4294967296;
    EncodedWord(hi);
    EncodedWord(lo);
    hide EncU32, IsWord;
    var e := EncU64(v);
    assert e[..4] == EncU32(hi) && e[4..] == EncU32(lo);
    HyperOf(e, hi, lo);
  }

  lemma DecodedHyper(b: seq<Byte>, w: U64)
    ensures |b| >= 8 ==> (DecU64(b).value.0 == w <==> IsHyper(b[..8], w))
  {
  }

  lemma HyperOf(e: seq<Byte>, hi: U32, lo: U32)
    requires |e| == 8 && IsWord(e[..4], hi) && IsWord(e[4..], lo)
    ensures hi * 4294967296 + lo < 0x1_0000_0000_0000_0000 && IsHyper(e, hi * 4294967296 + lo)
  {
    assert e[..4] == [e[0], e[1], e[2], e[3]] && e[4..] == [e[4], e[5], e[6], e[7]];
  }

  lemma EncodedWord(v: U32)
    ensures IsWord(EncU32(v), v)
  {
    assert v == v / 0x100 * 0x100 + v % 0x100;
    assert v / 0x100 == v / 0x1_0000 * 0x100 + v / 0x100 % 0x100;
    assert v / 0x1_0000 == v / 0x100_0000 * 0x100 + v / 0x1_0000 % 0x100;
  }

  /** TRUE is written as 0, 0, 0, 1; FALSE, and nothing else, is read from four zero bytes. */
  lemma WireBool(v: bool, b: seq<Byte>, w: bool, rest: seq<Byte>)
    ensures EncBool(v) == [0, 0, 0, if v then 1 else 0] && Writes(EncBool(v), [Flag(v)])
    ensures DecBool(b) == Some((w, rest)) <==> Reads(b, [Flag(w)], rest)
  {
    WritesOne(EncBool(v), Flag(v));
    ReadsOne(b, Flag(w), rest);
    if |b| >= 4 {
      assert b[..4] == [b[0], b[1], b[2], b[3]];
    }
  }

  lemma WidthIsPad(data: seq<Byte>)
    ensures Width(Fixed(data)) == Pad4(|data|)
  {
  }

  /** Opaque data stands as it is, padded with zeros to a multiple of four. */
  lemma WireOpaque(data: seq<Byte>, n: nat, b: seq<Byte>, got: seq<Byte>, rest: seq<Byte>)
    ensures Writes(EncOpaque(data), [Fixed(data)])
    ensures DecOpaque(n, b) == Some((got, rest)) <==> |got| == n && Reads(b, [Fixed(got)], rest)
  {
    WidthIsPad(data);
    WidthIsPad(got);
    WritesOne(EncOpaque(data), Fixed(data));
    ReadsOne(b, Fixed(got), rest);
    if |b| >= Pad4(n) { assert b[..Pad4(n)][..n] == b[..n]; }
  }

  // ----------------------------------------------------------------- composites

  lemma WireSet32(v: Option<U32>, b: seq<Byte>, w: Option<U32>, rest: seq<Byte>)
    ensures Writes(EncSet32(v), Set32(v))
    ensures DecSet32(b) == Some((w, rest)) <==> Reads(b, Set32(w), rest)
  {
    hide EncU32, DecU32, EncBool, DecBool, Reads, Writes;
    WireBool(v.Some?, b, w.Some?, rest);
    if v.Some? {
      WireU32(v.value, [], 0, []);
      WritesAppend(EncBool(true), EncU32(v.value), [Flag(true)], [Word(v.value)]);
      assert [Flag(true)] + [Word(v.value)] == Set32(v);
    }
    if w.Some? {
      var value := w.value;
      assert [Flag(true)] + [Word(value)] == Set32(w);
      if DecSet32(b) == Some((w, rest)) {
        var mid := DecBool(b).value.1;
        WireBool(true, b, true, mid);
        WireU32(0, mid, value, rest);
        ReadsAppend(b, mid, rest, [Flag(true)], [Word(value)]);
      }
      if Reads(b, Set32(w), rest) {
        var mid := ReadsSplit(b, rest, [Flag(true)], [Word(value)]);
        WireBool(true, b, true, mid);
        WireU32(0, mid, value, rest);
      }
    }
  }

  lemma WireSet64(v: Option<U64>, b: seq<Byte>, w: Option<U64>, rest: seq<Byte>)
    ensures Writes(EncSet64(v), Set64(v))
    ensures DecSet64(b) == Some((w, rest)) <==> Reads(b, Set64(w), rest)
  {
    hide EncU64, DecU64, EncBool, DecBool, Reads, Writes;
    WireBool(v.Some?, b, w.Some?, rest);
    if v.Some? {
      WireU64(v.value, [], 0, []);
      WritesAppend(EncBool(true), EncU64(v.value), [Flag(true)], [Hyper(v.value)]);
      assert [Flag(true)] + [Hyper(v.value)] == Set64(v);
    }
    if w.Some? {
      var value := w.value;
      assert [Flag(true)] + [Hyper(value)] == Set64(w);
      if DecSet64(b) == Some((w, rest)) {
        var mid := DecBool(b).value.1;
        WireBool(true, b, true, mid);
        WireU64(0, mid, value, rest);
        ReadsAppend(b, mid, rest, [Flag(true)], [Hyper(value)]);
      }
      if Reads(b, Set64(w), rest) {
        var mid := ReadsSplit(b, rest, [Flag(true)], [Hyper(value)]);
        WireBool(true, b, true, mid);
        WireU64(0, mid, value, rest);
      }
    }
  }

  lemma WireTime(v: NfsTime, b: seq<Byte>, w: NfsTime, rest: seq<Byte>)
    ensures Writes(EncTime(v), Time(v))
    ensures DecTime(b) == Some((w, rest)) <==> Reads(b, Time(w), rest)
  {
    hide EncU32, Reads, Writes;
    WireU32(v.seconds, [], 0, []);
    WireU32(v.nseconds, [], 0, []);
    WritesAppend(EncU32(v.seconds), EncU32(v.nseconds), [Word(v.seconds)], [Word(v.nseconds)]);
    assert [Word(v.seconds)] + [Word(v.nseconds)] == Time(v) && [Word(w.seconds)] + [Word(w.nseconds)] == Time(w);
    if DecTime(b) == Some((w, rest)) {
      WireU32(0, b, w.seconds, b[4..]);
      WireU32(0, b[4..], w.nseconds, rest);
      assert b[4..][4..] == rest;
      ReadsAppend(b, b[4..], rest, [Word(w.seconds)], [Word(w.nseconds)]);
    }
    if Reads(b, Time(w), rest) {
      var mid := ReadsSplit(b, rest, [Word(w.seconds)], [Word(w.nseconds)]);
      WireU32(0, b, w.seconds, mid);
      WireU32(0, mid, w.nseconds, rest);
      assert b[4..][4..] == b[8..];
    }
  }

  lemma WireSetTime(v: SetTime, b: seq<Byte>, w: SetTime, rest: seq<Byte>)
    requires v.Valid()
    ensures Writes(EncSetTime(v), SetTimeItems(v))
    ensures DecSetTime(b) == Some((w, rest)) <==> w.Valid() && Reads(b, SetTimeItems(w), rest)
  {
    hide EncU32, DecU32, EncTime, DecTime, Reads, Writes;
    match v {
      case Keep(how) => WireU32(how, [], 0, []);
      case Client(time) =>
        WireU32(2, [], 0, []);
        WireTime(time, [], time, []);
        WritesAppend(EncU32(2), EncTime(time), [Word(2)], Time(time));
    }
    match w {
      case Keep(how) => WireU32(0, b, how, rest);
      case Client(time) =>
        if DecSetTime(b) == Some((w, rest)) {
          var mid := DecU32(b).value.1;
          WireU32(0, b, 2, mid);
          WireTime(time, mid, time, rest);
          ReadsAppend(b, mid, rest, [Word(2)], Time(time));
        }
        if Reads(b, SetTimeItems(w), rest) {
          var mid := ReadsSplit(b, rest, [Word(2)], Time(time));
          WireU32(0, b, 2, mid);
          WireTime(time, mid, time, rest);
        }
    }
  }

  /** Settable attributes, written. */
  lemma WritesSattr(v: Sattr)
    requires v.Valid()
    ensures Writes(EncSattr(v), SattrItems(v))
  {
    hide Set32, Set64, SetTimeItems, EncSet32, DecSet32, EncSet64, DecSet64, EncSetTime, DecSetTime, Writes;
    var e5, x5 := EncSetTime(v.mtime), SetTimeItems(v.mtime);
    var e4, x4 := EncSetTime(v.atime) + e5, SetTimeItems(v.atime) + x5;
    var e3, x3 := EncSet64(v.size) + e4, Set64(v.size) + x4;
    var e2, x2 := EncSet32(v.gid) + e3, Set32(v.gid) + x3;
    var e1, x1 := EncSet32(v.uid) + e2, Set32(v.uid) + x2;
    var e0, x0 := EncSet32(v.mode) + e1, Set32(v.mode) + x1;
    WireSetTime(v.mtime, [], v.mtime, []);
    WireSetTime(v.atime, [], v.atime, []);
    WritesAppend(EncSetTime(v.atime), e5, SetTimeItems(v.atime), x5);
    WireSet64(v.size, [], v.size, []);
    WritesAppend(EncSet64(v.size), e4, Set64(v.size), x4);
    WireSet32(v.gid, [], v.gid, []);
    WritesAppend(EncSet32(v.gid), e3, Set32(v.gid), x3);
    WireSet32(v.uid, [], v.uid, []);
    WritesAppend(EncSet32(v.uid), e2, Set32(v.uid), x2);
    WireSet32(v.mode, [], v.mode, []);
    WritesAppend(EncSet32(v.mode), e1, Set32(v.mode), x1);
  }

  /** Settable attributes, read: forth and back. */
  lemma ReadsSattr(b: seq<Byte>, w: Sattr, rest: seq<Byte>)
    requires DecSattr(b) == Some((w, rest))
    ensures w.Valid() && Reads(b, SattrItems(w), rest)
  {
    hide Set32, Set64, SetTimeItems, EncSet32, DecSet32, EncSet64, DecSet64, EncSetTime, DecSetTime, Reads;
    var b0 := b;
    var b1 := DecSet32(b0).value.1;
    WireSet32(w.mode, b0, w.mode, b1);
    var b2 := DecSet32(b1).value.1;
    WireSet32(w.uid, b1, w.uid, b2);
    var b3 := DecSet32(b2).value.1;
    WireSet32(w.gid, b2, w.gid, b3);
    var b4 := DecSet64(b3).value.1;
    WireSet64(w.size, b3, w.size, b4);
    var b5 := DecSetTime(b4).value.1;
    WireSetTime(Keep(0), b4, w.atime, b5);
    var b6 := DecSetTime(b5).value.1;
    WireSetTime(Keep(0), b5, w.mtime, b6);
    var x5 := SetTimeItems(w.mtime);
    var x4 := SetTimeItems(w.atime) + x5;
    ReadsAppend(b4, b5, rest, SetTimeItems(w.atime), x5);
    var x3 := Set64(w.size) + x4;
    ReadsAppend(b3, b4, rest, Set64(w.size), x4);
    var x2 := Set32(w.gid) + x3;
    ReadsAppend(b2, b3, rest, Set32(w.gid), x3);
    var x1 := Set32(w.uid) + x2;
    ReadsAppend(b1, b2, rest, Set32(w.uid), x2);
    var x0 := Set32(w.mode) + x1;
    ReadsAppend(b0, b1, rest, Set32(w.mode), x1);
  }

  lemma AcceptsSattr(b: seq<Byte>, w: Sattr, rest: seq<Byte>)
    requires w.Valid() && Reads(b, SattrItems(w), rest)
    ensures DecSattr(b) == Some((w, rest))
  {
    hide Set32, Set64, SetTimeItems, EncSet32, DecSet32, EncSet64, DecSet64, EncSetTime, DecSetTime, Reads;
    var b0 := b;
    var x5 := SetTimeItems(w.mtime);
    var x4 := SetTimeItems(w.atime) + x5;
    var x3 := Set64(w.size) + x4;
    var x2 := Set32(w.gid) + x3;
    var x1 := Set32(w.uid) + x2;
    var x0 := Set32(w.mode) + x1;
    var b1 := ReadsSplit(b0, rest, Set32(w.mode), x1);
    WireSet32(w.mode, b0, w.mode, b1);
    var b2 := ReadsSplit(b1, rest, Set32(w.uid), x2);
    WireSet32(w.uid, b1, w.uid, b2);
    var b3 := ReadsSplit(b2, rest, Set32(w.gid), x3);
    WireSet32(w.gid, b2, w.gid, b3);
    var b4 := ReadsSplit(b3, rest, Set64(w.size), x4);
    WireSet64(w.size, b3, w.size, b4);
    var b5 := ReadsSplit(b4, rest, SetTimeItems(w.atime), x5);
    WireSetTime(Keep(0), b4, w.atime, b5);
    WireSetTime(Keep(0), b5, w.mtime, rest);
  }

  lemma WireSattr(v: Sattr, b: seq<Byte>, w: Sattr, rest: seq<Byte>)
    requires v.Valid()
    ensures Writes(EncSattr(v), SattrItems(v))
    ensures DecSattr(b) == Some((w, rest)) <==> w.Valid() && Reads(b, SattrItems(w), rest)
  {
    hide EncSattr, DecSattr, Reads, Writes, SattrItems;
    WritesSattr(v);
    if DecSattr(b) == Some((w, rest)) { ReadsSattr(b, w, rest); }
    if w.Valid() && Reads(b, SattrItems(w), rest) { AcceptsSattr(b, w, rest); }
  }

  /** File attributes, written. */
  lemma WritesFattr(v: Fattr)
    ensures Writes(EncFattr(v), FattrItems(v))
  {
    hide Time, EncU32, DecU32, EncU64, DecU64, EncTime, DecTime, Writes;
    var e13, x13 := EncTime(v.ctime), Time(v.ctime);
    var e12, x12 := EncTime(v.mtime) + e13, Time(v.mtime) + x13;
    var e11, x11 := EncTime(v.atime) + e12, Time(v.atime) + x12;
    var e10, x10 := EncU64(v.fileid) + e11, [Hyper(v.fileid)] + x11;
    var e9, x9 := EncU64(v.fsid) + e10, [Hyper(v.fsid)] + x10;
    var e8, x8 := EncU32(v.rdev2) + e9, [Word(v.rdev2)] + x9;
    var e7, x7 := EncU32(v.rdev1) + e8, [Word(v.rdev1)] + x8;
    var e6, x6 := EncU64(v.used) + e7, [Hyper(v.used)] + x7;
    var e5, x5 := EncU64(v.size) + e6, [Hyper(v.size)] + x6;
    var e4, x4 := EncU32(v.gid) + e5, [Word(v.gid)] + x5;
    var e3, x3 := EncU32(v.uid) + e4, [Word(v.uid)] + x4;
    var e2, x2 := EncU32(v.nlink) + e3, [Word(v.nlink)] + x3;
    var e1, x1 := EncU32(v.mode) + e2, [Word(v.mode)] + x2;
    var e0, x0 := EncU32(v.ftype) + e1, [Word(v.ftype)] + x1;
    WireTime(v.ctime, [], v.ctime, []);
    WireTime(v.mtime, [], v.mtime, []);
    WritesAppend(EncTime(v.mtime), e13, Time(v.mtime), x13);
    WireTime(v.atime, [], v.atime, []);
    WritesAppend(EncTime(v.atime), e12, Time(v.atime), x12);
    WireU64(v.fileid, [], v.fileid, []);
    WritesAppend(EncU64(v.fileid), e11, [Hyper(v.fileid)], x11);
    WireU64(v.fsid, [], v.fsid, []);
    WritesAppend(EncU64(v.fsid), e10, [Hyper(v.fsid)], x10);
    WireU32(v.rdev2, [], v.rdev2, []);
    WritesAppend(EncU32(v.rdev2), e9, [Word(v.rdev2)], x9);
    WireU32(v.rdev1, [], v.rdev1, []);
    WritesAppend(EncU32(v.rdev1), e8, [Word(v.rdev1)], x8);
    WireU64(v.used, [], v.used, []);
    WritesAppend(EncU64(v.used), e7, [Hyper(v.used)], x7);
    WireU64(v.size, [], v.size, []);
    WritesAppend(EncU64(v.size), e6, [Hyper(v.size)], x6);
    WireU32(v.gid, [], v.gid, []);
    WritesAppend(EncU32(v.gid), e5, [Word(v.gid)], x5);
    WireU32(v.uid, [], v.uid, []);
    WritesAppend(EncU32(v.uid), e4, [Word(v.uid)], x4);
    WireU32(v.nlink, [], v.nlink, []);
    WritesAppend(EncU32(v.nlink), e3, [Word(v.nlink)], x3);
    WireU32(v.mode, [], v.mode, []);
    WritesAppend(EncU32(v.mode), e2, [Word(v.mode)], x2);
    WireU32(v.ftype, [], v.ftype, []);
    WritesAppend(EncU32(v.ftype), e1, [Word(v.ftype)], x1);
  }

  /** File attributes, read: forth and back. */
  lemma ReadsFattr(b: seq<Byte>, w: Fattr, rest: seq<Byte>)
    requires DecFattr(b) == Some((w, rest))
    ensures Reads(b, FattrItems(w), rest)
  {
    hide Time, EncU32, DecU32, EncU64, DecU64, EncTime, DecTime, Reads;
    var b0 := b;
    var b1 := DecU32(b0).value.1;
    WireU32(w.ftype, b0, w.ftype, b1);
    var b2 := DecU32(b1).value.1;
    WireU32(w.mode, b1, w.mode, b2);
    var b3 := DecU32(b2).value.1;
    WireU32(w.nlink, b2, w.nlink, b3);
    var b4 := DecU32(b3).value.1;
    WireU32(w.uid, b3, w.uid, b4);
    var b5 := DecU32(b4).value.1;
    WireU32(w.gid, b4, w.gid, b5);
    var b6 := DecU64(b5).value.1;
    WireU64(w.size, b5, w.size, b6);
    var b7 := DecU64(b6).value.1;
    WireU64(w.used, b6, w.used, b7);
    var b8 := DecU32(b7).value.1;
    WireU32(w.rdev1, b7, w.rdev1, b8);
    var b9 := DecU32(b8).value.1;
    WireU32(w.rdev2, b8, w.rdev2, b9);
    var b10 := DecU64(b9).value.1;
    WireU64(w.fsid, b9, w.fsid, b10);
    var b11 := DecU64(b10).value.1;
    WireU64(w.fileid, b10, w.fileid, b11);
    var b12 := DecTime(b11).value.1;
    WireTime(w.atime, b11, w.atime, b12);
    var b13 := DecTime(b12).value.1;
    WireTime(w.mtime, b12, w.mtime, b13);
    var b14 := DecTime(b13).value.1;
    WireTime(w.ctime, b13, w.ctime, b14);
    var x13 := Time(w.ctime);
    var x12 := Time(w.mtime) + x13;
    ReadsAppend(b12, b13, rest, Time(w.mtime), x13);
    var x11 := Time(w.atime) + x12;
    ReadsAppend(b11, b12, rest, Time(w.atime), x12);
    var x10 := [Hyper(w.fileid)] + x11;
    ReadsAppend(b10, b11, rest, [Hyper(w.fileid)], x11);
    var x9 := [Hyper(w.fsid)] + x10;
    ReadsAppend(b9, b10, rest, [Hyper(w.fsid)], x10);
    var x8 := [Word(w.rdev2)] + x9;
    ReadsAppend(b8, b9, rest, [Word(w.rdev2)], x9);
    var x7 := [Word(w.rdev1)] + x8;
    ReadsAppend(b7, b8, rest, [Word(w.rdev1)], x8);
    var x6 := [Hyper(w.used)] + x7;
    ReadsAppend(b6, b7, rest, [Hyper(w.used)], x7);
    var x5 := [Hyper(w.size)] + x6;
    ReadsAppend(b5, b6, rest, [Hyper(w.size)], x6);
    var x4 := [Word(w.gid)] + x5;
    ReadsAppend(b4, b5, rest, [Word(w.gid)], x5);
    var x3 := [Word(w.uid)] + x4;
    ReadsAppend(b3, b4, rest, [Word(w.uid)], x4);
    var x2 := [Word(w.nlink)] + x3;
    ReadsAppend(b2, b3, rest, [Word(w.nlink)], x3);
    var x1 := [Word(w.mode)] + x2;
    ReadsAppend(b1, b2, rest, [Word(w.mode)], x2);
    var x0 := [Word(w.ftype)] + x1;
    ReadsAppend(b0, b1, rest, [Word(w.ftype)], x1);
  }

  lemma AcceptsFattr(b: seq<Byte>, w: Fattr, rest: seq<Byte>)
    requires Reads(b, FattrItems(w), rest)
    ensures DecFattr(b) == Some((w, rest))
  {
    hide Time, EncU32, DecU32, EncU64, DecU64, EncTime, DecTime, Reads;
    var b0 := b;
    var x13 := Time(w.ctime);
    var x12 := Time(w.mtime) + x13;
    var x11 := Time(w.atime) + x12;
    var x10 := [Hyper(w.fileid)] + x11;
    var x9 := [Hyper(w.fsid)] + x10;
    var x8 := [Word(w.rdev2)] + x9;
    var x7 := [Word(w.rdev1)] + x8;
    var x6 := [Hyper(w.used)] + x7;
    var x5 := [Hyper(w.size)] + x6;
    var x4 := [Word(w.gid)] + x5;
    var x3 := [Word(w.uid)] + x4;
    var x2 := [Word(w.nlink)] + x3;
    var x1 := [Word(w.mode)] + x2;
    var x0 := [Word(w.ftype)] + x1;
    var b1 := ReadsSplit(b0, rest, [Word(w.ftype)], x1);
    WireU32(w.ftype, b0, w.ftype, b1);
    var b2 := ReadsSplit(b1, rest, [Word(w.mode)], x2);
    WireU32(w.mode, b1, w.mode, b2);
    var b3 := ReadsSplit(b2, rest, [Word(w.nlink)], x3);
    WireU32(w.nlink, b2, w.nlink, b3);
    var b4 := ReadsSplit(b3, rest, [Word(w.uid)], x4);
    WireU32(w.uid, b3, w.uid, b4);
    var b5 := ReadsSplit(b4, rest, [Word(w.gid)], x5);
    WireU32(w.gid, b4, w.gid, b5);
    var b6 := ReadsSplit(b5, rest, [Hyper(w.size)], x6);
    WireU64(w.size, b5, w.size, b6);
    var b7 := ReadsSplit(b6, rest, [Hyper(w.used)], x7);
    WireU64(w.used, b6, w.used, b7);
    var b8 := ReadsSplit(b7, rest, [Word(w.rdev1)], x8);
    WireU32(w.rdev1, b7, w.rdev1, b8);
    var b9 := ReadsSplit(b8, rest, [Word(w.rdev2)], x9);
    WireU32(w.rdev2, b8, w.rdev2, b9);
    var b10 := ReadsSplit(b9, rest, [Hyper(w.fsid)], x10);
    WireU64(w.fsid, b9, w.fsid, b10);
    var b11 := ReadsSplit(b10, rest, [Hyper(w.fileid)], x11);
    WireU64(w.fileid, b10, w.fileid, b11);
    var b12 := ReadsSplit(b11, rest, Time(w.atime), x12);
    WireTime(w.atime, b11, w.atime, b12);
    var b13 := ReadsSplit(b12, rest, Time(w.mtime), x13);
    WireTime(w.mtime, b12, w.mtime, b13);
    WireTime(w.ctime, b13, w.ctime, rest);
  }

  lemma WireFattr(v: Fattr, b: seq<Byte>, w: Fattr, rest: seq<Byte>)
    ensures Writes(EncFattr(v), FattrItems(v))
    ensures DecFattr(b) == Some((w, rest)) <==> Reads(b, FattrItems(w), rest)
  {
    hide EncFattr, DecFattr, Reads, Writes, FattrItems;
    WritesFattr(v);
    if DecFattr(b) == Some((w, rest)) { ReadsFattr(b, w, rest); }
    if Reads(b, FattrItems(w), rest) { AcceptsFattr(b, w, rest); }
  }

  /** createhow3: the mode is the first word, in four bytes with the big end first; what it is
      decides, for every input, which arm is read. */
  lemma WireCreateHow(v: CreateHow, b: seq<Byte>, w: CreateHow, rest: seq<Byte>)
    requires v.Valid()
    ensures Writes(EncCreateHow(v), CreateHowItems(v))
    ensures EncCreateHow(v)[..4] == [0, 0, 0, if v.Unchecked? then 0 else if v.Guarded? then 1 else 2]
    ensures DecCreateHow(b) == Some((w, rest)) <==> w.Valid() && Reads(b, CreateHowItems(w), rest)
  {
    WritesCreateHow(v);
    ModeBytes(v);
    hide EncCreateHow, DecCreateHow, CreateHowItems, Reads, Writes;
    if DecCreateHow(b) == Some((w, rest)) { ReadsCreateHow(b, w, rest); }
    if w.Valid() && Reads(b, CreateHowItems(w), rest) { AcceptsCreateHow(b, w, rest); }
  }

  lemma ModeBytes(v: CreateHow)
    requires v.Valid()
    ensures |EncCreateHow(v)| >= 4
    ensures EncCreateHow(v)[..4] == [0, 0, 0, if v.Unchecked? then 0 else if v.Guarded? then 1 else 2]
  {
    hide EncSattr, EncOpaque;
  }

  function Mode(h: CreateHow): U32 { if h.Unchecked? then 0 else if h.Guarded? then 1 else 2 }

  lemma WritesCreateHow(v: CreateHow)
    requires v.Valid()
    ensures Writes(EncCreateHow(v), CreateHowItems(v))
  {
    hide EncU32, EncSattr, EncOpaque, SattrItems, Writes;
    WireU32(Mode(v), [], 0, []);
    if v.Exclusive? {
      WireOpaque(v.verf, 0, [], [], []);
      WritesAppend(EncU32(2), EncOpaque(v.verf), [Word(2)], [Fixed(v.verf)]);
      assert [Word(2)] + [Fixed(v.verf)] == CreateHowItems(v);
    } else {
      WireSattr(v.attr, [], v.attr, []);
      WritesAppend(EncU32(Mode(v)), EncSattr(v.attr), [Word(Mode(v))], SattrItems(v.attr));
    }
  }

  lemma ReadsCreateHow(b: seq<Byte>, w: CreateHow, rest: seq<Byte>)
    requires DecCreateHow(b) == Some((w, rest))
    ensures w.Valid() && Reads(b, CreateHowItems(w), rest)
  {
    hide *;
    var mid := ModeRead(b, w, rest);
    if w.Exclusive? { ReadsExclusive(b, w, mid, rest); } else { ReadsAttributes(b, w, mid, rest); }
  }

  lemma ReadsExclusive(b: seq<Byte>, w: CreateHow, mid: seq<Byte>, rest: seq<Byte>)
    requires w.Exclusive? && DecU32(b) == Some((2, mid)) && DecOpaque(VERFSIZE, mid) == Some((w.verf, rest))
    ensures w.Valid() && Reads(b, CreateHowItems(w), rest)
  {
    hide EncU32, DecU32, EncOpaque, DecOpaque, Reads, Writes;
    WireU32(0, b, 2, mid);
    WireOpaque([], VERFSIZE, mid, w.verf, rest);
    ReadsAppend(b, mid, rest, [Word(2)], [Fixed(w.verf)]);
    assert [Word(2)] + [Fixed(w.verf)] == CreateHowItems(w);
  }

  lemma ReadsAttributes(b: seq<Byte>, w: CreateHow, mid: seq<Byte>, rest: seq<Byte>)
    requires !w.Exclusive? && DecU32(b) == Some((Mode(w), mid)) && DecSattr(mid) == Some((w.attr, rest))
    ensures w.Valid() && Reads(b, CreateHowItems(w), rest)
  {
    hide EncU32, DecU32, DecSattr, SattrItems, Reads, Writes;
    WireU32(0, b, Mode(w), mid);
    AnySattr(mid, w.attr, rest);
    ReadsAppend(b, mid, rest, [Word(Mode(w))], SattrItems(w.attr));
  }

  lemma ModeRead(b: seq<Byte>, w: CreateHow, rest: seq<Byte>) returns (mid: seq<Byte>)
    requires DecCreateHow(b) == Some((w, rest))
    ensures DecU32(b) == Some((if w.Exclusive? then 2 else Mode(w), mid))
    ensures if w.Exclusive? then DecOpaque(VERFSIZE, mid) == Some((w.verf, rest))
            else DecSattr(mid) == Some((w.attr, rest))
  {
    hide DecU32, DecSattr, DecOpaque;
    mid := DecU32(b).value.1;
  }

  lemma AnySattr(b: seq<Byte>, w: Sattr, rest: seq<Byte>)
    ensures DecSattr(b) == Some((w, rest)) <==> w.Valid() && Reads(b, SattrItems(w), rest)
  {
    hide EncSattr, DecSattr, SattrItems, Reads, Writes;
    WireSattr(Sattr(None, None, None, None, Keep(0), Keep(0)), b, w, rest);
  }

  lemma AcceptsCreateHow(b: seq<Byte>, w: CreateHow, rest: seq<Byte>)
    requires w.Valid() && Reads(b, CreateHowItems(w), rest)
    ensures DecCreateHow(b) == Some((w, rest))
  {
    hide EncU32, DecU32, DecSattr, EncOpaque, DecOpaque, SattrItems, Reads, Writes;
    if w.Exclusive? {
      assert [Word(2)] + [Fixed(w.verf)] == CreateHowItems(w);
      var mid := ReadsSplit(b, rest, [Word(2)], [Fixed(w.verf)]);
      WireU32(0, b, 2, mid);
      WireOpaque([], VERFSIZE, mid, w.verf, rest);
    } else {
      var mid := ReadsSplit(b, rest, [Word(Mode(w))], SattrItems(w.attr));
      WireU32(0, b, Mode(w), mid);
      AnySattr(mid, w.attr, rest);
    }
  }

  lemma WirePostAttr(v: Option<Fattr>, b: seq<Byte>, w: Option<Fattr>, rest: seq<Byte>)
    ensures Writes(EncPostAttr(v), PostAttrItems(v))
    ensures DecPostAttr(b) == Some((w, rest)) <==> Reads(b, PostAttrItems(w), rest)
  {
    hide EncFattr, DecFattr, FattrItems, EncBool, DecBool, Reads, Writes;
    WireBool(v.Some?, b, w.Some?, rest);
    if v.Some? {
      WireFattr(v.value, [], v.value, []);
      WritesAppend(EncBool(true), EncFattr(v.value), [Flag(true)], FattrItems(v.value));
    }
    if w.Some? {
      var value := w.value;
      if DecPostAttr(b) == Some((w, rest)) {
        var mid := DecBool(b).value.1;
        WireBool(true, b, true, mid);
        WireFattr(value, mid, value, rest);
        ReadsAppend(b, mid, rest, [Flag(true)], FattrItems(value));
      }
      if Reads(b, PostAttrItems(w), rest) {
        var mid := ReadsSplit(b, rest, [Flag(true)], FattrItems(value));
        WireBool(true, b, true, mid);
        WireFattr(value, mid, value, rest);
      }
    }
  }

  /** Variable-length data: refused beyond its maximum in both directions. */
  lemma WireBytes(v: seq<Byte>, max: U32, b: seq<Byte>, w: seq<Byte>, rest: seq<Byte>)
    ensures |v| <= max ==> Writes(EncBytes(v, max).value, Counted(v))
    ensures DecBytes(max, b) == Some((w, rest)) <==> |w| <= max && Reads(b, Counted(w), rest)
  {
    hide EncU32, DecU32, EncOpaque, DecOpaque, Reads, Writes;
    if |v| <= max {
      WireU32(|v|, [], 0, []);
      WireOpaque(v, 0, [], [], []);
      WritesAppend(EncU32(|v|), EncOpaque(v), [Word(|v|)], [Fixed(v)]);
      assert [Word(|v|)] + [Fixed(v)] == Counted(v);
    }
    if |w| <= max {
      assert [Word(|w|)] + [Fixed(w)] == Counted(w);
      if DecBytes(max, b) == Some((w, rest)) {
        var n := DecU32(b).value;
        WireU32(0, b, n.0, n.1);
        WireOpaque([], n.0, n.1, w, rest);
        ReadsAppend(b, n.1, rest, [Word(|w|)], [Fixed(w)]);
      }
      if Reads(b, Counted(w), rest) {
        var mid := ReadsSplit(b, rest, [Word(|w|)], [Fixed(w)]);
        WireU32(0, b, |w|, mid);
        WireOpaque([], |w|, mid, w, rest);
      }
    }
  }

  lemma WirePostFh(v: Option<seq<Byte>>, b: seq<Byte>, w: Option<seq<Byte>>, rest: seq<Byte>)
    ensures (v.Some? ==> |v.value| <= 64) ==> EncPostFh(v).Some? && Writes(EncPostFh(v).value, PostFhItems(v))
    ensures DecPostFh(b) == Some((w, rest)) <==> (w.Some? ==> |w.value| <= 64) && Reads(b, PostFhItems(w), rest)
  {
    hide EncBytes, DecBytes, EncBool, DecBool, Counted, Reads, Writes;
    WireBool(v.Some?, b, w.Some?, rest);
    if v.Some? && |v.value| <= 64 {
      WireBytes(v.value, NFS3_FHSIZE, [], [], []);
      WritesAppend(EncBool(true), EncBytes(v.value, NFS3_FHSIZE).value, [Flag(true)], Counted(v.value));
    }
    if w.Some? {
      var value := w.value;
      if DecPostFh(b) == Some((w, rest)) {
        var mid := DecBool(b).value.1;
        WireBool(true, b, true, mid);
        WireBytes([], NFS3_FHSIZE, mid, value, rest);
        ReadsAppend(b, mid, rest, [Flag(true)], Counted(value));
      }
      if |value| <= 64 && Reads(b, PostFhItems(w), rest) {
        var mid := ReadsSplit(b, rest, [Flag(true)], Counted(value));
        WireBool(true, b, true, mid);
        WireBytes([], NFS3_FHSIZE, mid, value, rest);
      }
    }
  }

  lemma WireEntry(v: Entry, b: seq<Byte>, w: Entry, rest: seq<Byte>)
    requires v.Valid()
    ensures Writes(EncEntry(v), EntryItems(v))
    ensures DecEntry(b) == Some((w, rest)) <==> w.Valid() && Reads(b, EntryItems(w), rest)
  {
    hide EncU64, DecU64, EncBytes, DecBytes, Counted, Reads, Writes;
    WritesEntry(v);
    if DecEntry(b) == Some((w, rest)) {
      var name := DecU64(b).value.1;
      var cookie := DecBytes(STRING_MAX, name).value.1;
      WireU64(0, b, w.fileid, name);
      WireBytes([], STRING_MAX, name, w.name, cookie);
      WireU64(0, cookie, w.cookie, rest);
      ReadsAppend(name, cookie, rest, Counted(w.name), [Hyper(w.cookie)]);
      ReadsAppend(b, name, rest, [Hyper(w.fileid)], Counted(w.name) + [Hyper(w.cookie)]);
    }
    if w.Valid() && Reads(b, EntryItems(w), rest) {
      var name := ReadsSplit(b, rest, [Hyper(w.fileid)], Counted(w.name) + [Hyper(w.cookie)]);
      var cookie := ReadsSplit(name, rest, Counted(w.name), [Hyper(w.cookie)]);
      WireU64(0, b, w.fileid, name);
      WireBytes([], STRING_MAX, name, w.name, cookie);
      WireU64(0, cookie, w.cookie, rest);
    }
  }

  lemma WritesEntry(v: Entry)
    requires v.Valid()
    ensures Writes(EncEntry(v), EntryItems(v))
  {
    hide EncU64, EncBytes, Counted, Writes;
    var fileid, name, cookie := EncU64(v.fileid), EncBytes(v.name, STRING_MAX).value, EncU64(v.cookie);
    WireU64(v.fileid, [], 0, []);
    WireBytes(v.name, STRING_MAX, [], [], []);
    WireU64(v.cookie, [], 0, []);
    WritesAppend(name, cookie, Counted(v.name), [Hyper(v.cookie)]);
    WritesAppend(fileid, name + cookie, [Hyper(v.fileid)], Counted(v.name) + [Hyper(v.cookie)]);
    assert fileid + (name + cookie) == EncEntry(v);
  }

  lemma {:induction false} WritesList(v: seq<Entry>)
    requires ValidList(v)
    ensures Writes(EncList(v), ListItems(v))
  {
    hide EncEntry, EntryItems, EncBool, Writes;
    WireBool(v != [], [], false, []);
    if v != [] {
      var flag, first, tail := EncBool(true), EncEntry(v[0]), EncList(v[1..]);
      WritesEntry(v[0]);
      WritesList(v[1..]);
      WritesAppend(first, tail, EntryItems(v[0]), ListItems(v[1..]));
      WritesAppend(flag, first + tail, [Flag(true)], EntryItems(v[0]) + ListItems(v[1..]));
      assert flag + (first + tail) == EncList(v);
    }
  }

  lemma {:induction false} ReadsList(b: seq<Byte>, w: seq<Entry>, rest: seq<Byte>)
    requires DecList(b) == Some((w, rest))
    ensures ValidList(w) && Reads(b, ListItems(w), rest)
    decreases |b|
  {
    hide DecEntry, EntryItems, DecBool, Reads;
    var follows := DecBool(b).value;
    WireBool(true, b, follows.0, follows.1);
    if follows.0 {
      var e := DecEntry(follows.1).value;
      WireEntry(Entry(0, [], 0), follows.1, e.0, e.1);
      ReadsList(e.1, w[1..], rest);
      ReadsAppend(follows.1, e.1, rest, EntryItems(w[0]), ListItems(w[1..]));
      ReadsAppend(b, follows.1, rest, [Flag(true)], EntryItems(w[0]) + ListItems(w[1..]));
    }
  }

  lemma {:induction false} AcceptsList(b: seq<Byte>, w: seq<Entry>, rest: seq<Byte>)
    requires ValidList(w) && Reads(b, ListItems(w), rest)
    ensures DecList(b) == Some((w, rest))
    decreases |w|
  {
    hide DecEntry, EntryItems, DecBool, Reads;
    if w == [] {
      WireBool(true, b, false, rest);
    } else {
      var entry := ReadsSplit(b, rest, [Flag(true)], EntryItems(w[0]) + ListItems(w[1..]));
      WireBool(true, b, true, entry);
      var tail := ReadsSplit(entry, rest, EntryItems(w[0]), ListItems(w[1..]));
      WireEntry(Entry(0, [], 0), entry, w[0], tail);
      AcceptsList(tail, w[1..], rest);
      assert [w[0]] + w[1..] == w;
    }
  }

  lemma WireDirlist(v: seq<Entry>, eof: bool, b: seq<Byte>, w: seq<Entry>, end: bool, rest: seq<Byte>)
    requires ValidList(v)
    ensures Writes(EncDirlist(v, eof), DirlistItems(v, eof))
    ensures DecDirlist(b) == Some(((w, end), rest)) <==> ValidList(w) && Reads(b, DirlistItems(w, end), rest)
  {
    hide EncList, DecList, ListItems, EncBool, DecBool, Reads, Writes, ValidList;
    WritesList(v);
    WireBool(eof, [], false, []);
    WritesAppend(EncList(v), EncBool(eof), ListItems(v), [Flag(eof)]);
    if DecDirlist(b) == Some(((w, end), rest)) {
      var mid := DecList(b).value.1;
      ReadsList(b, w, mid);
      WireBool(true, mid, end, rest);
      ReadsAppend(b, mid, rest, ListItems(w), [Flag(end)]);
    }
    if ValidList(w) && Reads(b, DirlistItems(w, end), rest) {
      var mid := ReadsSplit(b, rest, ListItems(w), [Flag(end)]);
      AcceptsList(b, w, mid);
      WireBool(true, mid, end, rest);
    }
  }

  /** READDIR3resok: attributes, the verifier, the entries and the eof flag. */
  lemma WireResok(attr: Option<Fattr>, verf: seq<Byte>, es: seq<Entry>, eof: bool)
    requires |verf| == VERFSIZE && ValidList(es)
    ensures Writes(EncResok(attr, verf, es, eof), ResokItems(attr, verf, es, eof))
  {
    hide EncPostAttr, PostAttrItems, EncOpaque, EncDirlist, DirlistItems, Writes, ValidList;
    var a, v, l := EncPostAttr(attr), EncOpaque(verf), EncDirlist(es, eof);
    WirePostAttr(attr, [], attr, []);
    WireOpaque(verf, 0, [], [], []);
    WireDirlist(es, eof, [], [], false, []);
    WritesAppend(v, l, [Fixed(verf)], DirlistItems(es, eof));
    WritesAppend(a, v + l, PostAttrItems(attr), [Fixed(verf)] + DirlistItems(es, eof));
    assert a + (v + l) == EncResok(attr, verf, es, eof);
  }

  lemma ReadsResok(b: seq<Byte>, attr: Option<Fattr>, verf: seq<Byte>, es: seq<Entry>, eof: bool, rest: seq<Byte>)
    ensures DecResok(b) == Some(((attr, verf, es, eof), rest)) <==>
            |verf| == VERFSIZE && ValidList(es) && Reads(b, ResokItems(attr, verf, es, eof), rest)
  {
    hide DecPostAttr, PostAttrItems, DecOpaque, DecDirlist, DirlistItems, Reads, ValidList;
    if DecResok(b) == Some(((attr, verf, es, eof), rest)) {
      var v := DecPostAttr(b).value.1;
      var l := DecOpaque(VERFSIZE, v).value.1;
      WirePostAttr(attr, b, attr, v);
      WireOpaque([], VERFSIZE, v, verf, l);
      AnyDirlist(l, es, eof, rest);
      ReadsAppend(v, l, rest, [Fixed(verf)], DirlistItems(es, eof));
      ReadsAppend(b, v, rest, PostAttrItems(attr), [Fixed(verf)] + DirlistItems(es, eof));
    }
    if |verf| == VERFSIZE && ValidList(es) && Reads(b, ResokItems(attr, verf, es, eof), rest) {
      var v := ReadsSplit(b, rest, PostAttrItems(attr), [Fixed(verf)] + DirlistItems(es, eof));
      var l := ReadsSplit(v, rest, [Fixed(verf)], DirlistItems(es, eof));
      WirePostAttr(attr, b, attr, v);
      WireOpaque([], VERFSIZE, v, verf, l);
      AnyDirlist(l, es, eof, rest);
    }
  }

  lemma AnyDirlist(b: seq<Byte>, w: seq<Entry>, end: bool, rest: seq<Byte>)
    ensures DecDirlist(b) == Some(((w, end), rest)) <==> ValidList(w) && Reads(b, DirlistItems(w, end), rest)
  {
    assert ValidList([]);
    hide EncDirlist, DecDirlist, DirlistItems, Reads, Writes, ValidList;
    WireDirlist([], true, b, w, end, rest);
  }
}
