/** XDR encoders and decoders (src/xdr.c) over byte sequences. The library primitives follow
    RFC 4506; a decoder returns the value and the bytes it left, or None where the filter
    returns FALSE. */
module Xdr {
  import opened Wrappers
  import opened Protocol

  type Byte = b: nat | b < 0x100
  type U32 = w: nat | w < 0x1_0000_0000
  type U64 = w: nat | w < 0x1_0000_0000_0000_0000
  type Dec<T> = Option<(T, seq<Byte>)>

  const VERFSIZE: nat := 8
  const SET_TO_CLIENT_TIME: nat := 2

  // -------------------------------------------------------------- primitives

  /** unsigned int, also used for enumerations (sections 4.2 and 4.3 of RFC 4506) */
  function EncU32(v: U32): (b: seq<Byte>)
    ensures |b| == 4
  {
    [v / 0x100_0000, v / 0x1_0000 % 0x100, v / 0x100 % 0x100, v % 0x100]
  }

  function DecU32(b: seq<Byte>): (r: Dec<U32>)
    ensures r.Some? <==> |b| >= 4
    ensures r.Some? ==> r.value.1 == b[4..]
  {
    if |b| < 4 then None
    else Some(((b[0] as int) * 0x100_0000 + (b[1] as int) * 0x1_0000 + (b[2] as int) * 0x100 + b[3] as int, b[4..]))
  }

  lemma RoundU32(v: U32, s: seq<Byte>)
    ensures DecU32(EncU32(v) + s) == Some((v, s))
  {
    var b := EncU32(v) + s;
    assert b[4..] == s;
    assert v == v / 0x100 * 0x100 + v % 0x100;
    assert v / 0x100 == v / 0x1_0000 * 0x100 + v / 0x100 % 0x100;
    assert v / 0x1_0000 == v / 0x100_0000 * 0x100 + v / 0x1_0000 % 0x100;
  }

  /** unsigned hyper (section 4.5) */
  function EncU64(v: U64): (b: seq<Byte>)
    ensures |b| == 8
  {
    EncU32(v / 0x1_0000_0000) + EncU32(v % 0x1_0000_0000)
  }

  function DecU64(b: seq<Byte>): (r: Dec<U64>)
    ensures r.Some? <==> |b| >= 8
    ensures r.Some? ==> r.value.1 == b[8..]
  {
    if |b| < 8 then None
    else
      var hi, lo := DecU32(b).value, DecU32(b[4..]).value;
      Some((hi.0 * 0x1_0000_0000 + lo.0, b[8..]))
  }

  lemma RoundU64(v: U64, s: seq<Byte>)
    ensures DecU64(EncU64(v) + s) == Some((v, s))
  {
    hide EncU32, DecU32;
    var hi, lo := EncU32(v / 0x1_0000_0000), EncU32(v % 0x1_0000_0000);
    var b := EncU64(v) + s;
    assert b == hi + (lo + s);
    RoundU32(v / 0x1_0000_0000, lo + s);
    RoundU32(v % 0x1_0000_0000, s);
    assert b[8..] == s;
    assert b[4..] == lo + s;
  }

  /** bool (section 4.4); the library's decoder takes any nonzero word for TRUE. */
  function EncBool(v: bool): seq<Byte> { EncU32(if v then 1 else 0) }

  function DecBool(b: seq<Byte>): (r: Dec<bool>)
    ensures r.Some? ==> |b| >= 4 && r.value.1 == b[4..]
  {
    var w := DecU32(b);
    if w.None? then None else Some((w.value.0 != 0, w.value.1))
  }

  lemma RoundBool(v: bool, s: seq<Byte>)
    ensures DecBool(EncBool(v) + s) == Some((v, s))
  {
    RoundU32(if v then 1 else 0, s);
  }

  function Pad4(n: nat): (p: nat)
    ensures p % 4 == 0 && n <= p < n + 4
  {
    (n + 3) / 4 * 4
  }

  /** fixed-length opaque data (section 4.9): zero bytes up to a multiple of four */
  function EncOpaque(data: seq<Byte>): (b: seq<Byte>)
    ensures |b| == Pad4(|data|) && |b| % 4 == 0
  {
    data + seq(Pad4(|data|) - |data|, _ => 0)
  }

  function DecOpaque(n: nat, b: seq<Byte>): (r: Dec<seq<Byte>>)
    ensures r.Some? <==> |b| >= Pad4(n)
    ensures r.Some? ==> |r.value.0| == n && r.value.1 == b[Pad4(n)..]
  {
    if |b| < Pad4(n) then None else Some((b[..n], b[Pad4(n)..]))
  }

  lemma RoundOpaque(data: seq<Byte>, s: seq<Byte>)
    ensures DecOpaque(|data|, EncOpaque(data) + s) == Some((data, s))
  {
    var b := EncOpaque(data) + s;
    assert b[..|data|] == data;
    assert b[Pad4(|data|)..] == s;
  }

  /** variable-length opaque data and strings with a maximum length (sections 4.10 and 4.11);
      both directions fail beyond it */
  function EncBytes(data: seq<Byte>, max: U32): (r: Option<seq<Byte>>)
    ensures r.Some? <==> |data| <= max
    ensures r.Some? ==> |r.value| == 4 + Pad4(|data|)
  {
    if |data| > max then None else Some(EncU32(|data|) + EncOpaque(data))
  }

  function DecBytes(max: U32, b: seq<Byte>): (r: Dec<seq<Byte>>)
    ensures r.Some? ==> |r.value.0| <= max && |b| == 4 + Pad4(|r.value.0|) + |r.value.1|
  {
    var n := DecU32(b);
    if n.None? || n.value.0 > max then None else DecOpaque(n.value.0, n.value.1)
  }

  lemma RoundBytes(data: seq<Byte>, max: U32, s: seq<Byte>)
    requires |data| <= max
    ensures DecBytes(max, EncBytes(data, max).value + s) == Some((data, s))
  {
    hide EncU32, DecU32, EncOpaque, DecOpaque;
    assert EncU32(|data|) + EncOpaque(data) + s == EncU32(|data|) + (EncOpaque(data) + s);
    RoundU32(|data|, EncOpaque(data) + s);
    RoundOpaque(data, s);
  }

  const STRING_MAX: U32 := 0xFFFF_FFFF

  // ------------------------------------------------------------ file handles

  /** xdr_nfs_fh3: at most 64 bytes */
  function EncHandle(h: seq<Byte>): Option<seq<Byte>> { EncBytes(h, NFS3_FHSIZE) }

  function DecHandle(b: seq<Byte>): Dec<seq<Byte>> { DecBytes(NFS3_FHSIZE, b) }

  /** xdr_post_op_fh3 */
  function EncPostFh(h: Option<seq<Byte>>): Option<seq<Byte>> {
    if h.None? then Some(EncBool(false))
    else
      var e := EncHandle(h.value);
      if e.None? then None else Some(EncBool(true) + e.value)
  }

  function DecPostFh(b: seq<Byte>): Dec<Option<seq<Byte>>> {
    var follows := DecBool(b);
    if follows.None? then None
    else if !follows.value.0 then Some((None, follows.value.1))
    else
      var h := DecHandle(follows.value.1);
      if h.None? then None else Some((Some(h.value.0), h.value.1))
  }

  /** A post-operation handle can be sent exactly if it has at most 64 bytes, and then it
      comes back unchanged. */
  lemma RoundPostFh(h: Option<seq<Byte>>, s: seq<Byte>)
    ensures EncPostFh(h).Some? <==> (h.Some? ==> |h.value| <= NFS3_FHSIZE)
    ensures EncPostFh(h).Some? ==>
              |EncPostFh(h).value| % 4 == 0 && DecPostFh(EncPostFh(h).value + s) == Some((h, s))
  {
    hide EncU32, DecU32, EncBytes, DecBytes;
    if h.None? {
      RoundBool(false, s);
    } else if |h.value| <= NFS3_FHSIZE {
      var e := EncHandle(h.value).value;
      assert EncBool(true) + e + s == EncBool(true) + (e + s);
      RoundBool(true, e + s);
      RoundBytes(h.value, NFS3_FHSIZE, s);
    }
  }

  // -------------------------------------------------------------- attributes

  datatype NfsTime = NfsTime(seconds: U32, nseconds: U32)

  function EncTime(t: NfsTime): (b: seq<Byte>) ensures |b| == 8 { EncU32(t.seconds) + EncU32(t.nseconds) }

  function DecTime(b: seq<Byte>): (r: Dec<NfsTime>)
    ensures r.Some? ==> |b| >= 8 && r.value.1 == b[8..]
  {
    if |b| < 8 then None
    else Some((NfsTime(DecU32(b).value.0, DecU32(b[4..]).value.0), b[8..]))
  }

  lemma RoundTime(t: NfsTime, s: seq<Byte>)
    ensures DecTime(EncTime(t) + s) == Some((t, s))
  {
    hide EncU32, DecU32;
    var hi, lo := EncU32(t.seconds), EncU32(t.nseconds);
    var b := EncTime(t) + s;
    assert b == hi + (lo + s);
    RoundU32(t.seconds, lo + s);
    RoundU32(t.nseconds, s);
    assert b[4..] == lo + s && b[8..] == s;
  }

  /** set_mode3, set_uid3, set_gid3 */
  function EncSet32(v: Option<U32>): (b: seq<Byte>)
    ensures |b| % 4 == 0
  {
    if v.None? then EncBool(false) else EncBool(true) + EncU32(v.value)
  }

  function DecSet32(b: seq<Byte>): Dec<Option<U32>> {
    var set_it := DecBool(b);
    if set_it.None? then None
    else if !set_it.value.0 then Some((None, set_it.value.1))
    else
      var v := DecU32(set_it.value.1);
      if v.None? then None else Some((Some(v.value.0), v.value.1))
  }

  lemma RoundSet32(v: Option<U32>, s: seq<Byte>)
    ensures DecSet32(EncSet32(v) + s) == Some((v, s))
  {
    hide EncU32, DecU32;
    if v.None? {
      RoundBool(false, s);
    } else {
      assert EncSet32(v) + s == EncBool(true) + (EncU32(v.value) + s);
      RoundBool(true, EncU32(v.value) + s);
      RoundU32(v.value, s);
    }
  }

  /** set_size3 */
  function EncSet64(v: Option<U64>): (b: seq<Byte>)
    ensures |b| % 4 == 0
  {
    if v.None? then EncBool(false) else EncBool(true) + EncU64(v.value)
  }

  function DecSet64(b: seq<Byte>): Dec<Option<U64>> {
    var set_it := DecBool(b);
    if set_it.None? then None
    else if !set_it.value.0 then Some((None, set_it.value.1))
    else
      var v := DecU64(set_it.value.1);
      if v.None? then None else Some((Some(v.value.0), v.value.1))
  }

  lemma RoundSet64(v: Option<U64>, s: seq<Byte>)
    ensures DecSet64(EncSet64(v) + s) == Some((v, s))
  {
    hide EncU32, DecU32, EncU64, DecU64;
    if v.None? {
      RoundBool(false, s);
    } else {
      assert EncSet64(v) + s == EncBool(true) + (EncU64(v.value) + s);
      RoundBool(true, EncU64(v.value) + s);
      RoundU64(v.value, s);
    }
  }

  /** set_atime, set_mtime: a time follows only SET_TO_CLIENT_TIME; any other word stands alone. */
  datatype SetTime = Keep(how: U32) | Client(time: NfsTime) {
    predicate Valid() { Keep? ==> how != SET_TO_CLIENT_TIME }
  }

  function EncSetTime(v: SetTime): (b: seq<Byte>)
    ensures |b| % 4 == 0
  {
    match v
    case Keep(how) => EncU32(how)
    case Client(time) => EncU32(SET_TO_CLIENT_TIME) + EncTime(time)
  }

  function DecSetTime(b: seq<Byte>): Dec<SetTime> {
    var how := DecU32(b);
    if how.None? then None
    else if how.value.0 != SET_TO_CLIENT_TIME then Some((Keep(how.value.0), how.value.1))
    else
      var t := DecTime(how.value.1);
      if t.None? then None else Some((Client(t.value.0), t.value.1))
  }

  lemma RoundSetTime(v: SetTime, s: seq<Byte>)
    requires v.Valid()
    ensures DecSetTime(EncSetTime(v) + s) == Some((v, s))
  {
    hide EncU32, DecU32, EncTime, DecTime;
    match v
    case Keep(how) => RoundU32(how, s);
    case Client(time) =>
      assert EncSetTime(v) + s == EncU32(SET_TO_CLIENT_TIME) + (EncTime(time) + s);
      RoundU32(SET_TO_CLIENT_TIME, EncTime(time) + s);
      RoundTime(time, s);
  }

  datatype Sattr = Sattr(mode: Option<U32>, uid: Option<U32>, gid: Option<U32>, size: Option<U64>,
                         atime: SetTime, mtime: SetTime) {
    predicate Valid() { atime.Valid() && mtime.Valid() }
  }

  /** xdr_sattr3 */
  function EncSattr(a: Sattr): seq<Byte> {
    EncSet32(a.mode) + (EncSet32(a.uid) + (EncSet32(a.gid) + (EncSet64(a.size) +
    (EncSetTime(a.atime) + EncSetTime(a.mtime)))))
  }

  function DecSattr(b: seq<Byte>): Dec<Sattr> {
    var mode := DecSet32(b);
    if mode.None? then None else
    var uid := DecSet32(mode.value.1);
    if uid.None? then None else
    var gid := DecSet32(uid.value.1);
    if gid.None? then None else
    var size := DecSet64(gid.value.1);
    if size.None? then None else
    var atime := DecSetTime(size.value.1);
    if atime.None? then None else
    var mtime := DecSetTime(atime.value.1);
    if mtime.None? then None else
    Some((Sattr(mode.value.0, uid.value.0, gid.value.0, size.value.0, atime.value.0, mtime.value.0), mtime.value.1))
  }

  lemma SumOfFours(a: nat, b: nat)
    requires a % 4 == 0 && b % 4 == 0
    ensures (a + b) % 4 == 0
  {
  }

  lemma RoundSattr(a: Sattr, s: seq<Byte>)
    requires a.Valid()
    ensures DecSattr(EncSattr(a) + s) == Some((a, s)) && |EncSattr(a)| % 4 == 0
  {
    hide EncSet32, DecSet32, EncSet64, DecSet64, EncSetTime, DecSetTime;
    var s5 := EncSetTime(a.mtime) + s;
    var s4 := EncSetTime(a.atime) + s5;
    var s3 := EncSet64(a.size) + s4;
    var s2 := EncSet32(a.gid) + s3;
    var s1 := EncSet32(a.uid) + s2;
    assert EncSattr(a) + s == EncSet32(a.mode) + s1;
    SumOfFours(|EncSetTime(a.atime)|, |EncSetTime(a.mtime)|);
    SumOfFours(|EncSet64(a.size)|, |EncSetTime(a.atime)| + |EncSetTime(a.mtime)|);
    SumOfFours(|EncSet32(a.mode)|, |EncSet32(a.uid)|);
    SumOfFours(|EncSet32(a.mode)| + |EncSet32(a.uid)|, |EncSet32(a.gid)|);
    SumOfFours(|EncSet32(a.mode)| + |EncSet32(a.uid)| + |EncSet32(a.gid)|,
               |EncSet64(a.size)| + |EncSetTime(a.atime)| + |EncSetTime(a.mtime)|);
    RoundSet32(a.mode, s1);
    RoundSet32(a.uid, s2);
    RoundSet32(a.gid, s3);
    RoundSet64(a.size, s4);
    RoundSetTime(a.atime, s5);
    RoundSetTime(a.mtime, s);
  }

  datatype CreateHow = Unchecked(attr: Sattr) | Guarded(attr: Sattr) | Exclusive(verf: seq<Byte>) {
    predicate Valid() { if Exclusive? then |verf| == VERFSIZE else attr.Valid() }
  }

  /** xdr_createhow3: any other mode is refused */
  function EncCreateHow(h: CreateHow): seq<Byte> {
    match h
    case Unchecked(attr) => EncU32(0) + EncSattr(attr)
    case Guarded(attr) => EncU32(1) + EncSattr(attr)
    case Exclusive(verf) => EncU32(2) + EncOpaque(verf)
  }

  function DecCreateHow(b: seq<Byte>): Dec<CreateHow> {
    var mode := DecU32(b);
    if mode.None? || mode.value.0 > 2 then None
    else if mode.value.0 == 2 then
      var verf := DecOpaque(VERFSIZE, mode.value.1);
      if verf.None? then None else Some((Exclusive(verf.value.0), verf.value.1))
    else
      var attr := DecSattr(mode.value.1);
      if attr.None? then None
      else Some((if mode.value.0 == 0 then Unchecked(attr.value.0) else Guarded(attr.value.0), attr.value.1))
  }

  lemma RoundCreateHow(h: CreateHow, s: seq<Byte>)
    requires h.Valid()
    ensures DecCreateHow(EncCreateHow(h) + s) == Some((h, s)) && |EncCreateHow(h)| % 4 == 0
  {
    hide EncU32, DecU32, EncSattr, DecSattr, EncOpaque, DecOpaque;
    var mode: U32 := match h { case Unchecked(_) => 0 case Guarded(_) => 1 case Exclusive(_) => 2 };
    var arm := if h.Exclusive? then EncOpaque(h.verf) else EncSattr(h.attr);
    Regroup(EncU32(mode), arm, s);
    RoundU32(mode, arm + s);
    if h.Exclusive? { RoundOpaque(h.verf, s); } else { RoundSattr(h.attr, s); }
  }

  // ---------------------------------------------------------- file attributes

  datatype Fattr = Fattr(ftype: U32, mode: U32, nlink: U32, uid: U32, gid: U32, size: U64, used: U64,
                         rdev1: U32, rdev2: U32, fsid: U64, fileid: U64, atime: NfsTime, mtime: NfsTime, ctime: NfsTime)

  /** xdr_fattr3 */
  function EncFattr(a: Fattr): (b: seq<Byte>)
    ensures |b| == 84
  {
    EncU32(a.ftype) + (EncU32(a.mode) + (EncU32(a.nlink) + (EncU32(a.uid) + (EncU32(a.gid) +
    (EncU64(a.size) + (EncU64(a.used) +
    (EncU32(a.rdev1) + (EncU32(a.rdev2) + (EncU64(a.fsid) + (EncU64(a.fileid) +
    (EncTime(a.atime) + (EncTime(a.mtime) + EncTime(a.ctime)))))))))))))
  }

  function DecFattr(b: seq<Byte>): Dec<Fattr> {
    var ftype := DecU32(b);
    if ftype.None? then None else
    var mode := DecU32(ftype.value.1);
    if mode.None? then None else
    var nlink := DecU32(mode.value.1);
    if nlink.None? then None else
    var uid := DecU32(nlink.value.1);
    if uid.None? then None else
    var gid := DecU32(uid.value.1);
    if gid.None? then None else
    var size := DecU64(gid.value.1);
    if size.None? then None else
    var used := DecU64(size.value.1);
    if used.None? then None else
    var rdev1 := DecU32(used.value.1);
    if rdev1.None? then None else
    var rdev2 := DecU32(rdev1.value.1);
    if rdev2.None? then None else
    var fsid := DecU64(rdev2.value.1);
    if fsid.None? then None else
    var fileid := DecU64(fsid.value.1);
    if fileid.None? then None else
    var atime := DecTime(fileid.value.1);
    if atime.None? then None else
    var mtime := DecTime(atime.value.1);
    if mtime.None? then None else
    var ctime := DecTime(mtime.value.1);
    if ctime.None? then None else
    Some((Fattr(ftype.value.0, mode.value.0, nlink.value.0, uid.value.0, gid.value.0, size.value.0, used.value.0,
                rdev1.value.0, rdev2.value.0, fsid.value.0, fileid.value.0,
                atime.value.0, mtime.value.0, ctime.value.0),
          ctime.value.1))
  }

  lemma Regroup(a: seq<Byte>, b: seq<Byte>, c: seq<Byte>)
    ensures (a + b) + c == a + (b + c)
  {
  }

  lemma RoundFattr(a: Fattr, s: seq<Byte>)
    ensures DecFattr(EncFattr(a) + s) == Some((a, s))
  {
    hide EncU32, DecU32, EncU64, DecU64, EncTime, DecTime;
    var t13 := EncTime(a.ctime);
    var t12 := EncTime(a.mtime) + t13;
    var t11 := EncTime(a.atime) + t12;
    var t10 := EncU64(a.fileid) + t11;
    var t9 := EncU64(a.fsid) + t10;
    var t8 := EncU32(a.rdev2) + t9;
    var t7 := EncU32(a.rdev1) + t8;
    var t6 := EncU64(a.used) + t7;
    var t5 := EncU64(a.size) + t6;
    var t4 := EncU32(a.gid) + t5;
    var t3 := EncU32(a.uid) + t4;
    var t2 := EncU32(a.nlink) + t3;
    var t1 := EncU32(a.mode) + t2;
    Regroup(EncU32(a.ftype), t1, s);
    RoundU32(a.ftype, t1 + s);
    Regroup(EncU32(a.mode), t2, s);
    RoundU32(a.mode, t2 + s);
    Regroup(EncU32(a.nlink), t3, s);
    RoundU32(a.nlink, t3 + s);
    Regroup(EncU32(a.uid), t4, s);
    RoundU32(a.uid, t4 + s);
    Regroup(EncU32(a.gid), t5, s);
    RoundU32(a.gid, t5 + s);
    Regroup(EncU64(a.size), t6, s);
    RoundU64(a.size, t6 + s);
    Regroup(EncU64(a.used), t7, s);
    RoundU64(a.used, t7 + s);
    Regroup(EncU32(a.rdev1), t8, s);
    RoundU32(a.rdev1, t8 + s);
    Regroup(EncU32(a.rdev2), t9, s);
    RoundU32(a.rdev2, t9 + s);
    Regroup(EncU64(a.fsid), t10, s);
    RoundU64(a.fsid, t10 + s);
    Regroup(EncU64(a.fileid), t11, s);
    RoundU64(a.fileid, t11 + s);
    Regroup(EncTime(a.atime), t12, s);
    RoundTime(a.atime, t12 + s);
    Regroup(EncTime(a.mtime), t13, s);
    RoundTime(a.mtime, t13 + s);
    RoundTime(a.ctime, s);
  }

  /** xdr_post_op_attr */
  function EncPostAttr(a: Option<Fattr>): (b: seq<Byte>)
    ensures |b| == if a.Some? then 88 else 4
  {
    if a.None? then EncBool(false) else EncBool(true) + EncFattr(a.value)
  }

  function DecPostAttr(b: seq<Byte>): Dec<Option<Fattr>> {
    var follows := DecBool(b);
    if follows.None? then None
    else if !follows.value.0 then Some((None, follows.value.1))
    else
      var a := DecFattr(follows.value.1);
      if a.None? then None else Some((Some(a.value.0), a.value.1))
  }

  lemma RoundPostAttr(a: Option<Fattr>, s: seq<Byte>)
    ensures DecPostAttr(EncPostAttr(a) + s) == Some((a, s))
  {
    hide EncFattr, DecFattr, EncU32, DecU32;
    if a.None? {
      RoundBool(false, s);
    } else {
      assert EncPostAttr(a) + s == EncBool(true) + (EncFattr(a.value) + s);
      RoundBool(true, EncFattr(a.value) + s);
      RoundFattr(a.value, s);
    }
  }

  // -------------------------------------------------------- directory listings

  datatype Entry = Entry(fileid: U64, name: seq<Byte>, cookie: U64) {
    predicate Valid() { |name| <= STRING_MAX }
  }

  /** What precedes the link to the next entry in xdr_entry3. */
  function EncEntry(e: Entry): (b: seq<Byte>)
    requires e.Valid()
    ensures |b| == 20 + Pad4(|e.name|)
  {
    EncU64(e.fileid) + EncBytes(e.name, STRING_MAX).value + EncU64(e.cookie)
  }

  function DecEntry(b: seq<Byte>): (r: Dec<Entry>)
    ensures r.Some? ==> r.value.0.Valid() && |r.value.1| < |b|
  {
    var fileid := DecU64(b);
    if fileid.None? then None else
    var name := DecBytes(STRING_MAX, fileid.value.1);
    if name.None? then None else
    var cookie := DecU64(name.value.1);
    if cookie.None? then None else Some((Entry(fileid.value.0, name.value.0, cookie.value.0), cookie.value.1))
  }

  lemma RoundEntry(e: Entry, s: seq<Byte>)
    requires e.Valid()
    ensures DecEntry(EncEntry(e) + s) == Some((e, s))
  {
    hide EncU64, DecU64, EncBytes, DecBytes;
    var name, cookie := EncBytes(e.name, STRING_MAX).value, EncU64(e.cookie);
    assert EncEntry(e) + s == EncU64(e.fileid) + (name + (cookie + s));
    RoundU64(e.fileid, name + (cookie + s));
    RoundBytes(e.name, STRING_MAX, cookie + s);
    RoundU64(e.cookie, s);
  }

  ghost predicate ValidList(es: seq<Entry>) { forall i :: 0 <= i < |es| ==> es[i].Valid() }

  /** A pointer to an entry: a flag, and if set the entry with the pointer to the next one. */
  ghost function EncList(es: seq<Entry>): seq<Byte>
    requires ValidList(es)
  {
    if es == [] then EncBool(false) else EncBool(true) + EncEntry(es[0]) + EncList(es[1..])
  }

  function DecList(b: seq<Byte>): Dec<seq<Entry>>
    decreases |b|
  {
    var follows := DecBool(b);
    if follows.None? then None
    else if !follows.value.0 then Some(([], follows.value.1))
    else
      var e := DecEntry(follows.value.1);
      if e.None? then None else
      var rest := DecList(e.value.1);
      if rest.None? then None else Some(([e.value.0] + rest.value.0, rest.value.1))
  }

  /** The bytes an entry takes with its link: what the READDIR code accounts for it. */
  function EntrySize(e: Entry): nat { 24 + Pad4(|e.name|) }

  function ListSize(es: seq<Entry>): nat {
    if es == [] then 0 else EntrySize(es[0]) + ListSize(es[1..])
  }

  /** Entry lists of any length come back, leaving exactly what followed them. */
  lemma {:induction false} RoundList(es: seq<Entry>, s: seq<Byte>)
    requires ValidList(es)
    ensures DecList(EncList(es) + s) == Some((es, s)) && |EncList(es)| == 4 + ListSize(es) && |EncList(es)| % 4 == 0
    decreases |es|
  {
    hide EncU32, DecU32, EncEntry, DecEntry;
    if es == [] {
      RoundBool(false, s);
    } else {
      var tail := EncList(es[1..]) + s;
      assert EncList(es) + s == EncBool(true) + (EncEntry(es[0]) + tail);
      RoundBool(true, EncEntry(es[0]) + tail);
      RoundEntry(es[0], tail);
      RoundList(es[1..], s);
      assert es == [es[0]] + es[1..];
    }
  }

  /** xdr_dirlist3 */
  ghost function EncDirlist(es: seq<Entry>, eof: bool): seq<Byte>
    requires ValidList(es)
  {
    EncList(es) + EncBool(eof)
  }

  function DecDirlist(b: seq<Byte>): Dec<(seq<Entry>, bool)> {
    var es := DecList(b);
    if es.None? then None else
    var eof := DecBool(es.value.1);
    if eof.None? then None else Some(((es.value.0, eof.value.0), eof.value.1))
  }

  lemma RoundDirlist(es: seq<Entry>, eof: bool, s: seq<Byte>)
    requires ValidList(es)
    ensures DecDirlist(EncDirlist(es, eof) + s) == Some(((es, eof), s))
    ensures |EncDirlist(es, eof)| == 8 + ListSize(es) && |EncDirlist(es, eof)| % 4 == 0
  {
    hide EncList, DecList, EncU32, DecU32, EncBool, DecBool, ListSize, ValidList;
    Regroup(EncList(es), EncBool(eof), s);
    RoundList(es, EncBool(eof) + s);
    RoundBool(eof, s);
  }

  /** xdr_READDIR3resok */
  ghost function EncResok(attr: Option<Fattr>, verf: seq<Byte>, es: seq<Entry>, eof: bool): seq<Byte>
    requires |verf| == VERFSIZE && ValidList(es)
  {
    EncPostAttr(attr) + EncOpaque(verf) + EncDirlist(es, eof)
  }

  function DecResok(b: seq<Byte>): Dec<(Option<Fattr>, seq<Byte>, seq<Entry>, bool)> {
    var attr := DecPostAttr(b);
    if attr.None? then None else
    var verf := DecOpaque(VERFSIZE, attr.value.1);
    if verf.None? then None else
    var list := DecDirlist(verf.value.1);
    if list.None? then None
    else Some(((attr.value.0, verf.value.0, list.value.0.0, list.value.0.1), list.value.1))
  }

  /** The exact size of a READDIR answer with attributes: the 104 bytes the code starts from
      plus 24 and the padded name for every entry. */
  lemma ResokSize(attr: Option<Fattr>, verf: seq<Byte>, es: seq<Entry>, eof: bool)
    requires |verf| == VERFSIZE && ValidList(es)
    ensures |EncResok(attr, verf, es, eof)| == (if attr.Some? then 104 else 20) + ListSize(es)
  {
    hide EncPostAttr, EncDirlist;
    RoundDirlist(es, eof, []);
  }

  /** A whole READDIR answer comes back, leaving exactly what followed it. */
  lemma RoundResok(attr: Option<Fattr>, verf: seq<Byte>, es: seq<Entry>, eof: bool, s: seq<Byte>)
    requires |verf| == VERFSIZE && ValidList(es)
    ensures DecResok(EncResok(attr, verf, es, eof) + s) == Some(((attr, verf, es, eof), s))
  {
    hide EncPostAttr, DecPostAttr, EncDirlist, DecDirlist, EncOpaque, DecOpaque;
    var tail := EncDirlist(es, eof) + s;
    assert EncResok(attr, verf, es, eof) + s == EncPostAttr(attr) + (EncOpaque(verf) + tail);
    RoundPostAttr(attr, EncOpaque(verf) + tail);
    RoundOpaque(verf, tail);
    RoundDirlist(es, eof, s);
  }
}
