/** Export lookup (the hand-written end of src/Config/y.tab.c): the options of the longest
    exported prefix of a path that admits the client, left in global variables. */
module Exports {
  import opened Wrappers

  const ANON_NOTSPECIAL: nat := 0xffffffff

  datatype Host = Host(addr: bv32, mask: bv32, options: int, anonuid: nat, anongid: nat, password: string, pwhash: nat)
  datatype Item = Item(path: string, hosts: seq<Host>, fsid: nat)

  predicate Admits(h: Host, remote: bv32) { (remote & h.mask) == h.addr }

  /** The address has no bits outside its mask, and the client agrees with it inside. */
  predicate Agrees(h: Host, remote: bv32) {
    h.addr & !h.mask == 0 && (remote ^ h.addr) & h.mask == 0
  }

  lemma AdmitsAgrees(h: Host, remote: bv32)
    requires Admits(h, remote)
    ensures Agrees(h, remote)
  {
  }

  lemma AgreesAdmits(h: Host, remote: bv32)
    requires Agrees(h, remote)
    ensures Admits(h, remote)
  {
  }

  lemma AdmitsIff(h: Host, remote: bv32)
    ensures Admits(h, remote) <==> Agrees(h, remote)
  {
    hide Admits, Agrees;
    if Admits(h, remote) { AdmitsAgrees(h, remote); }
    if Agrees(h, remote) { AgreesAdmits(h, remote); }
  }

  /** `h` is the first host of the item that admits the client. */
  ghost predicate FirstHost(item: Item, remote: bv32, h: Host) {
    exists k :: 0 <= k < |item.hosts| && item.hosts[k] == h && Admits(h, remote) &&
                forall j :: 0 <= j < k ==> !Admits(item.hosts[j], remote)
  }

  ghost predicate Admitted(item: Item, remote: bv32) {
    exists k :: 0 <= k < |item.hosts| && Admits(item.hosts[k], remote)
  }

  /** find_host */
  method FindHost(remote: bv32, item: Item) returns (r: Option<Host>)
    ensures r.None? <==> !Admitted(item, remote)
    ensures r.Some? ==> FirstHost(item, remote, r.value)
  {
    hide Admits;
    var k := 0;
    while k < |item.hosts|
      invariant 0 <= k <= |item.hosts| && forall j :: 0 <= j < k ==> !Admits(item.hosts[j], remote)
    {
      if Admits(item.hosts[k], remote) { return Some(item.hosts[k]); }
      k := k + 1;
    }
    return None;
  }

  /** The export covers the path and admits the client. The test is on strings, not on path
      components, and an empty export path covers nothing. */
  ghost predicate Eligible(item: Item, path: string, remote: bv32) {
    item.path != "" && item.path <= path && Admitted(item, remote)
  }

  /** Item i is the earliest of those with the longest path among the eligible ones. */
  ghost predicate Best(list: seq<Item>, path: string, remote: bv32, i: nat) {
    && i < |list| && Eligible(list[i], path, remote)
    && forall j :: 0 <= j < |list| && Eligible(list[j], path, remote) ==>
         |list[j].path| < |list[i].path| || (|list[j].path| == |list[i].path| && i <= j)
  }

  /** There is at most one such item. */
  lemma BestUnique(list: seq<Item>, path: string, remote: bv32, i: nat, j: nat)
    requires Best(list, path, remote, i) && Best(list, path, remote, j)
    ensures i == j
  {
    assert Eligible(list[i], path, remote) && Eligible(list[j], path, remote);
  }

  /** strstr(path, "/../") */
  predicate HasDotDot(path: string) {
    exists k :: 0 <= k < |path| && DotDotAt(path, k)
  }

  predicate DotDotAt(path: string, k: nat) {
    k + 4 <= |path| && path[k..k + 4] == "/../"
  }

  /** Item l is looked at: it covers the path and is longer than every eligible item before it. */
  ghost predicate LookedAt(list: seq<Item>, path: string, remote: bv32, l: nat) {
    && l < |list| && list[l].path != "" && list[l].path <= path
    && forall j :: 0 <= j < l && Eligible(list[j], path, remote) ==> |list[j].path| < |list[l].path|
  }

  /** The last item looked at: its fsid is what the caller's pointer receives. */
  ghost predicate LastLookedAt(list: seq<Item>, path: string, remote: bv32, l: nat) {
    LookedAt(list, path, remote, l) && forall j :: l < j < |list| ==> !LookedAt(list, path, remote, j)
  }

  class Options {
    var opts: int
    var path: Option<string>
    var fsid: nat
    var pwhash: nat
    var anonuid: nat
    var anongid: nat

    /** The globals describe host h of an item. */
    ghost predicate Describes(item: Item, h: Host)
      reads this
    {
      opts == h.options && path == Some(item.path) && fsid == item.fsid &&
      pwhash == h.pwhash && anonuid == h.anonuid && anongid == h.anongid
    }

    ghost predicate Nothing()
      reads this
    {
      opts == -1 && path == None && fsid == 0 && anonuid == ANON_NOTSPECIAL && anongid == ANON_NOTSPECIAL
    }

    /** The globals and the password are those of the best item among the first n. */
    ghost predicate BestOf(list: seq<Item>, p: string, remote: bv32, password: Option<string>)
      reads this
    {
      if exists i: nat :: Best(list, p, remote, i)
      then exists i: nat, h :: Best(list, p, remote, i) && FirstHost(list[i], remote, h)
                               && Describes(list[i], h) && password == Some(h.password)
      else Nothing() && password == None
    }

    /** exports_options; `password` and `fsidOut` are what the caller's pointers receive, None
        if nothing is stored. */
    method Lookup(list: seq<Item>, p: Option<string>, remote: bv32)
      returns (result: int, password: Option<string>, fsidOut: Option<nat>)
      modifies this
      ensures result == opts
      ensures p.None? || HasDotDot(p.value) ==>
                Nothing() && pwhash == old(pwhash) && password == None && fsidOut == None
      ensures p.Some? && !HasDotDot(p.value) ==>
                && BestOf(list, p.value, remote, password)
                && (password == None ==> pwhash == old(pwhash))
                && (fsidOut.None? ==> forall l: nat :: !LookedAt(list, p.value, remote, l))
                && (fsidOut.Some? ==>
                      exists l: nat :: LastLookedAt(list, p.value, remote, l) && fsidOut == Some(list[l].fsid))
    {
      hide Best, FirstHost, LookedAt, LastLookedAt, Admitted, NoneEligible, HasDotDot;
      opts, path, fsid, anonuid, anongid := -1, None, 0, ANON_NOTSPECIAL, ANON_NOTSPECIAL;
      password, fsidOut := None, None;
      if p.None? { return opts, None, None; }
      var dots := FindDotDot(p.value);
      if dots { return opts, None, None; }
      var lastLen := 0;
      var n := 0;
      ghost var best: Option<nat> := None;
      ghost var host: Option<Host> := None;
      ghost var last: Option<nat> := None;
      NothingYet(p.value, remote);
      assert list[..0] == [];
      while n < |list|
        invariant 0 <= n <= |list|
        invariant BestSoFar(list[..n], p.value, remote, best)
        invariant best.None? ==> Nothing() && password == None && pwhash == old(pwhash) && lastLen == 0
        invariant best.Some? ==>
                    && best.value < n && lastLen == |list[best.value].path|
                    && host.Some? && FirstHost(list[best.value], remote, host.value)
                    && Describes(list[best.value], host.value)
                    && password == Some(host.value.password)
        invariant LastSoFar(list[..n], p.value, remote, last)
        invariant fsidOut == if last.None? then None else Some(list[last.value].fsid)
      {
        var item := list[n];
        ghost var before := list[..n];
        assert list[..n + 1] == before + [item];
        if |item.path| > lastLen && item.path <= p.value {
          var cur := FindHost(remote, item);
          LooksAt(before, item, p.value, remote, best, last);
          fsidOut, last := Some(item.fsid), Some(n);
          if cur.Some? {
            password, pwhash := Some(cur.value.password), cur.value.pwhash;
            opts, path, fsid := cur.value.options, Some(item.path), item.fsid;
            lastLen := |item.path|;
            anonuid, anongid := cur.value.anonuid, cur.value.anongid;
            NewBest(before, item, p.value, remote, best);
            best, host := Some(n), cur;
          } else {
            NotEligible(before, item, p.value, remote, best);
          }
        } else {
          Passes(before, item, p.value, remote, best, last);
        }
        n := n + 1;
      }
      assert list[..n] == list;
      BestIsBest(list, p.value, remote, best);
      return opts, password, fsidOut;
    }
  }

  method FindDotDot(path: string) returns (found: bool)
    ensures found == HasDotDot(path)
  {
    var k := 0;
    while k < |path|
      invariant 0 <= k <= |path| && forall j :: 0 <= j < k ==> !DotDotAt(path, j)
    {
      if DotDotAt(path, k) { return true; }
      k := k + 1;
    }
    return false;
  }

  ghost predicate NoneEligible(list: seq<Item>, path: string, remote: bv32) {
    forall j :: 0 <= j < |list| ==> !Eligible(list[j], path, remote)
  }

  /** What the scan knows about the items read: the best so far, if any. */
  ghost predicate BestSoFar(list: seq<Item>, path: string, remote: bv32, best: Option<nat>) {
    if best.None? then NoneEligible(list, path, remote) else best.value < |list| && Best(list, path, remote, best.value)
  }

  /** The last item looked at so far, if any. */
  ghost predicate LastSoFar(list: seq<Item>, path: string, remote: bv32, last: Option<nat>) {
    if last.None? then forall l: nat :: !LookedAt(list, path, remote, l)
    else last.value < |list| && LastLookedAt(list, path, remote, last.value)
  }

  lemma NothingYet(path: string, remote: bv32)
    ensures BestSoFar([], path, remote, None) && LastSoFar([], path, remote, None)
  {
  }

  lemma BestIsBest(list: seq<Item>, path: string, remote: bv32, best: Option<nat>)
    requires BestSoFar(list, path, remote, best)
    ensures best.None? ==> forall i: nat :: !Best(list, path, remote, i)
  {
  }

  ghost function BestLen(list: seq<Item>, best: Option<nat>): nat
    requires best.Some? ==> best.value < |list|
  {
    if best.None? then 0 else |list[best.value].path|
  }

  lemma NewBest(list: seq<Item>, item: Item, path: string, remote: bv32, best: Option<nat>)
    requires BestSoFar(list, path, remote, best) && |item.path| > BestLen(list, best) && Eligible(item, path, remote)
    ensures Best(list + [item], path, remote, |list|)
  {
    var all := list + [item];
    forall j | 0 <= j < |all| && Eligible(all[j], path, remote)
      ensures |all[j].path| < |item.path| || (|all[j].path| == |item.path| && |list| <= j)
    {
      if j < |list| { assert Eligible(list[j], path, remote); }
    }
  }

  lemma NotEligible(list: seq<Item>, item: Item, path: string, remote: bv32, best: Option<nat>)
    requires BestSoFar(list, path, remote, best)
    requires Eligible(item, path, remote) ==> |item.path| <= BestLen(list, best)
    ensures BestSoFar(list + [item], path, remote, best)
  {
    var all := list + [item];
    forall j | 0 <= j < |all| && Eligible(all[j], path, remote)
      ensures best.Some?
      ensures var b := best.value;
              |all[j].path| < |list[b].path| || (|all[j].path| == |list[b].path| && b <= j)
    {
      if j < |list| { assert Eligible(list[j], path, remote); }
    }
  }

  /** Whether the next item is looked at depends on the best so far only. */
  lemma LookedAtNext(list: seq<Item>, item: Item, path: string, remote: bv32, best: Option<nat>)
    requires BestSoFar(list, path, remote, best)
    ensures LookedAt(list + [item], path, remote, |list|) <==> |item.path| > BestLen(list, best) && item.path <= path
    ensures forall l: nat :: l < |list| ==>
              (LookedAt(list + [item], path, remote, l) <==> LookedAt(list, path, remote, l))
  {
    var all := list + [item];
    assert forall j :: 0 <= j < |list| ==> all[j] == list[j];
    if best.Some? { assert Eligible(all[best.value], path, remote); }
    if |item.path| > BestLen(list, best) && item.path <= path {
      forall j | 0 <= j < |list| && Eligible(all[j], path, remote) ensures |all[j].path| < |item.path| {
        assert Eligible(list[j], path, remote);
      }
    }
  }

  lemma LooksAt(list: seq<Item>, item: Item, path: string, remote: bv32, best: Option<nat>, last: Option<nat>)
    requires BestSoFar(list, path, remote, best) && |item.path| > BestLen(list, best) && item.path <= path
    ensures LastLookedAt(list + [item], path, remote, |list|)
  {
    LookedAtNext(list, item, path, remote, best);
  }

  lemma Passes(list: seq<Item>, item: Item, path: string, remote: bv32, best: Option<nat>, last: Option<nat>)
    requires BestSoFar(list, path, remote, best) && !(|item.path| > BestLen(list, best) && item.path <= path)
    requires LastSoFar(list, path, remote, last)
    ensures BestSoFar(list + [item], path, remote, best) && LastSoFar(list + [item], path, remote, last)
  {
    LookedAtNext(list, item, path, remote, best);
    NotEligible(list, item, path, remote, best);
  }

  /** The stored fsid need not belong to the export whose options apply: it does exactly when
      no later, longer export that covers the path shuts the client out. */
  lemma FsidIsBests(list: seq<Item>, path: string, remote: bv32, i: nat, l: nat)
    requires Best(list, path, remote, i) && LastLookedAt(list, path, remote, l)
    ensures i == l <==> forall j :: i < j < |list| && list[j].path <= path ==> |list[j].path| <= |list[i].path|
  {
    assert Eligible(list[i], path, remote);
    BestIsLookedAt(list, path, remote, i);
    if l != i {
      assert l > i && |list[l].path| > |list[i].path|;
    }
    forall j | i < j < |list| && list[j].path <= path && |list[j].path| > |list[i].path|
      ensures LookedAt(list, path, remote, j)
    {
      forall k | 0 <= k < j && Eligible(list[k], path, remote) ensures |list[k].path| < |list[j].path| {}
    }
  }

  lemma BestIsLookedAt(list: seq<Item>, path: string, remote: bv32, i: nat)
    requires Best(list, path, remote, i)
    ensures LookedAt(list, path, remote, i)
  {
  }

  /** A table that exports "/a" to everybody and "/a/b" to host 10.0.0.1 only. */
  function TwoExports(): seq<Item> {
    [Item("/a", [Host(0, 0, 4, 0, 0, "", 0)], 7),
     Item("/a/b", [Host(0x0A00_0001, 0xFFFF_FFFF, 0, 0, 0, "", 0)], 9)]
  }

  /** It does happen: host 10.0.0.2 gets the options of "/a" and the fsid of "/a/b". */
  lemma FsidOfAnotherExport()
    ensures var list, client := TwoExports(), 0x0A00_0002;
            && Best(list, "/a/b/c", client, 0) && LastLookedAt(list, "/a/b/c", client, 1)
            && list[0].fsid != list[1].fsid
  {
    var list, client := TwoExports(), 0x0A00_0002 as bv32;
    assert Admits(list[0].hosts[0], client);
    assert !Admitted(list[1], client);
  }
}
