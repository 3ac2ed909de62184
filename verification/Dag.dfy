/** The kernel and the flush mean the same by a DAG: what can be reached by the links that the kernel's
    scanner reports is what the flush's walk reaches, inline blocks and all. So a store that the kernel
    keeps closed has all that a flush will look for. */
module Dag {
  import opened Common
  import opened BitStrings
  import opened CborGrammar
  import opened Blocks
  import opened BufferedStore
  import CborScan

  /** A link of a block is a CID that it mentions. */
  lemma LinkIsMentioned(w: Wire, codec: nat, data: seq<Byte>, k: Cid)
    requires ValidWire(w)
    ensures LinksTo(w, codec, data, k) ==> codec == DAG_CBOR && Outgoing(k) && Mentions(w, data, k)
    ensures codec == DAG_CBOR && Scans(w, codec, data) && Outgoing(k) && Mentions(w, data, k) ==> LinksTo(w, codec, data, k)
  {
    forall t | IsBlock(w, data, t) ensures forall x :: x in t.links <==> Outgoing(x) && Mentions(w, data, x) {
      LinksAreMentioned(w, data, t);
    }
  }

  // ---------------------------------------------------------------- from links to reachability

  lemma {:induction false} UnfoldedIsReachable(w: Wire, store: Blockstore, root: Cid, cids: seq<Cid>, k: Cid)
    requires ValidWire(w) && k in Unfold(w, cids) && forall c :: c in cids ==> Reachable(w, store, root, c)
    ensures Reachable(w, store, root, k)
    decreases Weight(cids)
  {
    var first := cids[0];
    InlineIsLighter(w, first);
    assert first in cids;
    if k == first {
    } else if k in Unfold(w, cids[1..]) {
      UnfoldedIsReachable(w, store, root, cids[1..], k);
    } else {
      forall c | c in LinksOf(w, first.digest) ensures Reachable(w, store, root, c) {
        ReachChild(w, store, root, first, c);
      }
      UnfoldedIsReachable(w, store, root, LinksOf(w, first.digest), k);
    }
  }

  lemma LinkReaches(w: Wire, store: Blockstore, root: Cid, k: Cid, to: Cid)
    requires ValidWire(w) && Outgoing(k) && k in store && Reachable(w, store, root, k) && LinksTo(w, k.codec, store[k], to)
    ensures Reachable(w, store, root, to) && Outgoing(to)
  {
    LinkIsMentioned(w, k.codec, store[k], to);
    forall c | c in LinksOf(w, store[k]) ensures Reachable(w, store, root, c) {
      ReachChild(w, store, root, k, c);
    }
    UnfoldedIsReachable(w, store, root, LinksOf(w, store[k]), to);
  }

  /** Where the kernel's links lead, the flush gets. */
  lemma {:induction false} WalkIsReachable(w: Wire, store: Blockstore, path: seq<Cid>)
    requires ValidWire(w) && path != [] && Walk(w, store, path) && Outgoing(path[0])
    ensures Reachable(w, store, path[0], path[|path| - 1]) && Outgoing(path[|path| - 1])
    decreases |path|
  {
    if |path| == 1 {
      ReachRoot(w, store, path[0]);
    } else {
      var n, before := |path| - 1, path[..|path| - 1];
      assert Walk(w, store, before) && before[0] == path[0] && before[n - 1] == path[n - 1];
      WalkIsReachable(w, store, before);
      LinkReaches(w, store, path[0], before[n - 1], path[n]);
    }
  }

  // ---------------------------------------------------------------- and back

  lemma {:induction false} UnfoldHasCids(w: Wire, cids: seq<Cid>, c: Cid)
    requires ValidWire(w) && c in cids
    ensures c in Unfold(w, cids)
    decreases |cids|
  {
    if c != cids[0] {
      assert cids == [cids[0]] + cids[1..];
      UnfoldHasCids(w, cids[1..], c);
    }
  }

  lemma {:induction false} UnfoldIsDeep(w: Wire, cids: seq<Cid>, k: Cid, c: Cid)
    requires ValidWire(w) && k in Unfold(w, cids) && Inline(k) && c in LinksOf(w, k.digest)
    ensures c in Unfold(w, cids)
    decreases Weight(cids)
  {
    var first := cids[0];
    InlineIsLighter(w, first);
    if k == first {
      UnfoldHasCids(w, LinksOf(w, first.digest), c);
    } else if k in Unfold(w, cids[1..]) {
      UnfoldIsDeep(w, cids[1..], k, c);
    } else {
      UnfoldIsDeep(w, LinksOf(w, first.digest), k, c);
    }
  }

  /** A walk along the kernel's links. */
  ghost predicate WalkTo(w: Wire, store: Blockstore, root: Cid, k: Cid) {
    exists path :: path != [] && Walk(w, store, path) && path[0] == root && path[|path| - 1] == k
  }

  /** Where a step of the flush's walk is: at a block that the kernel's links lead to, or inside one. */
  ghost predicate Placed(w: Wire, store: Blockstore, root: Cid, k: Cid)
    requires ValidWire(w)
  {
    && (Outgoing(k) ==> WalkTo(w, store, root, k))
    && (Inline(k) ==> exists b :: WalkTo(w, store, root, b) && Holds(w, store, b, k))
  }

  ghost predicate Holds(w: Wire, store: Blockstore, b: Cid, k: Cid)
    requires ValidWire(w)
  {
    b in store && b.codec == DAG_CBOR && Mentions(w, store[b], k)
  }

  lemma WalkOn(w: Wire, store: Blockstore, root: Cid, b: Cid, k: Cid)
    requires ValidWire(w) && AllScan(w, store) && WalkTo(w, store, root, b) && Holds(w, store, b, k)
    ensures Placed(w, store, root, k)
  {
    if Outgoing(k) {
      LinkIsMentioned(w, b.codec, store[b], k);
      var path :| path != [] && Walk(w, store, path) && path[0] == root && path[|path| - 1] == b;
      WalkAppend(w, store, path, k);
      assert (path + [k])[0] == root;
    }
  }

  lemma WalkAppend(w: Wire, store: Blockstore, path: seq<Cid>, k: Cid)
    requires path != [] && Walk(w, store, path) && path[|path| - 1] in store
    requires LinksTo(w, path[|path| - 1].codec, store[path[|path| - 1]], k)
    ensures Walk(w, store, path + [k])
  {
    assert (path + [k])[..|path|] == path;
  }

  lemma PlacedChild(w: Wire, store: Blockstore, root: Cid, k: Cid, c: Cid)
    requires ValidWire(w) && AllScan(w, store) && GoodCid(w, k) && Placed(w, store, root, k) && c in Children(w, store, k)
    ensures Placed(w, store, root, c)
  {
    if Inline(k) {
      var b :| WalkTo(w, store, root, b) && Holds(w, store, b, k);
      UnfoldIsDeep(w, LinksOf(w, store[b]), k, c);
      WalkOn(w, store, root, b, c);
    } else {
      UnfoldHasCids(w, LinksOf(w, store[k]), c);
      WalkOn(w, store, root, k, c);
    }
  }

  lemma GoodChild(w: Wire, store: Blockstore, k: Cid, c: Cid)
    requires ValidWire(w) && AllScan(w, store) && GoodCid(w, k) && c in Children(w, store, k)
    ensures GoodCid(w, c)
  {
    var block := if Inline(k) then k.digest else store[k];
    var t :| IsBlock(w, block, t);
    AcceptedScans(w, block, t);
  }

  lemma {:induction false} PathIsPlaced(w: Wire, store: Blockstore, p: seq<Cid>)
    requires ValidWire(w) && AllScan(w, store) && Path(w, store, p) && Outgoing(p[0])
    ensures Placed(w, store, p[0], p[|p| - 1]) && GoodCid(w, p[|p| - 1])
    decreases |p|
  {
    var n := |p| - 1;
    if n == 0 {
      assert Walk(w, store, [p[0]]);
    } else {
      var q := p[..n];
      assert Path(w, store, q);
      PathIsPlaced(w, store, q);
      assert q[0] == p[0] && q[n - 1] == p[n - 1] && p[n] in Children(w, store, p[n - 1]);
      PlacedChild(w, store, p[0], p[n - 1], p[n]);
      GoodChild(w, store, p[n - 1], p[n]);
    }
  }

  /** Blocks that the flush reaches are those that the kernel's links lead to, and no others. */
  lemma ReachableIsLinked(w: Wire, store: Blockstore, root: Cid, k: Cid)
    requires ValidWire(w) && AllScan(w, store) && Outgoing(root) && Outgoing(k)
    ensures Reachable(w, store, root, k) <==> WalkTo(w, store, root, k)
  {
    if Reachable(w, store, root, k) {
      var p :| Path(w, store, p) && p[0] == root && p[|p| - 1] == k;
      PathIsPlaced(w, store, p);
    }
    if WalkTo(w, store, root, k) {
      var path :| path != [] && Walk(w, store, path) && path[0] == root && path[|path| - 1] == k;
      WalkIsReachable(w, store, path);
    }
  }

  /** In a store that the kernel keeps closed, every block that a flush from a stored root looks for is
      there. */
  lemma NothingIsMissing(w: Wire, store: Blockstore, root: Cid, k: Cid)
    requires ValidWire(w) && Closed(w, store) && AllScan(w, store) && root in store && Outgoing(root)
    requires Reachable(w, store, root, k) && Outgoing(k)
    ensures k in store
  {
    ReachableIsLinked(w, store, root, k);
    var path :| path != [] && Walk(w, store, path) && path[0] == root && path[|path| - 1] == k;
    WholeDagPresent(w, store, path);
  }
}
