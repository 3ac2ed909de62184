/** Open blocks and reachability (`fvm/src/kernel/blocks.rs`), and what it means for a blockstore to
    have no dangling links. */
module Blocks {
  import opened Common
  import opened BitStrings
  import opened CborGrammar
  import opened CborScan
  import opened Actors

  datatype Block = Block(codec: nat, data: seq<Byte>, links: seq<Cid>)

  const FIRST_ID: nat := 1
  const MAX_BLOCKS: nat := 0x7fff_ffff

  // ---------------------------------------------------------------- links in a store

  /** All links that the data holds, read under `codec`, are in `present`. */
  ghost predicate LinksIn(w: Wire, codec: nat, data: seq<Byte>, present: set<Cid>) {
    forall t, k :: BlockHolds(w, codec, data, t) && 0 <= k < |t.links| ==> t.links[k] in present
  }

  /** The store is closed under links. The length of a block fits 64 bits. */
  ghost predicate Closed(w: Wire, store: Blockstore) {
    forall c :: c in store ==> |store[c]| < U64_MAX && LinksIn(w, c.codec, store[c], store.Keys)
  }

  /** A walk along links of stored blocks. */
  ghost predicate Walk(w: Wire, store: Blockstore, path: seq<Cid>)
    decreases |path|
  {
    |path| <= 1 ||
    var n := |path| - 1;
    && Walk(w, store, path[..n])
    && path[n - 1] in store && LinksTo(w, path[n - 1].codec, store[path[n - 1]], path[n])
  }

  ghost predicate LinksTo(w: Wire, codec: nat, data: seq<Byte>, to: Cid) {
    exists t, k :: BlockHolds(w, codec, data, t) && 0 <= k < |t.links| && t.links[k] == to
  }

  /** In a closed store the whole DAG below a stored root is there. */
  lemma {:induction false} WholeDagPresent(w: Wire, store: Blockstore, path: seq<Cid>)
    requires Closed(w, store) && Walk(w, store, path) && path != [] && path[0] in store
    ensures forall i :: 0 <= i < |path| ==> path[i] in store
    decreases |path|
  {
    if |path| > 1 {
      var n := |path| - 1;
      WholeDagPresent(w, store, path[..n]);
      assert LinksIn(w, path[n - 1].codec, store[path[n - 1]], store.Keys);
      assert path[n] in store;
      forall i | 0 <= i < n ensures path[i] in store {
        assert path[i] == path[..n][i];
      }
    }
  }

  /** Adding a block whose links are there keeps the store closed, whatever was under its CID. */
  lemma ClosedAdd(w: Wire, store: Blockstore, c: Cid, data: seq<Byte>)
    requires Closed(w, store) && |data| < U64_MAX && LinksIn(w, c.codec, data, store.Keys)
    ensures Closed(w, store[c := data])
  {
    var now := store[c := data];
    forall x | x in now ensures LinksIn(w, x.codec, now[x], now.Keys) {
      if x != c {
        assert LinksIn(w, x.codec, store[x], store.Keys);
      }
    }
  }

  lemma ClosedUnion(w: Wire, store: Blockstore, more: Blockstore)
    requires Closed(w, store) && Closed(w, more)
    ensures Closed(w, store + more)
  {
    var now := store + more;
    forall x | x in now ensures LinksIn(w, x.codec, now[x], now.Keys) {
      if x in more {
        assert LinksIn(w, x.codec, more[x], more.Keys);
      } else {
        assert LinksIn(w, x.codec, store[x], store.Keys);
      }
    }
  }

  // ---------------------------------------------------------------- what is written

  /** A store that is `base` but for the blocks in `written`, which the kernel's scanner reads. */
  ghost predicate Overlaid(w: Wire, base: Blockstore, written: set<Cid>, store: Blockstore) {
    forall c: Cid :: OverlaidAt(w, base, written, store, c)
  }

  ghost predicate OverlaidAt(w: Wire, base: Blockstore, written: set<Cid>, store: Blockstore, c: Cid) {
    if c in written then c in store && Scans(w, c.codec, store[c])
    else if c in base then c in store && store[c] == base[c]
    else c !in store
  }

  lemma OverlaidStart(w: Wire, store: Blockstore)
    ensures Overlaid(w, store, {}, store)
  {
  }

  lemma OverlaidUnion(w: Wire, base: Blockstore, written: set<Cid>, store: Blockstore, more: Blockstore)
    requires Overlaid(w, base, written, store) && AllScan(w, more)
    ensures Overlaid(w, base, written + more.Keys, store + more)
  {
    var written', store' := written + more.Keys, store + more;
    forall c: Cid ensures OverlaidAt(w, base, written', store', c) {
      assert OverlaidAt(w, base, written, store, c);
    }
  }

  ghost predicate AllScan(w: Wire, blocks: Blockstore) {
    forall c :: c in blocks ==> Scans(w, c.codec, blocks[c])
  }

  lemma OverlaidPut(w: Wire, base: Blockstore, written: set<Cid>, store: Blockstore, k: Cid, data: seq<Byte>)
    requires Overlaid(w, base, written, store) && Scans(w, k.codec, data)
    ensures Overlaid(w, base, written + {k}, store[k := data])
  {
    var written', store' := written + {k}, store[k := data];
    forall c: Cid ensures OverlaidAt(w, base, written', store', c) {
      assert OverlaidAt(w, base, written, store, c);
    }
  }

  // ---------------------------------------------------------------- registered blocks

  /** The kernel's scanner reads the data. */
  ghost predicate Scans(w: Wire, codec: nat, data: seq<Byte>) {
    |data| < U64_MAX && (codec == DAG_CBOR ==> exists t :: IsBlock(w, data, t))
  }

  /** The block can be read and nothing that it links to is missing. */
  ghost predicate BlockOk(w: Wire, b: Block, present: set<Cid>) {
    && Scans(w, b.codec, b.data)
    && LinksIn(w, b.codec, b.data, present)
    && forall k :: 0 <= k < |b.links| ==> b.links[k] in present
  }

  ghost predicate AllOk(w: Wire, blocks: seq<Block>, reachable: set<Cid>, present: set<Cid>) {
    && reachable <= present
    && forall i :: 0 <= i < |blocks| ==> BlockOk(w, blocks[i], present)
  }

  lemma StillOk(w: Wire, blocks: seq<Block>, reachable: set<Cid>, present: set<Cid>, later: set<Cid>)
    requires AllOk(w, blocks, reachable, present) && present <= later
    ensures AllOk(w, blocks, reachable, later)
  {
    forall i | 0 <= i < |blocks| ensures BlockOk(w, blocks[i], later) {
      assert BlockOk(w, blocks[i], present);
    }
  }

  /** Data that is not DAG-CBOR has no links. */
  lemma PlainOk(w: Wire, b: Block, present: set<Cid>)
    requires b.codec != DAG_CBOR && b.links == [] && |b.data| < U64_MAX
    ensures BlockOk(w, b, present)
  {
  }

  function LinkSet(links: seq<Cid>): set<Cid> {
    set l | l in links
  }

  class BlockRegistry {
    var blocks: seq<Block>
    var reachable: set<Cid>

    ghost predicate NothingDangling(w: Wire, present: set<Cid>)
      reads this
    {
      |blocks| <= MAX_BLOCKS && AllOk(w, blocks, reachable, present)
    }

    constructor ()
      ensures blocks == [] && reachable == {}
    {
      blocks, reachable := [], {};
    }

    predicate IsFull()
      reads this
    {
      |blocks| == MAX_BLOCKS
    }

    method MarkReachable(k: Cid)
      modifies this`reachable
      ensures reachable == old(reachable) + {k}
    {
      reachable := reachable + {k};
    }

    /** Adds a block. One that is known to be reachable makes its links reachable; a new one may
        link only to what is reachable. */
    method PutInner(b: Block, checkReachable: bool) returns (r: Result<nat, ExecutionError>)
      modifies this
      ensures r.Ok? <==> !old(IsFull()) && (checkReachable ==> LinkSet(b.links) <= old(reachable))
      ensures r.Err? ==> r.error == Syscall(if old(IsFull()) then LimitExceeded else ErrorNumber.NotFound)
      ensures r.Err? ==> blocks == old(blocks) && reachable == old(reachable)
      ensures r.Ok? ==> blocks == old(blocks) + [b] && r.value == |blocks|
      ensures r.Ok? ==> reachable == old(reachable) + LinkSet(b.links)
    {
      if IsFull() {
        return Err(Syscall(LimitExceeded));
      }
      var i := 0;
      while i < |b.links|
        invariant i <= |b.links| && blocks == old(blocks)
        invariant reachable == old(reachable) + LinkSet(b.links[..i])
        invariant checkReachable ==> reachable == old(reachable)
      {
        var k := b.links[i];
        assert LinkSet(b.links[..i + 1]) == LinkSet(b.links[..i]) + {k};
        if !checkReachable {
          MarkReachable(k);
        } else if k !in reachable {
          assert k in LinkSet(b.links);
          return Err(Syscall(ErrorNumber.NotFound));
        }
        i := i + 1;
      }
      assert b.links[..i] == b.links;
      blocks := blocks + [b];
      return Ok(FIRST_ID + |blocks| - 1);
    }

    method Get(id: nat) returns (r: Result<Block, ExecutionError>)
      ensures r.Ok? <==> 1 <= id <= |blocks|
      ensures r.Ok? ==> r.value == blocks[id - 1]
      ensures r.Err? ==> r.error == Syscall(InvalidHandle)
    {
      if id < FIRST_ID || id - FIRST_ID >= |blocks| {
        return Err(Syscall(InvalidHandle));
      }
      return Ok(blocks[id - FIRST_ID]);
    }
  }

  /** Registering a block leaves nothing dangling. */
  lemma PutKeepsOk(w: Wire, blocks: seq<Block>, reachable: set<Cid>, b: Block, present: set<Cid>)
    requires AllOk(w, blocks, reachable, present) && BlockOk(w, b, present)
    ensures AllOk(w, blocks + [b], reachable + LinkSet(b.links), present)
  {
    assert LinkSet(b.links) <= present;
  }

  /** A scanned block may be registered once its links are reachable. */
  lemma ScannedOk(w: Wire, codec: nat, data: seq<Byte>, links: seq<Cid>, present: set<Cid>)
    requires forall t :: BlockHolds(w, codec, data, t) ==> t.links == links
    requires LinkSet(links) <= present && |data| < U64_MAX && exists t :: BlockHolds(w, codec, data, t)
    ensures BlockOk(w, Block(codec, data, links), present)
  {
    assert forall k :: 0 <= k < |links| ==> links[k] in LinkSet(links);
  }
}
