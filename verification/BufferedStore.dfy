/** The write buffer of the blockstore and its flush (`fvm/src/blockstore/buffered.rs`). */
module BufferedStore {
  import opened Common
  import opened BitStrings
  import opened CborGrammar

  // ---------------------------------------------------------------- the flush scanner, as a function

  /** The byte string of a tag 42, as the flush scanner reads it: bytes after the CID are not refused. */
  ghost function LooseLink(w: Wire, buf: seq<Byte>): (r: Option<(Cid, seq<Byte>)>)
    requires ValidWire(w)
    ensures r.Some? ==> |r.value.0.digest| + |r.value.1| + 1 <= |buf|
  {
    var head := w.header(buf);
    if head.None? then None
    else
      var Head(major, extra, rest) := head.value;
      assert ReadsHeader(w, buf);
      if major != 2 || extra > |rest| || extra < 1 || rest[0] != 0 then None
      else
        var bytes := rest[1..extra];
        assert ReadsCid(w, bytes);
        var cid := w.read(bytes);
        if cid.None? then None else Some((cid.value.0, rest[extra..]))
  }

  datatype Found = Found(cids: seq<Cid>, rest: seq<Byte>)

  ghost function Before(cids: seq<Cid>, f: Option<Found>): Option<Found> {
    if f.None? then None else Some(Found(cids + f.value.cids, f.value.rest))
  }

  /** The CIDs of `n` items, without looking into inline blocks. */
  ghost function Shallow(w: Wire, n: nat, buf: seq<Byte>): Option<Found>
    requires ValidWire(w)
    decreases |buf|
  {
    if n == 0 then Some(Found([], buf))
    else
      var head := w.header(buf);
      if head.None? then None
      else
        var Head(major, extra, rest) := head.value;
        assert ReadsHeader(w, buf);
        if major == 0 || major == 1 || major == 7 then Shallow(w, n - 1, rest)
        else if major == 2 || major == 3 then
          if extra > |rest| then None else Shallow(w, n - 1, rest[extra..])
        else if major == 4 then Shallow(w, n - 1 + extra, rest)
        else if major == 5 then Shallow(w, n - 1 + 2 * extra, rest)
        else if extra != 42 then Shallow(w, n, rest)
        else
          var link := LooseLink(w, rest);
          if link.None? then None
          else Before([link.value.0], Shallow(w, n - 1, link.value.1))
  }

  ghost function Weight(cids: seq<Cid>): nat {
    if cids == [] then 0 else 1 + |cids[0].digest| + Weight(cids[1..])
  }

  /** CIDs are longer than their digests, and every item takes a byte. */
  lemma {:induction false} ShallowFits(w: Wire, n: nat, buf: seq<Byte>)
    requires ValidWire(w) && Shallow(w, n, buf).Some?
    ensures n + |Shallow(w, n, buf).value.rest| <= |buf|
    ensures Weight(Shallow(w, n, buf).value.cids) + |Shallow(w, n, buf).value.rest| <= |buf|
    decreases |buf|
  {
    if n > 0 {
      assert ReadsHeader(w, buf);
      var Head(major, extra, rest) := w.header(buf).value;
      if major == 0 || major == 1 || major == 7 {
        ShallowFits(w, n - 1, rest);
      } else if major == 2 || major == 3 {
        ShallowFits(w, n - 1, rest[extra..]);
      } else if major == 4 {
        ShallowFits(w, n - 1 + extra, rest);
      } else if major == 5 {
        ShallowFits(w, n - 1 + 2 * extra, rest);
      } else if extra != 42 {
        ShallowFits(w, n, rest);
      } else {
        var (cid, tail) := LooseLink(w, rest).value;
        ShallowFits(w, n - 1, tail);
        var cids := Shallow(w, n - 1, tail).value.cids;
        assert ([cid] + cids)[1..] == cids;
      }
    }
  }

  // ---------------------------------------------------------------- what the grammar says about it

  /** The CIDs of an item in document order, inline ones included but not looked into. */
  ghost function Cids(item: Item): seq<Cid>
    decreases item, 1
  {
    match item
    case Scalar(_) => []
    case Bytes(_, _) => []
    case Array(_, items) => CidsAll(items)
    case Map(_, items) => CidsAll(items)
    case Tagged(_, inner) => Cids(inner)
    case Link(_, _, _, cid, _) => [cid]
  }

  ghost function CidsAll(items: seq<Item>): seq<Cid>
    decreases items, 0
  {
    if items == [] then [] else Cids(items[0]) + CidsAll(items[1..])
  }

  lemma BeforeTwice(a: seq<Cid>, b: seq<Cid>, f: Option<Found>)
    ensures Before(a, Before(b, f)) == Before(a + b, f)
    ensures Before([], f) == f
  {
    if f.Some? {
      assert (a + b) + f.value.cids == a + (b + f.value.cids);
      assert [] + f.value.cids == f.value.cids;
    }
  }

  lemma {:induction false} ShallowComplete(w: Wire, item: Item, n: nat, rest: seq<Byte>)
    requires ValidWire(w) && WellFormed(w, item)
    ensures Shallow(w, n + 1, Encode(item) + rest) == Before(Cids(item), Shallow(w, n, rest))
    decreases item, 1
  {
    var h, tail := item.head, Tail(item) + rest;
    Associate(h, Tail(item), rest);
    assert HeaderReads(w, h, tail);
    BeforeTwice([], [], Shallow(w, n, rest));
    match item {
      case Scalar(_) => Cut(tail, 0); TailOf([], rest);
      case Bytes(_, content) => TailOf(content, rest);
      case Array(_, items) => ShallowAllComplete(w, items, n, rest);
      case Map(_, items) => ShallowAllComplete(w, items, n, rest);
      case Tagged(_, inner) => ShallowComplete(w, inner, n, rest);
      case Link(_, bh, bytes, _, _) => LooseLinkComplete(w, bh, bytes, rest);
    }
  }

  lemma TailOf(a: seq<Byte>, b: seq<Byte>)
    ensures (a + b)[|a|..] == b && [] + b == b
  {
  }

  lemma LooseLinkComplete(w: Wire, bh: seq<Byte>, bytes: seq<Byte>, rest: seq<Byte>)
    requires ValidWire(w) && w.head(bh) == Some((2, 1 + |bytes|))
    requires w.read(bytes).Some? && w.read(bytes).value.1 == |bytes|
    ensures LooseLink(w, (bh + ([0] + bytes)) + rest) == Some((w.read(bytes).value.0, rest))
  {
    ReadLinkComplete(w, bh, bytes, rest);
  }

  lemma {:induction false} ShallowAllComplete(w: Wire, items: seq<Item>, n: nat, rest: seq<Byte>)
    requires ValidWire(w) && AllWellFormed(w, items)
    ensures Shallow(w, n + |items|, EncodeAll(items) + rest) == Before(CidsAll(items), Shallow(w, n, rest))
    decreases items, 0
  {
    if items == [] {
      TailOf([], rest);
      BeforeTwice([], [], Shallow(w, n, rest));
    } else {
      var others := items[1..];
      ShallowAllComplete(w, others, n, rest);
      ShallowComplete(w, items[0], n + |others|, EncodeAll(others) + rest);
      Associate(Encode(items[0]), EncodeAll(others), rest);
      BeforeTwice(Cids(items[0]), CidsAll(others), Shallow(w, n, rest));
    }
  }

  /** Every block that the kernel accepted is scanned by the flush, which finds its CIDs in order. */
  lemma KernelBlocksFlush(w: Wire, item: Item, buf: seq<Byte>, t: Tally)
    requires ValidWire(w) && SpelledBy(w, item, buf, t)
    ensures Shallow(w, 1, buf) == Some(Found(Cids(item), []))
  {
    ShallowComplete(w, item, 0, []);
    AloneShallow(w, Encode(item), Cids(item));
  }

  lemma AloneShallow(w: Wire, buf: seq<Byte>, cids: seq<Cid>)
    requires ValidWire(w) && Shallow(w, 1, buf + []) == Before(cids, Shallow(w, 0, []))
    ensures Shallow(w, 1, buf) == Some(Found(cids, []))
  {
    assert buf + [] == buf && cids + [] == cids;
  }

  // ---------------------------------------------------------------- the flush scanner

  datatype FlushError = BadCbor | Overflow | Panic | UnexpectedCodec | UnexpectedMultihash

  /** The counter loop of the flush. Its additions are not checked: going past 64 bits is `Overflow`. */
  method ScanForLinks(w: Wire, buf0: seq<Byte>, out0: seq<Cid>) returns (r: Result<(), FlushError>, out: seq<Cid>)
    requires ValidWire(w) && |buf0| < U64_MAX
    ensures r.Ok? <==> Shallow(w, 1, buf0).Some?
    ensures r.Ok? ==> out == out0 + Shallow(w, 1, buf0).value.cids
  {
    var buf := buf0;
    out := out0;
    var remaining: nat := 1;
    ghost var done: seq<Cid> := [];
    BeforeTwice([], [], Shallow(w, 1, buf0));
    while remaining > 0
      invariant |buf| <= |buf0|
      invariant Shallow(w, 1, buf0) == Before(done, Shallow(w, remaining, buf))
      invariant out == out0 + done
      decreases |buf|
    {
      var head := w.header(buf);
      if head.None? {
        return Err(BadCbor), out;
      }
      assert ReadsHeader(w, buf);
      var Head(major, extra, rest) := head.value;
      ghost var n := remaining;
      ghost var before := buf;
      buf := rest;
      if major == 0 || major == 1 || major == 7 {
      } else if major == 2 || major == 3 {
        if extra > |buf| {
          return Err(BadCbor), out;
        }
        buf := buf[extra..];
      } else if major == 6 {
        if extra == 42 {
          var link, found;
          link, buf, found := TakeLink(w, buf);
          if link.Err? {
            return Err(link.error), out;
          }
          BeforeTwice(done, [found], Shallow(w, n - 1, buf));
          out := out + [found];
          done := done + [found];
        } else {
          if remaining + 1 > U64_MAX {
            NoRoom(w, n, rest);
            return Err(Overflow), out;
          }
          remaining := remaining + 1;
        }
      } else if major == 4 {
        if remaining + extra > U64_MAX {
          NoRoom(w, n - 1 + extra, rest);
          return Err(Overflow), out;
        }
        remaining := remaining + extra;
      } else {
        if extra * 2 > U64_MAX || remaining + extra * 2 > U64_MAX {
          NoRoom(w, n - 1 + 2 * extra, rest);
          return Err(Overflow), out;
        }
        remaining := remaining + extra * 2;
      }
      remaining := remaining - 1;
    }
    assert done + [] == done;
    return Ok(()), out;
  }

  lemma NoRoom(w: Wire, n: nat, buf: seq<Byte>)
    requires ValidWire(w) && n > |buf|
    ensures Shallow(w, n, buf).None?
  {
    if Shallow(w, n, buf).Some? {
      ShallowFits(w, n, buf);
    }
  }

  method TakeLink(w: Wire, buf0: seq<Byte>) returns (r: Result<(), FlushError>, buf: seq<Byte>, cid: Cid)
    requires ValidWire(w)
    ensures r.Ok? <==> LooseLink(w, buf0).Some?
    ensures r.Ok? ==> LooseLink(w, buf0).value == (cid, buf)
  {
    buf, cid := buf0, Cid(0, 0, []);
    var head := w.header(buf);
    if head.None? {
      return Err(BadCbor), buf, cid;
    }
    assert ReadsHeader(w, buf0);
    var Head(major, extra, rest) := head.value;
    buf := rest;
    if major != 2 || extra > |buf| || |buf| == 0 || buf[0] != 0 {
      return Err(BadCbor), buf, cid;
    }
    if extra == 0 {
      // The slice past the leading zero byte starts after the end of the CID buffer.
      return Err(Panic), buf, cid;
    }
    var cidBuf := buf[..extra];
    buf := buf[extra..];
    assert cidBuf[1..] == rest[1..extra];
    var read := w.read(cidBuf[1..]);
    if read.None? {
      return Err(BadCbor), buf, cid;
    }
    return Ok(()), buf, read.value.0;
  }

  // ---------------------------------------------------------------- reachability


  /** A CID that names a block of its own. */
  predicate Named(k: Cid) {
    !Ignored(k.codec) && k.hashCode != IDENTITY
  }

  ghost function LinksOf(w: Wire, block: seq<Byte>): seq<Cid>
    requires ValidWire(w)
  {
    var f := Shallow(w, 1, block);
    if f.Some? then f.value.cids else []
  }

  /** What a CID links to, through its buffered block or its inline one. */
  ghost function Children(w: Wire, cache: Blockstore, k: Cid): seq<Cid>
    requires ValidWire(w)
  {
    if Ignored(k.codec) || k.codec != DAG_CBOR then []
    else if k.hashCode == IDENTITY then LinksOf(w, k.digest)
    else if k in cache then LinksOf(w, cache[k])
    else []
  }

  ghost predicate Path(w: Wire, cache: Blockstore, p: seq<Cid>)
    requires ValidWire(w)
  {
    |p| > 0 && forall i, j :: 0 <= i < j < |p| && j == i + 1 ==> p[j] in Children(w, cache, p[i])
  }

  ghost predicate Reachable(w: Wire, cache: Blockstore, root: Cid, k: Cid)
    requires ValidWire(w)
  {
    exists p :: Path(w, cache, p) && p[0] == root && p[|p| - 1] == k
  }

  lemma ReachRoot(w: Wire, cache: Blockstore, root: Cid)
    requires ValidWire(w)
    ensures Reachable(w, cache, root, root)
  {
    assert Path(w, cache, [root]);
  }

  lemma ReachChild(w: Wire, cache: Blockstore, root: Cid, k: Cid, c: Cid)
    requires ValidWire(w) && Reachable(w, cache, root, k) && c in Children(w, cache, k)
    ensures Reachable(w, cache, root, c)
  {
    var p :| Path(w, cache, p) && p[0] == root && p[|p| - 1] == k;
    assert Path(w, cache, p + [c]);
  }

  /** A set that holds the root and is closed under links holds all that is reachable. */
  lemma {:induction false} ClosedHoldsPath(w: Wire, cache: Blockstore, closed: set<Cid>, p: seq<Cid>)
    requires ValidWire(w) && Path(w, cache, p) && p[0] in closed
    requires forall k, c :: k in closed && c in Children(w, cache, k) ==> c in closed
    ensures p[|p| - 1] in closed
  {
    if |p| > 1 {
      assert p[1] in Children(w, cache, p[0]);
      var q := p[1..];
      assert Path(w, cache, q) by {
        forall i, j | 0 <= i < j < |q| && j == i + 1 ensures q[j] in Children(w, cache, q[i]) {
          assert p[j + 1] in Children(w, cache, p[i + 1]);
        }
      }
      ClosedHoldsPath(w, cache, closed, p[1..]);
    }
  }

  // ---------------------------------------------------------------- blocks the kernel has accepted

  /** A CID that the kernel would visit without error. */
  ghost predicate GoodCid(w: Wire, k: Cid) {
    Visitable(k) && (Inline(k) ==> exists t :: IsBlock(w, k.digest, t))
  }

  /** Every buffered DAG-CBOR block was accepted by the kernel scanner. */
  ghost predicate Accepted(w: Wire, cache: Blockstore) {
    forall k :: k in cache && k.codec == DAG_CBOR ==> exists t :: IsBlock(w, cache[k], t)
  }

  lemma {:induction false} CidsAreGood(w: Wire, item: Item, k: Cid)
    requires ValidWire(w) && WellFormed(w, item) && k in Cids(item)
    ensures GoodCid(w, k)
    decreases item, 1
  {
    match item {
      case Array(_, items) => AllCidsAreGood(w, items, k);
      case Map(_, items) => AllCidsAreGood(w, items, k);
      case Tagged(_, inner) => CidsAreGood(w, inner, k);
      case Link(_, _, _, cid, inline) =>
        if inline.Some? {
          assert SpelledBy(w, inline.value, cid.digest, Count(inline.value));
          assert IsBlock(w, cid.digest, Count(inline.value));
        }
      case Scalar(_) =>
      case Bytes(_, _) =>
    }
  }

  lemma {:induction false} AllCidsAreGood(w: Wire, items: seq<Item>, k: Cid)
    requires ValidWire(w) && AllWellFormed(w, items) && k in CidsAll(items)
    ensures GoodCid(w, k)
    decreases items, 0
  {
    if k in Cids(items[0]) {
      CidsAreGood(w, items[0], k);
    } else {
      AllCidsAreGood(w, items[1..], k);
    }
  }

  /** An accepted block is scanned without error, and all its CIDs are good. */
  lemma AcceptedScans(w: Wire, block: seq<Byte>, t: Tally)
    requires ValidWire(w) && IsBlock(w, block, t)
    ensures Shallow(w, 1, block).Some?
    ensures forall k :: k in LinksOf(w, block) ==> GoodCid(w, k)
  {
    var item :| SpelledBy(w, item, block, t);
    KernelBlocksFlush(w, item, block, t);
    forall k | k in Cids(item) ensures GoodCid(w, k) {
      CidsAreGood(w, item, k);
    }
  }

  // ---------------------------------------------------------------- the kernel's links, found again

  /** CIDs in order, each followed by those in the block that it holds, if it holds one. */
  ghost function Unfold(w: Wire, cids: seq<Cid>): seq<Cid>
    requires ValidWire(w)
    decreases Weight(cids)
  {
    if cids == [] then []
    else
      InlineIsLighter(w, cids[0]);
      [cids[0]] + (if Inline(cids[0]) then Unfold(w, LinksOf(w, cids[0].digest)) else []) + Unfold(w, cids[1..])
  }

  lemma InlineIsLighter(w: Wire, k: Cid)
    requires ValidWire(w)
    ensures Weight(LinksOf(w, k.digest)) <= |k.digest|
  {
    if Shallow(w, 1, k.digest).Some? {
      ShallowFits(w, 1, k.digest);
    }
  }

  /** Those that are links to blocks in the store. */
  ghost function Kept(cids: seq<Cid>): seq<Cid> {
    if cids == [] then [] else (if Outgoing(cids[0]) then [cids[0]] else []) + Kept(cids[1..])
  }

  lemma {:induction false} KeptConcat(a: seq<Cid>, b: seq<Cid>)
    ensures Kept(a + b) == Kept(a) + Kept(b)
    decreases |a|
  {
    if a == [] {
      assert a + b == b;
    } else {
      var rest := a[1..];
      KeptConcat(rest, b);
      assert (a + b)[1..] == rest + b;
      KeptAhead(a[0], rest + b, a + b);
      KeptAhead(a[0], rest, a);
    }
  }

  lemma KeptAhead(k: Cid, cids: seq<Cid>, all: seq<Cid>)
    requires all != [] && all[0] == k && all[1..] == cids
    ensures Kept(all) == (if Outgoing(k) then [k] else []) + Kept(cids)
  {
  }

  lemma {:induction false} KeptHas(cids: seq<Cid>, k: Cid)
    ensures k in Kept(cids) <==> k in cids && Outgoing(k)
  {
    if cids != [] {
      KeptHas(cids[1..], k);
      assert cids == [cids[0]] + cids[1..];
    }
  }

  lemma {:induction false} UnfoldConcat(w: Wire, a: seq<Cid>, b: seq<Cid>)
    requires ValidWire(w)
    ensures Unfold(w, a + b) == Unfold(w, a) + Unfold(w, b)
    decreases |a|
  {
    if a == [] {
      assert a + b == b;
    } else {
      UnfoldConcat(w, a[1..], b);
      assert (a + b)[1..] == a[1..] + b;
    }
  }

  lemma UnfoldOne(w: Wire, k: Cid)
    requires ValidWire(w)
    ensures Unfold(w, [k]) == [k] + if Inline(k) then Unfold(w, LinksOf(w, k.digest)) else []
  {
    assert [k][1..] == [];
    assert Unfold(w, []) == [];
  }

  /** The links are those of these CIDs, unfolded, and so is their number. */
  ghost predicate Tallies(w: Wire, t: Tally, cids: seq<Cid>, headers: nat)
    requires ValidWire(w)
  {
    t.links == Kept(Unfold(w, cids)) && t.cids == |Unfold(w, cids)| && t.fields == headers
  }

  lemma TalliesBoth(w: Wire, a: Tally, x: seq<Cid>, m: nat, b: Tally, y: seq<Cid>, n: nat)
    requires ValidWire(w) && Tallies(w, a, x, m) && Tallies(w, b, y, n)
    ensures Tallies(w, Add(a, b), x + y, m + n)
  {
    UnfoldConcat(w, x, y);
    KeptConcat(Unfold(w, x), Unfold(w, y));
  }

  lemma TalliesField(w: Wire, t: Tally, cids: seq<Cid>, n: nat)
    requires ValidWire(w) && Tallies(w, t, cids, n)
    ensures Tallies(w, Add(FIELD, t), cids, 1 + n)
  {
    assert [] + t.links == t.links;
  }

  lemma TalliesNone(w: Wire)
    requires ValidWire(w)
    ensures Tallies(w, NOTHING, [], 0) && Tallies(w, FIELD, [], 1)
  {
  }

  lemma TalliesLink(w: Wire, cid: Cid)
    requires ValidWire(w) && !Inline(cid)
    ensures Tallies(w, Add(LINK, OutLink(cid)), [cid], 1)
  {
    UnfoldOne(w, cid);
    KeptOne(cid);
  }

  lemma TalliesInline(w: Wire, cid: Cid, t: Tally, cids: seq<Cid>, n: nat)
    requires ValidWire(w) && Inline(cid) && LinksOf(w, cid.digest) == cids && Tallies(w, t, cids, n)
    ensures Tallies(w, Add(LINK, t), [cid], 1 + n)
  {
    UnfoldOne(w, cid);
    KeptOne(cid);
    KeptConcat([cid], Unfold(w, cids));
  }

  /** Links, and the number of CIDs, as the kernel's scanner reports them, are those that the flush's own
      reader finds, in order, looking into inline blocks. */
  lemma {:induction false} CountIsUnfolded(w: Wire, item: Item)
    requires ValidWire(w) && WellFormed(w, item)
    ensures Count(item).links == Kept(Unfold(w, Cids(item)))
    ensures Count(item).cids == |Unfold(w, Cids(item))| && Count(item).fields == Headers(item)
    decreases item, 1
  {
    assert Tallies(w, Count(item), Cids(item), Headers(item)) by {
      match item {
        case Array(_, items) =>
          AllCountUnfolded(w, items);
          TalliesField(w, CountAll(items), CidsAll(items), HeadersAll(items));
        case Map(_, items) =>
          AllCountUnfolded(w, items);
          TalliesField(w, CountAll(items), CidsAll(items), HeadersAll(items));
        case Tagged(_, inner) =>
          CountIsUnfolded(w, inner);
          TalliesField(w, Count(inner), Cids(inner), Headers(inner));
        case Link(_, _, _, cid, inline) =>
          if inline.Some? {
            CountIsUnfolded(w, inline.value);
            KernelBlocksFlush(w, inline.value, cid.digest, Count(inline.value));
            TalliesInline(w, cid, Count(inline.value), Cids(inline.value), Headers(inline.value));
          } else {
            TalliesLink(w, cid);
          }
        case _ => TalliesNone(w);
      }
    }
  }

  lemma KeptOne(k: Cid)
    ensures Kept([k]) == if Outgoing(k) then [k] else []
    ensures Outgoing(k) ==> !Inline(k)
  {
    assert [k][1..] == [];
    assert Kept([]) == [];
  }

  lemma {:induction false} AllCountUnfolded(w: Wire, items: seq<Item>)
    requires ValidWire(w) && AllWellFormed(w, items)
    ensures Tallies(w, CountAll(items), CidsAll(items), HeadersAll(items))
    decreases items, 0
  {
    if items == [] {
      TalliesNone(w);
    } else {
      CountIsUnfolded(w, items[0]);
      AllCountUnfolded(w, items[1..]);
      TalliesBoth(w, Count(items[0]), Cids(items[0]), Headers(items[0]),
                  CountAll(items[1..]), CidsAll(items[1..]), HeadersAll(items[1..]));
    }
  }

  /** How many data items there are: one for each header, inline blocks included, but none for the byte
      string of a link. */
  ghost function Headers(item: Item): nat
    decreases item, 1
  {
    match item
    case Scalar(_) => 1
    case Bytes(_, _) => 1
    case Array(_, items) => 1 + HeadersAll(items)
    case Map(_, items) => 1 + HeadersAll(items)
    case Tagged(_, inner) => 1 + Headers(inner)
    case Link(_, _, _, _, inline) => 1 + if inline.Some? then Headers(inline.value) else 0
  }

  ghost function HeadersAll(items: seq<Item>): nat
    decreases items, 0
  {
    if items == [] then 0 else Headers(items[0]) + HeadersAll(items[1..])
  }

  /** A CID that a block mentions, itself or in a block that it holds. */
  ghost predicate Mentions(w: Wire, block: seq<Byte>, k: Cid)
    requires ValidWire(w)
  {
    k in Unfold(w, LinksOf(w, block))
  }

  /** The links of a block are all the CIDs it mentions that are links to blocks in the store. */
  lemma LinksAreMentioned(w: Wire, block: seq<Byte>, t: Tally)
    requires ValidWire(w) && IsBlock(w, block, t)
    ensures t.links == Kept(Unfold(w, LinksOf(w, block))) && t.cids == |Unfold(w, LinksOf(w, block))|
    ensures forall k :: k in t.links <==> Outgoing(k) && Mentions(w, block, k)
  {
    var item :| SpelledBy(w, item, block, t);
    KernelBlocksFlush(w, item, block, t);
    CountIsUnfolded(w, item);
    forall k ensures k in t.links <==> Outgoing(k) && Mentions(w, block, k) {
      KeptHas(Unfold(w, LinksOf(w, block)), k);
    }
  }

  // ---------------------------------------------------------------- taking the reachable blocks

  ghost predicate Small(cache: Blockstore) {
    forall k :: k in cache ==> |cache[k]| < U64_MAX
  }

  /** `taken` lists the blocks of `cache0` named by `popped`, each once; `cache` is what is left. */
  ghost predicate Split(cache0: Blockstore, cache: Blockstore, taken: seq<(Cid, seq<Byte>)>, popped: set<Cid>) {
    && (forall i, j :: 0 <= i < j < |taken| ==> taken[i].0 != taken[j].0)
    && (forall i :: 0 <= i < |taken| ==>
          taken[i].0 in popped && Named(taken[i].0) && taken[i].0 in cache0 && taken[i].1 == cache0[taken[i].0])
    && (forall k :: k in popped && k in cache0 && Named(k) ==> (k, cache0[k]) in taken)
    && cache == Left(cache0, popped)
  }

  lemma {:induction false} WeightConcat(a: seq<Cid>, b: seq<Cid>)
    ensures Weight(a + b) == Weight(a) + Weight(b)
  {
    if a == [] {
      assert a + b == b;
    } else {
      WeightConcat(a[1..], b);
      assert (a + b)[1..] == a[1..] + b;
    }
  }

  lemma WeightPop(stack: seq<Cid>)
    requires |stack| > 0
    ensures Weight(stack) == Weight(stack[..|stack| - 1]) + 1 + |stack[|stack| - 1].digest|
  {
    var n := |stack| - 1;
    WeightConcat(stack[..n], [stack[n]]);
    assert stack == stack[..n] + [stack[n]];
    assert [stack[n]][1..] == [];
    assert Weight([stack[n]]) == 1 + |stack[n].digest| + Weight([]);
  }

  ghost predicate SmallCids(cids: seq<Cid>) {
    forall i :: 0 <= i < |cids| ==> |cids[i].digest| < U64_MAX
  }

  lemma {:induction false} WeightBoundsEach(cids: seq<Cid>, i: nat)
    requires i < |cids|
    ensures |cids[i].digest| < Weight(cids)
  {
    if i > 0 {
      WeightBoundsEach(cids[1..], i - 1);
    }
  }

  lemma LinksAreSmall(w: Wire, block: seq<Byte>)
    requires ValidWire(w) && |block| < U64_MAX && Shallow(w, 1, block).Some?
    ensures Weight(LinksOf(w, block)) <= |block| && SmallCids(LinksOf(w, block))
  {
    ShallowFits(w, 1, block);
    var cids := LinksOf(w, block);
    forall i | 0 <= i < |cids| ensures |cids[i].digest| < U64_MAX {
      WeightBoundsEach(cids, i);
    }
  }

  ghost predicate AllGood(w: Wire, cids: seq<Cid>) {
    forall i :: 0 <= i < |cids| ==> GoodCid(w, cids[i])
  }

  /** One step of the walk: what is done with the CID `k` popped from the stack. */
  method Process(w: Wire, k: Cid, stack0: seq<Cid>, cache0: Blockstore, taken0: seq<(Cid, seq<Byte>)>)
    returns (r: Result<(), FlushError>, stack: seq<Cid>, cache: Blockstore, taken: seq<(Cid, seq<Byte>)>)
    requires ValidWire(w) && Small(cache0) && SmallCids(stack0) && |k.digest| < U64_MAX
    ensures r.Ok? ==> stack == stack0 + Children(w, cache0, k)
    ensures r.Ok? ==> SmallCids(stack)
    ensures r.Ok? ==> cache == if Named(k) then cache0 - {k} else cache0
    ensures r.Ok? ==> taken == taken0 + if Named(k) && k in cache0 then [(k, cache0[k])] else []
    ensures r.Ok? ==> |cache| < |cache0| || (cache == cache0 && Weight(stack) < Weight(stack0) + 1 + |k.digest|)
    ensures Accepted(w, cache0) && GoodCid(w, k) && AllGood(w, stack0) ==>
              r.Ok? && Accepted(w, cache) && AllGood(w, stack)
    ensures r.Ok? ==> Small(cache)
  {
    stack, cache, taken := stack0, cache0, taken0;
    assert stack0 + [] == stack0 && taken0 + [] == taken0;
    if Ignored(k.codec) {
      return Ok(()), stack, cache, taken;
    }
    if !Allowed(k.codec) {
      return Err(UnexpectedCodec), stack, cache, taken;
    }
    if !((k.hashCode == BLAKE2B_256 && |k.digest| == 32) || k.hashCode == IDENTITY) {
      return Err(UnexpectedMultihash), stack, cache, taken;
    }
    if k.hashCode == IDENTITY {
      r := Ok(());
      if k.codec == DAG_CBOR {
        if t :| IsBlock(w, k.digest, t) {
          AcceptedScans(w, k.digest, t);
        }
        r, stack := ScanForLinks(w, k.digest, stack);
        if r.Ok? {
          LinksAreSmall(w, k.digest);
          WeightConcat(stack0, LinksOf(w, k.digest));
        }
      }
      return;
    }
    if k !in cache {
      assert cache0 - {k} == cache0;
      return Ok(()), stack, cache, taken;
    }
    var block := cache[k];
    cache := cache - {k};
    assert cache0.Keys == cache.Keys + {k};
    assert |cache| == |cache.Keys| && |cache0| == |cache0.Keys|;
    r := Ok(());
    if k.codec == DAG_CBOR {
      if t :| IsBlock(w, block, t) {
        AcceptedScans(w, block, t);
      }
      r, stack := ScanForLinks(w, block, stack);
      if r.Err? {
        return;
      }
      LinksAreSmall(w, block);
    }
    taken := taken + [(k, block)];
  }

  /** The CIDs popped or waiting are reachable, and the links of a popped one are popped or waiting. */
  ghost predicate Walked(w: Wire, cache0: Blockstore, root: Cid, stack: seq<Cid>, popped: set<Cid>)
    requires ValidWire(w)
  {
    && (root in popped || root in stack)
    && (forall k, c :: k in popped && c in Children(w, cache0, k) ==> c in popped || c in stack)
    && (forall k :: k in popped || k in stack ==> Reachable(w, cache0, root, k))
  }

  ghost function Left(cache0: Blockstore, popped: set<Cid>): Blockstore {
    map k | k in cache0 && !(k in popped && Named(k)) :: cache0[k]
  }

  lemma WalkStep(w: Wire, cache0: Blockstore, cache: Blockstore, root: Cid, rest: seq<Cid>, popped: set<Cid>, k: Cid,
                 stack: seq<Cid>)
    requires ValidWire(w) && Walked(w, cache0, root, rest + [k], popped)
    requires cache == Left(cache0, popped) && stack == rest + Children(w, cache, k)
    ensures Walked(w, cache0, root, stack, popped + {k})
  {
    assert k in rest + [k];
    forall x, c | x in popped + {k} && c in Children(w, cache0, x) ensures c in popped + {k} || c in stack {
      if x in popped {
        assert c in popped || c in rest + [k];
      } else {
        assert Children(w, cache0, k) == Children(w, cache, k);
      }
    }
    forall x | x in popped + {k} || x in stack ensures Reachable(w, cache0, root, x) {
      if x in Children(w, cache, k) {
        assert x in Children(w, cache0, k);
        ReachChild(w, cache0, root, k, x);
      } else {
        assert x in popped || x in rest + [k];
      }
    }
  }

  lemma WalkEnds(w: Wire, cache0: Blockstore, root: Cid, popped: set<Cid>)
    requires ValidWire(w) && Walked(w, cache0, root, [], popped)
    ensures forall k :: k in popped <==> Reachable(w, cache0, root, k)
  {
    forall k | Reachable(w, cache0, root, k) ensures k in popped {
      var p :| Path(w, cache0, p) && p[0] == root && p[|p| - 1] == k;
      ClosedHoldsPath(w, cache0, popped, p);
    }
  }

  lemma SplitStep(cache0: Blockstore, cache: Blockstore, taken: seq<(Cid, seq<Byte>)>, popped: set<Cid>, k: Cid,
                  cache': Blockstore, taken': seq<(Cid, seq<Byte>)>)
    requires Split(cache0, cache, taken, popped)
    requires cache' == if Named(k) then cache - {k} else cache
    requires taken' == taken + if Named(k) && k in cache then [(k, cache[k])] else []
    ensures Split(cache0, cache', taken', popped + {k})
  {
    forall x | x in popped + {k} && x in cache0 && Named(x) ensures (x, cache0[x]) in taken' {
      if x in popped {
        assert (x, cache0[x]) in taken;
      } else {
        assert taken'[|taken|] == (x, cache0[x]);
      }
    }
  }

  ghost predicate Halfway(w: Wire, cache0: Blockstore, root: Cid, stack: seq<Cid>, cache: Blockstore,
                          taken: seq<(Cid, seq<Byte>)>, popped: set<Cid>)
    requires ValidWire(w)
  {
    && Small(cache) && SmallCids(stack)
    && Walked(w, cache0, root, stack, popped) && Split(cache0, cache, taken, popped)
  }

  /** One turn of the loop. */
  method TakeNext(w: Wire, ghost cache0: Blockstore, ghost root: Cid, stack0: seq<Cid>, cache1: Blockstore,
                  taken0: seq<(Cid, seq<Byte>)>, ghost popped: set<Cid>)
    returns (r: Result<(), FlushError>, stack: seq<Cid>, cache: Blockstore, taken: seq<(Cid, seq<Byte>)>)
    requires ValidWire(w) && stack0 != [] && Halfway(w, cache0, root, stack0, cache1, taken0, popped)
    ensures r.Ok? ==> Halfway(w, cache0, root, stack, cache, taken, popped + {stack0[|stack0| - 1]})
    ensures r.Ok? ==> |cache| < |cache1| || (|cache| == |cache1| && Weight(stack) < Weight(stack0))
    ensures Accepted(w, cache1) && AllGood(w, stack0) ==> r.Ok? && Accepted(w, cache) && AllGood(w, stack)
  {
    var k, rest := stack0[|stack0| - 1], stack0[..|stack0| - 1];
    PopFacts(w, stack0, rest, k);
    r, stack, cache, taken := Process(w, k, rest, cache1, taken0);
    if r.Ok? {
      StepKeeps(w, cache0, root, stack0, rest, k, cache1, taken0, popped, stack, cache, taken);
    }
  }

  lemma PopFacts(w: Wire, stack: seq<Cid>, rest: seq<Cid>, k: Cid)
    requires stack != [] && rest == stack[..|stack| - 1] && k == stack[|stack| - 1]
    ensures stack == rest + [k] && Weight(stack) == Weight(rest) + 1 + |k.digest|
    ensures SmallCids(stack) ==> SmallCids(rest) && |k.digest| < U64_MAX
    ensures AllGood(w, stack) ==> AllGood(w, rest) && GoodCid(w, k)
  {
    WeightPop(stack);
  }

  lemma StepKeeps(w: Wire, cache0: Blockstore, root: Cid, stack0: seq<Cid>, rest: seq<Cid>, k: Cid, cache1: Blockstore,
                  taken0: seq<(Cid, seq<Byte>)>, popped: set<Cid>, stack: seq<Cid>, cache: Blockstore,
                  taken: seq<(Cid, seq<Byte>)>)
    requires ValidWire(w) && Halfway(w, cache0, root, stack0, cache1, taken0, popped) && stack0 == rest + [k]
    requires stack == rest + Children(w, cache1, k) && SmallCids(stack) && Small(cache)
    requires cache == if Named(k) then cache1 - {k} else cache1
    requires taken == taken0 + if Named(k) && k in cache1 then [(k, cache1[k])] else []
    ensures Halfway(w, cache0, root, stack, cache, taken, popped + {k})
  {
    SplitStep(cache0, cache1, taken0, popped, k, cache, taken);
    WalkStep(w, cache0, cache1, root, rest, popped, k, stack);
  }

  method TakeReachable(w: Wire, cache0: Blockstore, root: Cid)
    returns (r: Result<seq<(Cid, seq<Byte>)>, FlushError>, cache: Blockstore, ghost popped: set<Cid>)
    requires ValidWire(w) && Small(cache0) && |root.digest| < U64_MAX
    ensures r.Ok? ==> forall k :: k in popped <==> Reachable(w, cache0, root, k)
    ensures r.Ok? ==> Split(cache0, cache, r.value, popped)
    ensures Accepted(w, cache0) && GoodCid(w, root) ==> r.Ok?
  {
    cache := cache0;
    var stack := [root];
    var taken: seq<(Cid, seq<Byte>)> := [];
    popped := {};
    ReachRoot(w, cache0, root);
    while stack != []
      invariant Halfway(w, cache0, root, stack, cache, taken, popped)
      invariant Accepted(w, cache0) && GoodCid(w, root) ==> Accepted(w, cache) && AllGood(w, stack)
      decreases |cache|, Weight(stack)
    {
      ghost var k := stack[|stack| - 1];
      var step;
      step, stack, cache, taken := TakeNext(w, cache0, root, stack, cache, taken, popped);
      if step.Err? {
        return Err(step.error), cache, popped;
      }
      popped := popped + {k};
    }
    WalkEnds(w, cache0, root, popped);
    return Ok(taken), cache, popped;
  }

  // ---------------------------------------------------------------- the blockstore

  class BufferedBlockstore {
    const w: Wire
    var base: Blockstore
    var write: Blockstore

    constructor (w: Wire, base: Blockstore)
      ensures this.w == w && this.base == base && write == map[]
    {
      this.w, this.base, write := w, base, map[];
    }

    /** What readers see. */
    ghost function View(): Blockstore
      reads this
    {
      base + write
    }

    method Get(k: Cid) returns (r: Option<seq<Byte>>)
      ensures r == if k in View() then Some(View()[k]) else None
    {
      r := if k in write then Some(write[k]) else if k in base then Some(base[k]) else None;
    }

    method PutKeyed(k: Cid, block: seq<Byte>)
      modifies this
      ensures View() == old(View())[k := block] && base == old(base) && write == old(write)[k := block]
    {
      write := write[k := block];
    }

    /** Moves the DAG under `root` from the buffer to the base store. After an error the buffer has
        lost the blocks that were already taken. */
    method Flush(root: Cid) returns (r: Result<(), FlushError>)
      requires ValidWire(w) && Small(write) && |root.digest| < U64_MAX
      modifies this
      ensures r.Ok? ==> View() == old(View())
      ensures r.Ok? ==> forall k :: k in old(write) && Named(k) ==>
                          if Reachable(w, old(write), root, k)
                          then k !in write && k in base && base[k] == old(write)[k]
                          else k in write && write[k] == old(write)[k]
      ensures r.Ok? ==> forall k :: k in base && k !in old(base) ==> k in old(write) && Reachable(w, old(write), root, k)
      ensures Accepted(w, old(write)) && GoodCid(w, root) ==> r.Ok?
    {
      var taken;
      ghost var popped;
      taken, write, popped := TakeReachable(w, write, root);
      if taken.Err? {
        return Err(taken.error);
      }
      TakenIsMoved(old(write), write, taken.value, popped);
      FlushedView(base, old(write), popped);
      base := PutManyKeyed(base, taken.value);
      return Ok(());
    }
  }

  /** The blocks that a walk has taken. */
  ghost function Moved(cache0: Blockstore, popped: set<Cid>): Blockstore {
    map k | k in cache0 && k in popped && Named(k) :: cache0[k]
  }

  lemma FlushedView(base0: Blockstore, write0: Blockstore, popped: set<Cid>)
    ensures (base0 + Moved(write0, popped)) + Left(write0, popped) == base0 + write0
  {
  }

  ghost function MapOf(blocks: seq<(Cid, seq<Byte>)>): Blockstore {
    if blocks == [] then map[]
    else MapOf(blocks[..|blocks| - 1])[blocks[|blocks| - 1].0 := blocks[|blocks| - 1].1]
  }

  lemma {:induction false} MapOfHolds(blocks: seq<(Cid, seq<Byte>)>, all: Blockstore)
    requires forall i :: 0 <= i < |blocks| ==> blocks[i].0 in all && all[blocks[i].0] == blocks[i].1
    ensures forall k :: k in MapOf(blocks) ==> k in all && MapOf(blocks)[k] == all[k]
    ensures forall i :: 0 <= i < |blocks| ==> blocks[i].0 in MapOf(blocks)
    ensures forall k :: k in MapOf(blocks) ==> exists i :: 0 <= i < |blocks| && blocks[i].0 == k
  {
    if blocks != [] {
      MapOfHolds(blocks[..|blocks| - 1], all);
    }
  }

  lemma TakenIsMoved(all: Blockstore, left: Blockstore, blocks: seq<(Cid, seq<Byte>)>, popped: set<Cid>)
    requires Split(all, left, blocks, popped)
    ensures MapOf(blocks) == Moved(all, popped)
  {
    MapOfHolds(blocks, all);
    forall k | k in Moved(all, popped) ensures k in MapOf(blocks) {
      assert (k, all[k]) in blocks;
    }
  }

  method PutManyKeyed(base0: Blockstore, blocks: seq<(Cid, seq<Byte>)>) returns (base: Blockstore)
    ensures base == base0 + MapOf(blocks)
  {
    base := base0;
    for i := 0 to |blocks|
      invariant base == base0 + MapOf(blocks[..i])
    {
      base := base[blocks[i].0 := blocks[i].1];
      assert blocks[..i + 1][..i] == blocks[..i];
    }
    assert blocks[..|blocks|] == blocks;
  }
}
