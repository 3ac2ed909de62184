/** DAG-CBOR as a grammar: definite-length data items with the major types of section 2.1 of
    RFC 7049, where tag 42 holds a CID. An inline (identity-hashed) DAG-CBOR block is an item of
    its own below its link. `Flat` reads the grammar with a counter of items to go, as the scanners
    do; it is proved to accept exactly the encodings. */
module CborGrammar {
  import opened Common
  import opened BitStrings

  datatype Cid = Cid(codec: nat, hashCode: nat, digest: seq<Byte>)
  type Blockstore = map<Cid, seq<Byte>>

  const CBOR: nat := 0x51
  const DAG_CBOR: nat := 0x71
  const IPLD_RAW: nat := 0x55
  const FIL_COMMITMENT_UNSEALED: nat := 0xf101
  const FIL_COMMITMENT_SEALED: nat := 0xf102
  const BLAKE2B_256: nat := 0xb220
  const IDENTITY: nat := 0x0

  // ---------------------------------------------------------------- what lies below the grammar

  datatype Head = Head(major: nat, extra: nat, rest: seq<Byte>)

  /** How headers and CIDs are written: `head` is the meaning of a header, `header` reads one from
      the front of a buffer, `read` reads a binary CID and tells how many bytes it took. */
  datatype Wire = Wire(
    head: seq<Byte> -> Option<(nat, nat)>,
    header: seq<Byte> -> Option<Head>,
    read: seq<Byte> -> Option<(Cid, nat)>)

  /** A header in front of anything is read. */
  ghost predicate HeaderReads(w: Wire, h: seq<Byte>, tail: seq<Byte>) {
    w.head(h).Some? ==> |h| > 0 && w.header(h + tail) == Some(Head(w.head(h).value.0, w.head(h).value.1, tail))
  }

  /** What is read from a buffer is a header, and its argument fits 64 bits. */
  ghost predicate ReadsHeader(w: Wire, buf: seq<Byte>) {
    w.header(buf).Some? ==>
      var Head(major, extra, rest) := w.header(buf).value;
      && |rest| < |buf| && major < 8 && extra <= U64_MAX
      && w.head(buf[..|buf| - |rest|]) == Some((major, extra))
      && buf == buf[..|buf| - |rest|] + rest
  }

  /** A binary CID is longer than the digest inside it. */
  ghost predicate ReadsCid(w: Wire, b: seq<Byte>) {
    w.read(b).Some? ==> |w.read(b).value.0.digest| < w.read(b).value.1 <= |b|
  }

  ghost predicate ValidWire(w: Wire) {
    && (forall h, tail :: HeaderReads(w, h, tail))
    && (forall buf :: ReadsHeader(w, buf))
    && (forall b :: ReadsCid(w, b))
  }

  // ---------------------------------------------------------------- links

  predicate Ignored(codec: nat) {
    codec == FIL_COMMITMENT_UNSEALED || codec == FIL_COMMITMENT_SEALED
  }

  predicate Allowed(codec: nat) {
    codec == CBOR || codec == DAG_CBOR || codec == IPLD_RAW
  }

  /** A link to a block in the store. */
  predicate Outgoing(cid: Cid) {
    Allowed(cid.codec) && cid.hashCode == BLAKE2B_256 && |cid.digest| == 32
  }

  /** A link that the kernel accepts. */
  predicate Visitable(cid: Cid) {
    Ignored(cid.codec) || Outgoing(cid) || (Allowed(cid.codec) && cid.hashCode == IDENTITY)
  }

  /** The digest is itself a DAG-CBOR block. */
  predicate Inline(cid: Cid) {
    cid.codec == DAG_CBOR && cid.hashCode == IDENTITY
  }

  // ---------------------------------------------------------------- the grammar

  datatype Item =
    | Scalar(head: seq<Byte>)
    | Bytes(head: seq<Byte>, content: seq<Byte>)
    | Array(head: seq<Byte>, items: seq<Item>)
    | Map(head: seq<Byte>, items: seq<Item>)
    | Tagged(head: seq<Byte>, item: Item)
    | Link(head: seq<Byte>, bytesHead: seq<Byte>, bytes: seq<Byte>, cid: Cid, inline: Option<Item>)

  ghost function Encode(item: Item): seq<Byte>
    decreases item, 2
  {
    item.head + Tail(item)
  }

  /** What follows the header. */
  ghost function Tail(item: Item): seq<Byte>
    decreases item, 1
  {
    match item
    case Scalar(_) => []
    case Bytes(_, content) => content
    case Array(_, items) => EncodeAll(items)
    case Map(_, items) => EncodeAll(items)
    case Tagged(_, inner) => Encode(inner)
    case Link(_, bh, bytes, _, _) => bh + ([0] + bytes)
  }

  ghost function EncodeAll(items: seq<Item>): seq<Byte>
    decreases items, 0
  {
    if items == [] then [] else Encode(items[0]) + EncodeAll(items[1..])
  }

  ghost predicate WellFormed(w: Wire, item: Item)
    decreases item, 1
  {
    w.head(item.head).Some? &&
    var (major, extra) := w.head(item.head).value;
    match item
    case Scalar(_) => major == 0 || major == 1 || major == 7
    case Bytes(_, content) => (major == 2 || major == 3) && |content| == extra
    case Array(_, items) => major == 4 && |items| == extra && AllWellFormed(w, items)
    case Map(_, items) => major == 5 && |items| == 2 * extra && AllWellFormed(w, items)
    case Tagged(_, inner) => major == 6 && extra != 42 && WellFormed(w, inner)
    case Link(_, bh, bytes, cid, inline) =>
      && major == 6 && extra == 42
      && w.head(bh) == Some((2, 1 + |bytes|))
      && w.read(bytes) == Some((cid, |bytes|))
      && Visitable(cid)
      && (inline.Some? <==> Inline(cid))
      && (inline.Some? ==> WellFormed(w, inline.value) && Encode(inline.value) == cid.digest)
  }

  ghost predicate AllWellFormed(w: Wire, items: seq<Item>)
    decreases items, 0
  {
    items == [] || (WellFormed(w, items[0]) && AllWellFormed(w, items[1..]))
  }

  // ---------------------------------------------------------------- what a scan reports

  /** Links in document order, number of data items and number of CIDs, inline blocks included. */
  datatype Tally = Tally(links: seq<Cid>, fields: nat, cids: nat)

  const NOTHING: Tally := Tally([], 0, 0)
  const FIELD: Tally := Tally([], 1, 0)
  const LINK: Tally := Tally([], 1, 1)

  function OutLink(cid: Cid): Tally {
    Tally(if Outgoing(cid) then [cid] else [], 0, 0)
  }

  ghost function Add(a: Tally, b: Tally): Tally {
    Tally(a.links + b.links, a.fields + b.fields, a.cids + b.cids)
  }

  ghost function Count(item: Item): Tally
    decreases item, 1
  {
    match item
    case Scalar(_) => FIELD
    case Bytes(_, _) => FIELD
    case Array(_, items) => Add(FIELD, CountAll(items))
    case Map(_, items) => Add(FIELD, CountAll(items))
    case Tagged(_, inner) => Add(FIELD, Count(inner))
    case Link(_, _, _, cid, inline) => Add(LINK, if inline.Some? then Count(inline.value) else OutLink(cid))
  }

  ghost function CountAll(items: seq<Item>): Tally
    decreases items, 0
  {
    if items == [] then NOTHING else Add(Count(items[0]), CountAll(items[1..]))
  }

  // ---------------------------------------------------------------- reading with a counter

  datatype LinkBytes = LinkBytes(bytesHead: seq<Byte>, bytes: seq<Byte>, cid: Cid, rest: seq<Byte>)

  /** The byte string of a tag 42 and the CID in it. */
  ghost function ReadLink(w: Wire, buf: seq<Byte>): (r: Option<LinkBytes>)
    requires ValidWire(w)
    ensures r.Some? ==> |r.value.cid.digest| < |buf| && |r.value.rest| < |buf|
  {
    var head := w.header(buf);
    if head.None? then None
    else
      var Head(major, extra, rest) := head.value;
      assert ReadsHeader(w, buf);
      if major != 2 || extra > |rest| || extra < 1 || rest[0] != 0 then None
      else
        var bytes := rest[1..extra];
        var cid := w.read(bytes);
        assert ReadsCid(w, bytes);
        if cid.None? || cid.value.1 != |bytes| then None
        else Some(LinkBytes(buf[..|buf| - |rest|], bytes, cid.value.0, rest[extra..]))
  }

  datatype Summary = Summary(tally: Tally, rest: seq<Byte>)

  ghost function Ahead(t: Tally, s: Option<Summary>): Option<Summary> {
    if s.None? then None else Some(Summary(Add(t, s.value.tally), s.value.rest))
  }

  /** Reads `n` items from the front of `buf`. */
  ghost function Flat(w: Wire, n: nat, buf: seq<Byte>): Option<Summary>
    requires ValidWire(w)
    decreases |buf|
  {
    if n == 0 then Some(Summary(NOTHING, buf))
    else
      var head := w.header(buf);
      if head.None? then None
      else
        var Head(major, extra, rest) := head.value;
        assert ReadsHeader(w, buf);
        if major == 0 || major == 1 || major == 7 then Ahead(FIELD, Flat(w, n - 1, rest))
        else if major == 2 || major == 3 then
          if extra > |rest| then None else Ahead(FIELD, Flat(w, n - 1, rest[extra..]))
        else if major == 4 then Ahead(FIELD, Flat(w, n - 1 + extra, rest))
        else if major == 5 then Ahead(FIELD, Flat(w, n - 1 + 2 * extra, rest))
        else if extra != 42 then Ahead(FIELD, Flat(w, n, rest))
        else
          var link := ReadLink(w, rest);
          if link.None? then None
          else
            var visited := Visit(w, link.value.cid);
            if visited.None? then None
            else Ahead(Add(LINK, visited.value), Flat(w, n - 1, link.value.rest))
  }

  /** What visiting a CID reports. */
  ghost function Visit(w: Wire, cid: Cid): Option<Tally>
    requires ValidWire(w)
    decreases |cid.digest| + 1
  {
    if !Visitable(cid) then None
    else if Inline(cid) then
      var block := Flat(w, 1, cid.digest);
      if block.None? || block.value.rest != [] then None else Some(block.value.tally)
    else Some(OutLink(cid))
  }

  // ---------------------------------------------------------------- the reader is the grammar

  lemma AddAssociates(a: Tally, b: Tally, c: Tally)
    ensures Add(Add(a, b), c) == Add(a, Add(b, c))
    ensures Add(NOTHING, a) == a == Add(a, NOTHING)
  {
  }

  lemma AheadTwice(a: Tally, b: Tally, s: Option<Summary>)
    ensures Ahead(a, Ahead(b, s)) == Ahead(Add(a, b), s)
    ensures Ahead(NOTHING, s) == s
  {
    if s.Some? {
      AddAssociates(a, b, s.value.tally);
      AddAssociates(s.value.tally, a, b);
    }
  }

  lemma Associate(a: seq<Byte>, b: seq<Byte>, c: seq<Byte>)
    ensures (a + b) + c == a + (b + c)
  {
  }

  lemma ReadLinkComplete(w: Wire, bh: seq<Byte>, bytes: seq<Byte>, rest: seq<Byte>)
    requires ValidWire(w) && w.head(bh) == Some((2, 1 + |bytes|))
    requires w.read(bytes).Some? && w.read(bytes).value.1 == |bytes|
    ensures ReadLink(w, (bh + ([0] + bytes)) + rest) == Some(LinkBytes(bh, bytes, w.read(bytes).value.0, rest))
  {
    var tail := [0] + bytes + rest;
    var buf := (bh + ([0] + bytes)) + rest;
    assert buf == bh + tail;
    assert HeaderReads(w, bh, tail);
    assert tail[1..1 + |bytes|] == bytes && tail[1 + |bytes|..] == rest;
    assert buf[..|bh|] == bh;
  }

  lemma ReadLinkSound(w: Wire, buf: seq<Byte>)
    requires ValidWire(w) && ReadLink(w, buf).Some?
    ensures var LinkBytes(bh, bytes, cid, rest) := ReadLink(w, buf).value;
            && w.head(bh) == Some((2, 1 + |bytes|))
            && w.read(bytes) == Some((cid, |bytes|))
            && buf == (bh + ([0] + bytes)) + rest
  {
    assert ReadsHeader(w, buf);
    var Head(_, extra, rest) := w.header(buf).value;
    var h, bytes := buf[..|buf| - |rest|], rest[1..extra];
    assert rest == ([0] + bytes) + rest[extra..];
    Associate(h, [0] + bytes, rest[extra..]);
  }

  lemma HeadFirst(w: Wire, item: Item, rest: seq<Byte>)
    requires ValidWire(w) && w.head(item.head).Some?
    ensures w.header(Encode(item) + rest)
            == Some(Head(w.head(item.head).value.0, w.head(item.head).value.1, Tail(item) + rest))
  {
    Associate(item.head, Tail(item), rest);
    assert HeaderReads(w, item.head, Tail(item) + rest);
  }

  /** The encoding of an item is read back, whatever follows it. */
  lemma {:induction false} FlatComplete(w: Wire, item: Item, n: nat, rest: seq<Byte>)
    requires ValidWire(w) && WellFormed(w, item)
    ensures Flat(w, n + 1, Encode(item) + rest) == Ahead(Count(item), Flat(w, n, rest))
    decreases item, 2
  {
    match item {
      case Scalar(_) => PlainComplete(w, item, n, rest);
      case Bytes(_, _) => PlainComplete(w, item, n, rest);
      case Array(_, items) =>
        FlatAllComplete(w, items, n, rest);
        NestComplete(w, item, n, rest, |items|, CountAll(items));
      case Map(_, items) =>
        FlatAllComplete(w, items, n, rest);
        NestComplete(w, item, n, rest, |items|, CountAll(items));
      case Tagged(_, inner) =>
        FlatComplete(w, inner, n, rest);
        NestComplete(w, item, n, rest, 1, Count(inner));
      case Link(_, bh, bytes, _, _) =>
        VisitComplete(w, item);
        LinkComplete(w, item, n, rest);
    }
  }

  lemma PlainComplete(w: Wire, item: Item, n: nat, rest: seq<Byte>)
    requires ValidWire(w) && WellFormed(w, item) && (item.Scalar? || item.Bytes?)
    ensures Flat(w, n + 1, Encode(item) + rest) == Ahead(FIELD, Flat(w, n, rest))
  {
    HeadFirst(w, item, rest);
    assert (Tail(item) + rest)[|Tail(item)|..] == rest;
    assert item.Scalar? ==> Tail(item) + rest == rest;
    FlatField(w, n + 1, Encode(item) + rest, n, rest);
  }

  /** An item whose children were read, `k` of them, with tally `t`. */
  lemma NestComplete(w: Wire, item: Item, n: nat, rest: seq<Byte>, k: nat, t: Tally)
    requires ValidWire(w) && w.head(item.head).Some?
    requires var (major, extra) := w.head(item.head).value;
             (major == 4 && k == extra) || (major == 5 && k == 2 * extra) || (major == 6 && extra != 42 && k == 1)
    requires Flat(w, n + k, Tail(item) + rest) == Ahead(t, Flat(w, n, rest))
    ensures Flat(w, n + 1, Encode(item) + rest) == Ahead(Add(FIELD, t), Flat(w, n, rest))
  {
    HeadFirst(w, item, rest);
    FlatField(w, n + 1, Encode(item) + rest, n + k, Tail(item) + rest);
    AheadTwice(FIELD, t, Flat(w, n, rest));
  }

  lemma LinkComplete(w: Wire, item: Item, n: nat, rest: seq<Byte>)
    requires ValidWire(w) && WellFormed(w, item) && item.Link? && Visit(w, item.cid).Some?
    ensures Flat(w, n + 1, Encode(item) + rest) == Ahead(Add(LINK, Visit(w, item.cid).value), Flat(w, n, rest))
  {
    HeadFirst(w, item, rest);
    ReadLinkComplete(w, item.bytesHead, item.bytes, rest);
    FlatLink(w, n + 1, Encode(item) + rest, Tail(item) + rest, rest);
  }

  /** After a header that is not of a link, `m` items are left to read from `rest`. */
  ghost predicate OneField(w: Wire, n: nat, buf: seq<Byte>, m: nat, rest: seq<Byte>) {
    n > 0 && w.header(buf).Some? &&
    var Head(major, extra, tail) := w.header(buf).value;
    if major == 0 || major == 1 || major == 7 then m == n - 1 && rest == tail
    else if major == 2 || major == 3 then m == n - 1 && extra <= |tail| && rest == tail[extra..]
    else if major == 4 then m == n - 1 + extra && rest == tail
    else if major == 5 then m == n - 1 + 2 * extra && rest == tail
    else extra != 42 && m == n && rest == tail
  }

  lemma FlatField(w: Wire, n: nat, buf: seq<Byte>, m: nat, rest: seq<Byte>)
    requires ValidWire(w) && OneField(w, n, buf, m, rest)
    ensures Flat(w, n, buf) == Ahead(FIELD, Flat(w, m, rest))
  {
  }

  lemma FlatLink(w: Wire, n: nat, buf: seq<Byte>, tail: seq<Byte>, rest: seq<Byte>)
    requires ValidWire(w) && n > 0 && w.header(buf) == Some(Head(6, 42, tail))
    requires ReadLink(w, tail).Some? && ReadLink(w, tail).value.rest == rest && Visit(w, ReadLink(w, tail).value.cid).Some?
    ensures Flat(w, n, buf) == Ahead(Add(LINK, Visit(w, ReadLink(w, tail).value.cid).value), Flat(w, n - 1, rest))
  {
  }

  lemma {:induction false} VisitComplete(w: Wire, item: Item)
    requires ValidWire(w) && WellFormed(w, item) && item.Link?
    ensures Visit(w, item.cid) == Some(if item.inline.Some? then Count(item.inline.value) else OutLink(item.cid))
    decreases item, 0
  {
    if item.inline.Some? {
      var inner := item.inline.value;
      FlatAlone(w, inner);
      VisitInline(w, item.cid, Count(inner));
    }
  }

  lemma {:induction false} FlatAlone(w: Wire, item: Item)
    requires ValidWire(w) && WellFormed(w, item)
    ensures Flat(w, 1, Encode(item)) == Some(Summary(Count(item), []))
    decreases item, 3
  {
    FlatComplete(w, item, 0, []);
    ReadAlone(w, Encode(item), Count(item));
  }

  lemma VisitInline(w: Wire, cid: Cid, t: Tally)
    requires ValidWire(w) && Visitable(cid) && Inline(cid) && Flat(w, 1, cid.digest) == Some(Summary(t, []))
    ensures Visit(w, cid) == Some(t)
  {
  }

  lemma {:induction false} FlatAllComplete(w: Wire, items: seq<Item>, n: nat, rest: seq<Byte>)
    requires ValidWire(w) && AllWellFormed(w, items)
    ensures Flat(w, n + |items|, EncodeAll(items) + rest) == Ahead(CountAll(items), Flat(w, n, rest))
    decreases items, 0
  {
    if items == [] {
      NoneAhead(rest, Flat(w, n, rest));
    } else {
      var others := items[1..];
      FlatAllComplete(w, others, n, rest);
      FlatComplete(w, items[0], n + |others|, EncodeAll(others) + rest);
      FlatConsComplete(w, items, n, rest, Flat(w, n, rest));
    }
  }

  lemma FlatConsComplete(w: Wire, items: seq<Item>, n: nat, rest: seq<Byte>, s: Option<Summary>)
    requires ValidWire(w) && items != []
    requires Flat(w, n + |items|, Encode(items[0]) + (EncodeAll(items[1..]) + rest))
             == Ahead(Count(items[0]), Flat(w, n + |items| - 1, EncodeAll(items[1..]) + rest))
    requires Flat(w, n + |items| - 1, EncodeAll(items[1..]) + rest) == Ahead(CountAll(items[1..]), s)
    ensures Flat(w, n + |items|, EncodeAll(items) + rest) == Ahead(CountAll(items), s)
  {
    FlatFirst(w, n + |items|, Encode(items[0]), EncodeAll(items[1..]), rest, Count(items[0]), CountAll(items[1..]), s);
  }

  lemma NoneAhead(rest: seq<Byte>, s: Option<Summary>)
    ensures [] + rest == rest && Ahead(NOTHING, s) == s
  {
    AheadTwice(NOTHING, NOTHING, s);
  }

  /** A first item and others, read one after the other. */
  lemma FlatFirst(w: Wire, n: nat, first: seq<Byte>, others: seq<Byte>, rest: seq<Byte>, a: Tally, b: Tally, s: Option<Summary>)
    requires ValidWire(w) && n > 0 && Flat(w, n, first + (others + rest)) == Ahead(a, Flat(w, n - 1, others + rest))
    requires Flat(w, n - 1, others + rest) == Ahead(b, s)
    ensures Flat(w, n, (first + others) + rest) == Ahead(Add(a, b), s)
  {
    Associate(first, others, rest);
    AheadTwice(a, b, s);
  }

  lemma {:induction false} AllSplit(w: Wire, items: seq<Item>, k: nat)
    requires k <= |items|
    ensures EncodeAll(items) == EncodeAll(items[..k]) + EncodeAll(items[k..])
    ensures CountAll(items) == Add(CountAll(items[..k]), CountAll(items[k..]))
    ensures AllWellFormed(w, items) ==> AllWellFormed(w, items[..k]) && AllWellFormed(w, items[k..])
  {
    if k == 0 {
      assert items[0..] == items && items[..0] == [];
      AddAssociates(CountAll(items), NOTHING, NOTHING);
    } else {
      AllSplit(w, items[1..], k - 1);
      var front := items[..k];
      assert front[0] == items[0] && front[1..] == items[1..][..k - 1] && items[1..][k - 1..] == items[k..];
      AddAssociates(Count(items[0]), CountAll(front[1..]), CountAll(items[k..]));
      Associate(Encode(items[0]), EncodeAll(front[1..]), EncodeAll(items[k..]));
    }
  }

  lemma AllCons(w: Wire, first: Item, others: seq<Item>)
    ensures EncodeAll([first] + others) == Encode(first) + EncodeAll(others)
    ensures AllWellFormed(w, [first] + others) <==> WellFormed(w, first) && AllWellFormed(w, others)
    ensures CountAll([first] + others) == Add(Count(first), CountAll(others))
  {
    assert ([first] + others)[1..] == others;
  }

  /** The bytes `buf` are the encoding of `items` and then `rest`, with this tally. */
  ghost predicate Spells(w: Wire, items: seq<Item>, buf: seq<Byte>, s: Summary) {
    AllWellFormed(w, items) && buf == EncodeAll(items) + s.rest && CountAll(items) == s.tally
  }

  lemma SpellsCons(w: Wire, item: Item, others: seq<Item>, buf: seq<Byte>, tail: seq<Byte>, s: Summary)
    requires WellFormed(w, item) && Spells(w, others, tail, s) && buf == item.head + (Tail(item) + tail)
    ensures Spells(w, [item] + others, buf, Summary(Add(Count(item), s.tally), s.rest))
  {
    AllCons(w, item, others);
    Associate(item.head, Tail(item), tail);
    Associate(Encode(item), EncodeAll(others), s.rest);
  }

  lemma SpellsFrom(w: Wire, all: seq<Item>, k: nat, tail: seq<Byte>, s: Summary)
    requires k <= |all| && Spells(w, all, tail, s)
    ensures AllWellFormed(w, all[..k])
    ensures Spells(w, all[k..], EncodeAll(all[k..]) + s.rest, Summary(CountAll(all[k..]), s.rest))
    ensures tail == EncodeAll(all[..k]) + (EncodeAll(all[k..]) + s.rest)
    ensures s.tally == Add(CountAll(all[..k]), CountAll(all[k..]))
  {
    AllSplit(w, all, k);
    Associate(EncodeAll(all[..k]), EncodeAll(all[k..]), s.rest);
  }

  /** Items that were read flat are the children of an array or a map. */
  lemma SpellsNest(w: Wire, item: Item, all: seq<Item>, k: nat, buf: seq<Byte>, tail: seq<Byte>, s: Summary)
    requires k <= |all| && Spells(w, all, tail, s) && buf == item.head + tail
    requires (item.Array? || item.Map?) && item.items == all[..k]
    requires AllWellFormed(w, all[..k]) ==> WellFormed(w, item)
    ensures Spells(w, [item] + all[k..], buf, Summary(Add(FIELD, s.tally), s.rest))
  {
    SpellsFrom(w, all, k, tail, s);
    var s' := Summary(CountAll(all[k..]), s.rest);
    SpellsCons(w, item, all[k..], buf, EncodeAll(all[k..]) + s.rest, s');
    AddAssociates(FIELD, CountAll(all[..k]), CountAll(all[k..]));
  }

  lemma SpellsTag(w: Wire, h: seq<Byte>, all: seq<Item>, buf: seq<Byte>, tail: seq<Byte>, s: Summary)
    requires |all| > 0 && Spells(w, all, tail, s) && buf == h + tail
    requires w.head(h).Some? && w.head(h).value.0 == 6 && w.head(h).value.1 != 42
    ensures Spells(w, [Tagged(h, all[0])] + all[1..], buf, Summary(Add(FIELD, s.tally), s.rest))
  {
    var item := Tagged(h, all[0]);
    Associate(Encode(all[0]), EncodeAll(all[1..]), s.rest);
    SpellsCons(w, item, all[1..], buf, EncodeAll(all[1..]) + s.rest, Summary(CountAll(all[1..]), s.rest));
    AddAssociates(FIELD, Count(all[0]), CountAll(all[1..]));
  }

  lemma SpellsPlain(w: Wire, item: Item, others: seq<Item>, buf: seq<Byte>, rest: seq<Byte>, s: Summary)
    requires WellFormed(w, item) && (item.Scalar? || item.Bytes?) && buf == item.head + rest && |Tail(item)| <= |rest|
    requires Tail(item) == rest[..|Tail(item)|] && Spells(w, others, rest[|Tail(item)|..], s)
    ensures Spells(w, [item] + others, buf, Summary(Add(FIELD, s.tally), s.rest))
  {
    Cut(rest, |Tail(item)|);
    SpellsCons(w, item, others, buf, rest[|Tail(item)|..], s);
  }

  lemma Cut(a: seq<Byte>, k: nat)
    requires k <= |a|
    ensures a == a[..k] + a[k..] && a[..0] == [] && a[0..] == a
  {
  }

  /** Everything the counter accepts is spelled by the grammar. */
  lemma {:induction false} FlatSound(w: Wire, n: nat, buf: seq<Byte>) returns (items: seq<Item>)
    requires ValidWire(w) && Flat(w, n, buf).Some?
    ensures |items| == n && Spells(w, items, buf, Flat(w, n, buf).value)
    decreases |buf|, 0
  {
    if n == 0 {
      items := [];
    } else {
      assert ReadsHeader(w, buf);
      var Head(major, extra, rest) := w.header(buf).value;
      var h := buf[..|buf| - |rest|];
      if major <= 3 || major == 7 {
        items := FlatPlainSound(w, n, buf, h, major, extra, rest);
      } else if major == 4 || major == 5 || extra != 42 {
        items := FlatNestSound(w, n, buf, h, major, extra, rest);
      } else {
        items := FlatLinkSound(w, n, buf, h, rest);
      }
    }
  }

  /** The header of `buf`, as it was read. */
  ghost predicate Headed(w: Wire, buf: seq<Byte>, h: seq<Byte>, major: nat, extra: nat, rest: seq<Byte>) {
    w.header(buf) == Some(Head(major, extra, rest)) && w.head(h) == Some((major, extra)) && buf == h + rest && |rest| < |buf|
  }

  lemma {:induction false} FlatPlainSound(w: Wire, n: nat, buf: seq<Byte>, h: seq<Byte>, major: nat, extra: nat, rest: seq<Byte>)
    returns (items: seq<Item>)
    requires ValidWire(w) && n > 0 && Flat(w, n, buf).Some?
    requires Headed(w, buf, h, major, extra, rest) && (major <= 3 || major == 7)
    ensures |items| == n && Spells(w, items, buf, Flat(w, n, buf).value)
    decreases |rest|, 1
  {
    var item := if major == 2 || major == 3 then Bytes(h, rest[..extra]) else Scalar(h);
    var tail := rest[|Tail(item)|..];
    Cut(rest, 0);
    FlatField(w, n, buf, n - 1, tail);
    var others := FlatSound(w, n - 1, tail);
    SpellsPlain(w, item, others, buf, rest, Flat(w, n - 1, tail).value);
    items := [item] + others;
  }

  lemma {:induction false} FlatNestSound(w: Wire, n: nat, buf: seq<Byte>, h: seq<Byte>, major: nat, extra: nat, rest: seq<Byte>)
    returns (items: seq<Item>)
    requires ValidWire(w) && n > 0 && Flat(w, n, buf).Some?
    requires Headed(w, buf, h, major, extra, rest) && (major == 4 || major == 5 || (major == 6 && extra != 42))
    ensures |items| == n && Spells(w, items, buf, Flat(w, n, buf).value)
    decreases |rest|, 1
  {
    var k := if major == 4 then extra else if major == 5 then 2 * extra else 1;
    var m := n - 1 + k;
    FlatField(w, n, buf, m, rest);
    var all := FlatSound(w, m, rest);
    if major == 6 {
      SpellsTag(w, h, all, buf, rest, Flat(w, m, rest).value);
      items := [Tagged(h, all[0])] + all[1..];
    } else {
      var item := if major == 4 then Array(h, all[..k]) else Map(h, all[..k]);
      SpellsNest(w, item, all, k, buf, rest, Flat(w, m, rest).value);
      items := [item] + all[k..];
    }
  }

  lemma {:induction false} FlatLinkSound(w: Wire, n: nat, buf: seq<Byte>, h: seq<Byte>, rest: seq<Byte>)
    returns (items: seq<Item>)
    requires ValidWire(w) && n > 0 && |rest| < |buf| && buf == h + rest && w.head(h) == Some((6, 42))
    requires var link := ReadLink(w, rest);
             link.Some? && Visit(w, link.value.cid).Some? && Flat(w, n - 1, link.value.rest).Some?
    ensures var LinkBytes(_, _, cid, tail) := ReadLink(w, rest).value;
            var s := Flat(w, n - 1, tail).value;
            |items| == n && Spells(w, items, buf, Summary(Add(Add(LINK, Visit(w, cid).value), s.tally), s.rest))
    decreases |rest|, 1
  {
    var LinkBytes(bh, bytes, cid, tail) := ReadLink(w, rest).value;
    ReadLinkSound(w, rest);
    var inline: Option<Item> := None;
    if Inline(cid) {
      var inner := FlatSound(w, 1, cid.digest);
      OneItem(w, inner, cid.digest, Visit(w, cid).value);
      inline := Some(inner[0]);
    }
    var item := Link(h, bh, bytes, cid, inline);
    var others := FlatSound(w, n - 1, tail);
    SpellsCons(w, item, others, buf, tail, Flat(w, n - 1, tail).value);
    items := [item] + others;
  }

  lemma OneItem(w: Wire, inner: seq<Item>, buf: seq<Byte>, t: Tally)
    requires |inner| == 1 && Spells(w, inner, buf, Summary(t, []))
    ensures WellFormed(w, inner[0]) && Encode(inner[0]) == buf && Count(inner[0]) == t
  {
    var item := inner[0];
    assert inner == [item] + [];
    AllCons(w, item, []);
    AddAssociates(Count(item), NOTHING, NOTHING);
    NothingAfter(Encode(item));
  }

  lemma NothingAfter(a: seq<Byte>)
    ensures a + [] == a && (a + []) + [] == a
  {
  }

  /** One whole block: some item of the grammar spells exactly `buf`. */
  ghost predicate IsBlock(w: Wire, buf: seq<Byte>, t: Tally) {
    exists item :: SpelledBy(w, item, buf, t)
  }

  ghost predicate SpelledBy(w: Wire, item: Item, buf: seq<Byte>, t: Tally) {
    WellFormed(w, item) && Encode(item) == buf && Count(item) == t
  }

  lemma BlockIsRead(w: Wire, item: Item, buf: seq<Byte>, t: Tally)
    requires ValidWire(w) && SpelledBy(w, item, buf, t)
    ensures Flat(w, 1, buf) == Some(Summary(t, []))
  {
    FlatAlone(w, item);
  }

  lemma ReadAlone(w: Wire, buf: seq<Byte>, t: Tally)
    requires ValidWire(w) && Flat(w, 1, buf + []) == Ahead(t, Flat(w, 0, []))
    ensures Flat(w, 1, buf) == Some(Summary(t, []))
  {
    assert buf + [] == buf;
    AddAssociates(t, NOTHING, NOTHING);
  }

  lemma ReadIsBlock(w: Wire, buf: seq<Byte>, t: Tally) returns (item: Item)
    requires ValidWire(w) && Flat(w, 1, buf) == Some(Summary(t, []))
    ensures SpelledBy(w, item, buf, t)
  {
    var items := FlatSound(w, 1, buf);
    OneItem(w, items, buf, t);
    item := items[0];
  }

  /** The counter, started at one and with no bytes left over, is the grammar. */
  lemma FlatIsGrammar(w: Wire, buf: seq<Byte>, t: Tally)
    requires ValidWire(w)
    ensures Flat(w, 1, buf) == Some(Summary(t, [])) <==> IsBlock(w, buf, t)
  {
    if Flat(w, 1, buf) == Some(Summary(t, [])) {
      var item := ReadIsBlock(w, buf, t);
    }
    if IsBlock(w, buf, t) {
      var item :| SpelledBy(w, item, buf, t);
      BlockIsRead(w, item, buf, t);
    }
  }

  /** Every item takes a byte. */
  lemma {:induction false} FlatTakesBytes(w: Wire, n: nat, buf: seq<Byte>)
    requires ValidWire(w) && Flat(w, n, buf).Some?
    ensures n + |Flat(w, n, buf).value.rest| <= |buf|
    decreases |buf|
  {
    if n > 0 {
      assert ReadsHeader(w, buf);
      var Head(major, extra, rest) := w.header(buf).value;
      if major == 0 || major == 1 || major == 7 {
        FlatTakesBytes(w, n - 1, rest);
      } else if major == 2 || major == 3 {
        FlatTakesBytes(w, n - 1, rest[extra..]);
      } else if major == 4 {
        FlatTakesBytes(w, n - 1 + extra, rest);
      } else if major == 5 {
        FlatTakesBytes(w, n - 1 + 2 * extra, rest);
      } else if extra != 42 {
        FlatTakesBytes(w, n, rest);
      } else {
        FlatTakesBytes(w, n - 1, ReadLink(w, rest).value.rest);
      }
    }
  }
}
