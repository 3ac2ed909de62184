/** The data of a HAMT and its canonical form.

    A CID is identified with the block it is the digest of (the digest is injective), so a
    `Block` is what is in the blockstore and `Stored` is what flushing a node would write. */
module HamtForm {
  import opened Common
  import opened BitStrings

  type Key(==, !new)
  type Value(==, !new)
  type KeyValuePair = (Key, Value)
  type HashedKey = h: seq<Byte> | |h| == 32 witness seq(32, _ => 0)
  type Bitfield = b: seq<bool> | |b| == 256 witness seq(256, _ => false)

  datatype Config = Config(
    bitWidth: nat,
    minDataDepth: nat,
    maxArrayWidth: nat,
    hash: Key -> HashedKey,
    less: (Key, Key) -> bool)

  datatype Block = Block(bitfield: Bitfield, slots: seq<Slot>)
  datatype Slot = Bucket(kvs: seq<KeyValuePair>) | Cid(block: Block)

  datatype Node = Node(bitfield: Bitfield, pointers: seq<Pointer>)
  datatype Pointer =
    | Values(kvs: seq<KeyValuePair>)
    | Link(cid: Block, cache: Option<Node>)
    | Dirty(node: Node)

  const EMPTY: Node := Node(seq(256, _ => false), [])

  ghost predicate StrictTotalOrder(less: (Key, Key) -> bool) {
    && (forall a :: !less(a, a))
    && (forall a, b :: a != b ==> less(a, b) || less(b, a))
    && (forall a, b, c :: less(a, b) && less(b, c) ==> less(a, c))
  }

  ghost predicate Asymmetric(less: (Key, Key) -> bool) {
    forall a, b :: less(a, b) ==> !less(b, a)
  }

  lemma OrderAsymmetric(less: (Key, Key) -> bool)
    requires StrictTotalOrder(less)
    ensures Asymmetric(less)
  {
    forall a, b | less(a, b) ensures !less(b, a) {
      assert !less(a, a);
    }
  }

  ghost predicate ValidConfig(c: Config) {
    1 <= c.bitWidth <= 8 && c.maxArrayWidth >= 1 && StrictTotalOrder(c.less)
  }

  /** Bits of the hash consumed on the way to a node at `depth`. */
  function Consumed(c: Config, depth: nat): (r: nat)
    ensures r <= 256
  {
    Min(depth * c.bitWidth, 256)
  }

  lemma ConsumedNext(c: Config, depth: nat)
    requires 1 <= c.bitWidth
    ensures Consumed(c, depth + 1) == Min(Consumed(c, depth) + c.bitWidth, 256)
    ensures Consumed(c, depth) < 256 ==> Consumed(c, depth) < Consumed(c, depth + 1)
  {
    assert (depth + 1) * c.bitWidth == depth * c.bitWidth + c.bitWidth;
  }

  lemma ConsumedMonotone(c: Config, d: nat, e: nat)
    requires d <= e
    ensures Consumed(c, d) <= Consumed(c, e)
  {
    assert d * c.bitWidth <= e * c.bitWidth;
  }

  /** The slot of a node at `depth` that key `k` belongs to. */
  function Idx(c: Config, k: Key, depth: nat): (i: nat)
    requires 1 <= c.bitWidth <= 8
    ensures i < 256
  {
    ConsumedNext(c, depth);
    var n := Consumed(c, depth + 1) - Consumed(c, depth);
    Pow2Monotone(n, 8);
    Pow2Table();
    Digit(c.hash(k), Consumed(c, depth), n)
  }

  /** The part of `m` that lies under slot `i` of a node at `depth`. */
  ghost function Sub(c: Config, m: map<Key, Value>, depth: nat, i: nat): map<Key, Value>
    requires 1 <= c.bitWidth <= 8
  {
    map k | k in m && Idx(c, k, depth) == i :: m[k]
  }

  // ---------------------------------------------------------------- bitfields

  /** How many of the first `i` bits are set: the `index_for_bit_pos` of slot `i`. */
  function Ones(bf: seq<bool>, i: nat): (r: nat)
    requires i <= |bf|
    ensures r <= i
  {
    if i == 0 then 0 else Ones(bf, i - 1) + (if bf[i - 1] then 1 else 0)
  }

  lemma {:induction false} OnesMonotone(bf: seq<bool>, i: nat, j: nat)
    requires i <= j <= |bf|
    ensures Ones(bf, i) <= Ones(bf, j)
    ensures i < j && bf[i] ==> Ones(bf, i) < Ones(bf, j)
  {
    if i < j {
      OnesMonotone(bf, i, j - 1);
    }
  }

  lemma {:induction false} OnesUpdate(bf: seq<bool>, i: nat, v: bool, j: nat)
    requires i < |bf| && j <= |bf|
    ensures Ones(bf[i := v], j) ==
            Ones(bf, j) + (if i < j then (if v then 1 else 0) - (if bf[i] then 1 else 0) else 0)
  {
    if j > 0 {
      OnesUpdate(bf, i, v, j - 1);
    }
  }

  /** Every rank below the number of set bits is the rank of a set bit. */
  lemma {:induction false} OnesSelect(bf: seq<bool>, n: nat, j: nat) returns (i: nat)
    requires n <= |bf| && j < Ones(bf, n)
    ensures i < n && bf[i] && Ones(bf, i) == j
  {
    if bf[n - 1] && Ones(bf, n - 1) == j {
      i := n - 1;
    } else {
      i := OnesSelect(bf, n - 1, j);
    }
  }

  lemma {:induction false} OnesOfNone(bf: seq<bool>, n: nat)
    requires n <= |bf| && forall i :: 0 <= i < n ==> !bf[i]
    ensures Ones(bf, n) == 0
  {
    if n > 0 {
      OnesOfNone(bf, n - 1);
    }
  }

  // ---------------------------------------------------------------- buckets

  ghost predicate Sorted(c: Config, kvs: seq<KeyValuePair>) {
    forall i, j :: 0 <= i < j < |kvs| ==> c.less(kvs[i].0, kvs[j].0)
  }

  ghost predicate Distinct(kvs: seq<KeyValuePair>) {
    forall i, j :: 0 <= i < j < |kvs| ==> kvs[i].0 != kvs[j].0
  }

  /** The pairs of `kvs` are exactly the pairs of `m`. */
  ghost predicate Holds(kvs: seq<KeyValuePair>, m: map<Key, Value>) {
    && (forall j :: 0 <= j < |kvs| ==> kvs[j].0 in m && m[kvs[j].0] == kvs[j].1)
    && (forall k :: k in m ==> (k, m[k]) in kvs)
  }

  lemma {:induction false} HoldsSize(kvs: seq<KeyValuePair>, m: map<Key, Value>)
    requires Distinct(kvs) && Holds(kvs, m)
    ensures |kvs| == |m|
  {
    if kvs == [] {
      assert m.Keys == {};
      assert |m| == |m.Keys|;
    } else {
      var n := |kvs| - 1;
      var k := kvs[n].0;
      HoldsButLast(kvs, m);
      HoldsSize(kvs[..n], m - {k});
      assert m.Keys == (m - {k}).Keys + {k};
      assert |m| == |m.Keys| && |m - {k}| == |(m - {k}).Keys|;
    }
  }

  lemma HoldsButLast(kvs: seq<KeyValuePair>, m: map<Key, Value>)
    requires |kvs| > 0 && Distinct(kvs) && Holds(kvs, m)
    ensures Distinct(kvs[..|kvs| - 1]) && Holds(kvs[..|kvs| - 1], m - {kvs[|kvs| - 1].0})
  {
    var n := |kvs| - 1;
    var k := kvs[n].0;
    forall k' | k' in m - {k} ensures (k', m[k']) in kvs[..n] {
      var j :| 0 <= j < |kvs| && kvs[j] == (k', m[k']);
      assert j < n;
      assert kvs[..n][j] == kvs[j];
    }
  }

  lemma LastIsGreatest(c: Config, a: seq<KeyValuePair>, m: map<Key, Value>, k: Key)
    requires Sorted(c, a) && Holds(a, m) && k in m
    ensures |a| > 0 && (k == a[|a| - 1].0 || c.less(k, a[|a| - 1].0))
  {
    var j :| 0 <= j < |a| && a[j] == (k, m[k]);
    assert j == |a| - 1 || c.less(a[j].0, a[|a| - 1].0);
  }

  lemma SortedDistinct(c: Config, a: seq<KeyValuePair>)
    requires Asymmetric(c.less) && Sorted(c, a)
    ensures Distinct(a)
  {
    forall i, j | 0 <= i < j < |a| ensures a[i].0 != a[j].0 {
      assert c.less(a[i].0, a[j].0);
    }
  }

  lemma SortedButLast(c: Config, a: seq<KeyValuePair>)
    requires |a| > 0 && Sorted(c, a)
    ensures Sorted(c, a[..|a| - 1])
  {
  }

  ghost predicate Greatest(c: Config, m: map<Key, Value>, k: Key) {
    k in m && forall k' :: k' in m ==> k' == k || c.less(k', k)
  }

  /** The pairs of a map, in order. */
  ghost function Listing(c: Config, m: map<Key, Value>): seq<KeyValuePair>
    decreases |m|
  {
    if k :| Greatest(c, m, k) then
      assert m.Keys == (m - {k}).Keys + {k} && |m| == |m.Keys| && |m - {k}| == |(m - {k}).Keys|;
      Listing(c, m - {k}) + [(k, m[k])]
    else []
  }

  lemma ListingStep(c: Config, m: map<Key, Value>, k: Key)
    requires Asymmetric(c.less) && Greatest(c, m, k)
    ensures Listing(c, m) == Listing(c, m - {k}) + [(k, m[k])]
  {
  }

  lemma LastGreatest(c: Config, a: seq<KeyValuePair>, m: map<Key, Value>)
    requires |a| > 0 && Sorted(c, a) && Holds(a, m)
    ensures Greatest(c, m, a[|a| - 1].0) && m[a[|a| - 1].0] == a[|a| - 1].1
  {
    forall k | k in m ensures k == a[|a| - 1].0 || c.less(k, a[|a| - 1].0) {
      LastIsGreatest(c, a, m, k);
    }
  }

  /** A sorted bucket is the listing of its map. */
  lemma {:induction false} SortedIsListing(c: Config, a: seq<KeyValuePair>, m: map<Key, Value>)
    requires Asymmetric(c.less) && Sorted(c, a) && Distinct(a) && Holds(a, m)
    ensures a == Listing(c, m)
  {
    if a == [] {
      assert forall k :: k !in m;
    } else {
      var n := |a| - 1;
      LastGreatest(c, a, m);
      ListingStep(c, m, a[n].0);
      HoldsButLast(a, m);
      SortedButLast(c, a);
      SortedIsListing(c, a[..n], m - {a[n].0});
      assert a == a[..n] + [a[n]];
    }
  }

  /** A map has one sorted bucket. */
  lemma SortedUnique(c: Config, a: seq<KeyValuePair>, b: seq<KeyValuePair>, m: map<Key, Value>)
    requires Asymmetric(c.less)
    requires Sorted(c, a) && Sorted(c, b) && Holds(a, m) && Holds(b, m)
    ensures a == b
  {
    SortedDistinct(c, a);
    SortedDistinct(c, b);
    SortedIsListing(c, a, m);
    SortedIsListing(c, b, m);
  }

  // ---------------------------------------------------------------- canonical form

  /** Block `b`, at `depth`, is the canonical tree of the map `m`. */
  ghost predicate Canonical(c: Config, depth: nat, b: Block, m: map<Key, Value>)
    requires 1 <= c.bitWidth <= 8
    decreases b, 1
  {
    && |b.slots| == Ones(b.bitfield, 256)
    && (m != map[] ==> Consumed(c, depth) < 256)
    && forall i :: 0 <= i < 256 ==> CanonicalAt(c, depth, b, i, m)
  }

  ghost predicate CanonicalAt(c: Config, depth: nat, b: Block, i: nat, m: map<Key, Value>)
    requires 1 <= c.bitWidth <= 8 && i < 256
    decreases b, 0
  {
    if b.bitfield[i] then
      && Ones(b.bitfield, i) < |b.slots|
      && CanonicalSlot(c, depth, b.slots[Ones(b.bitfield, i)], Sub(c, m, depth, i))
    else
      Sub(c, m, depth, i) == map[]
  }

  /** A slot is a sorted bucket, or a link when the bucket would be too big or too shallow. */
  ghost predicate CanonicalSlot(c: Config, depth: nat, s: Slot, m: map<Key, Value>)
    requires 1 <= c.bitWidth <= 8
    decreases s
  {
    match s
    case Bucket(kvs) => depth >= c.minDataDepth && 1 <= |m| <= c.maxArrayWidth && Sorted(c, kvs) && Holds(kvs, m)
    case Cid(b) =>
      && m != map[]
      && (depth < c.minDataDepth || |m| > c.maxArrayWidth)
      && Canonical(c, depth + 1, b, m)
  }

  lemma SlotOf(c: Config, depth: nat, b: Block, i: nat, m: map<Key, Value>)
    requires 1 <= c.bitWidth <= 8 && Canonical(c, depth, b, m) && i < 256
    ensures b.bitfield[i] <==> Sub(c, m, depth, i) != map[]
    ensures b.bitfield[i] ==> Ones(b.bitfield, i) < |b.slots|
    ensures b.bitfield[i] ==> CanonicalSlot(c, depth, b.slots[Ones(b.bitfield, i)], Sub(c, m, depth, i))
  {
    assert CanonicalAt(c, depth, b, i, m);
    if b.bitfield[i] {
      SlotNonEmpty(c, depth, b.slots[Ones(b.bitfield, i)], Sub(c, m, depth, i));
    }
  }

  lemma SlotNonEmpty(c: Config, depth: nat, s: Slot, m: map<Key, Value>)
    requires 1 <= c.bitWidth <= 8 && CanonicalSlot(c, depth, s, m)
    ensures m != map[]
  {
    assert m == map[] ==> |m| == 0;
  }

  /** The canonical tree of a map is unique, so equal contents have equal CIDs. */
  lemma {:induction false} CanonicalUnique(c: Config, depth: nat, b1: Block, b2: Block, m: map<Key, Value>)
    requires ValidConfig(c) && Canonical(c, depth, b1, m) && Canonical(c, depth, b2, m)
    ensures b1 == b2
    decreases b1
  {
    forall i | 0 <= i < 256 ensures b1.bitfield[i] == b2.bitfield[i] {
      SlotOf(c, depth, b1, i, m);
      SlotOf(c, depth, b2, i, m);
    }
    assert b1.bitfield == b2.bitfield;
    forall j | 0 <= j < |b1.slots| ensures b1.slots[j] == b2.slots[j] {
      var i := OnesSelect(b1.bitfield, 256, j);
      SlotOf(c, depth, b1, i, m);
      SlotOf(c, depth, b2, i, m);
      SlotUnique(c, depth, b1.slots[j], b2.slots[j], Sub(c, m, depth, i));
    }
  }

  lemma {:induction false} SlotUnique(c: Config, depth: nat, s1: Slot, s2: Slot, m: map<Key, Value>)
    requires ValidConfig(c) && CanonicalSlot(c, depth, s1, m) && CanonicalSlot(c, depth, s2, m)
    ensures s1 == s2
    decreases s1
  {
    if s1.Bucket? && s2.Bucket? {
      OrderAsymmetric(c.less);
      SortedUnique(c, s1.kvs, s2.kvs, m);
    } else if s1.Cid? && s2.Cid? {
      CanonicalUnique(c, depth + 1, s1.block, s2.block, m);
    }
  }

  // ---------------------------------------------------------------- which maps have a tree

  /** The keys of `m` that collide with `k`. */
  ghost function Class(c: Config, m: map<Key, Value>, k: Key): set<Key> {
    set k' | k' in m && c.hash(k') == c.hash(k)
  }

  /** Maps that fit a tree at `depth`: there are levels left down to the minimum data depth, and
      no more keys share a whole hash than a bucket can hold. */
  ghost predicate Storable(c: Config, depth: nat, m: map<Key, Value>) {
    m != map[] ==>
      && Consumed(c, depth) < 256
      && Consumed(c, c.minDataDepth) < 256
      && forall k :: k in m ==> |Class(c, m, k)| <= c.maxArrayWidth
  }

  lemma SubsetSize<T>(a: set<T>, b: set<T>)
    requires a <= b
    ensures |a| <= |b|
  {
    assert b == a + (b - a);
  }

  lemma {:induction false} CanonicalStorable(c: Config, depth: nat, b: Block, m: map<Key, Value>)
    requires 1 <= c.bitWidth <= 8 && Canonical(c, depth, b, m)
    ensures Storable(c, depth, m)
    decreases b
  {
    forall k | k in m
      ensures |Class(c, m, k)| <= c.maxArrayWidth && Consumed(c, c.minDataDepth) < 256
    {
      var i := Idx(c, k, depth);
      SlotOf(c, depth, b, i, m);
      var mi := Sub(c, m, depth, i);
      assert k in mi;
      assert Class(c, mi, k) == Class(c, m, k);
      SlotStorable(c, depth, b.slots[Ones(b.bitfield, i)], mi, k);
    }
    if m != map[] {
      var k :| k in m;
      assert |Class(c, m, k)| <= c.maxArrayWidth;
    }
  }

  lemma {:induction false} SlotStorable(c: Config, depth: nat, s: Slot, m: map<Key, Value>, k: Key)
    requires 1 <= c.bitWidth <= 8 && CanonicalSlot(c, depth, s, m) && k in m && Consumed(c, depth) < 256
    ensures |Class(c, m, k)| <= c.maxArrayWidth && Consumed(c, c.minDataDepth) < 256
    decreases s
  {
    match s
    case Bucket(_) =>
      SubsetSize(Class(c, m, k), m.Keys);
      assert |m| == |m.Keys|;
      ConsumedMonotone(c, c.minDataDepth, depth);
    case Cid(sub) =>
      CanonicalStorable(c, depth + 1, sub, m);
  }

  // ---------------------------------------------------------------- nodes in memory

  /** What flushing `n` writes to the blockstore. */
  ghost function Stored(n: Node): Block {
    Block(n.bitfield, seq(|n.pointers|, j requires 0 <= j < |n.pointers| => StoredPointer(n.pointers[j])))
  }

  ghost function StoredPointer(p: Pointer): Slot {
    match p
    case Values(kvs) => Bucket(kvs)
    case Link(cid, _) => Cid(cid)
    case Dirty(n) => Cid(Stored(n))
  }

  /** The cache of every link is a node whose CID is the link's. */
  ghost predicate Coherent(n: Node) {
    forall j :: 0 <= j < |n.pointers| ==> CoherentPointer(n.pointers[j])
  }

  ghost predicate CoherentPointer(p: Pointer) {
    match p
    case Values(_) => true
    case Link(cid, cache) => cache.Some? ==> Stored(cache.value) == cid && Coherent(cache.value)
    case Dirty(n) => Coherent(n)
  }

  ghost predicate Represents(c: Config, depth: nat, n: Node, m: map<Key, Value>)
    requires 1 <= c.bitWidth <= 8
  {
    Coherent(n) && Canonical(c, depth, Stored(n), m)
  }

  /** Nothing below `n` is waiting to be written. */
  ghost predicate Flushed(n: Node) {
    forall j :: 0 <= j < |n.pointers| ==> !n.pointers[j].Dirty?
  }
}
