/** HAMT nodes: lookup, insertion, deletion and flushing (`ipld/hamt/src/node.rs`, `pointer.rs`).
    A node owns its children, so an update in place is the replacement of a value; the cursor over
    the hashed key is shared and mutable. Each method is proved against the canonical tree of the
    map `m` that the node represents. */
module HamtNode {
  import opened Common
  import opened BitStrings
  import opened HamtForm

  // ---------------------------------------------------------------- changing one slot of a block

  /** Slot `i` of the two blocks is the same. */
  ghost predicate SameSlot(b: Block, b': Block, i: nat)
    requires i < 256
  {
    && b'.bitfield[i] == b.bitfield[i]
    && (b.bitfield[i] ==>
          && Ones(b.bitfield, i) < |b.slots|
          && Ones(b'.bitfield, i) < |b'.slots|
          && b'.slots[Ones(b'.bitfield, i)] == b.slots[Ones(b.bitfield, i)])
  }

  lemma ReplaceSame(b: Block, idx: nat, s: Slot, i: nat)
    requires |b.slots| == Ones(b.bitfield, 256) && i < 256 && idx < 256 && i != idx && b.bitfield[idx]
    ensures Ones(b.bitfield, idx) < |b.slots|
    ensures SameSlot(b, Block(b.bitfield, b.slots[Ones(b.bitfield, idx) := s]), i)
  {
    OnesMonotone(b.bitfield, idx, 256);
    OnesMonotone(b.bitfield, i, 256);
    if i < idx {
      OnesMonotone(b.bitfield, i, idx);
    } else {
      OnesMonotone(b.bitfield, idx, i);
    }
  }

  lemma InsertSame(b: Block, idx: nat, s: Slot, i: nat)
    requires |b.slots| == Ones(b.bitfield, 256) && i < 256 && idx < 256 && i != idx && !b.bitfield[idx]
    ensures Ones(b.bitfield, idx) <= |b.slots|
    ensures var r := Ones(b.bitfield, idx);
            SameSlot(b, Block(b.bitfield[idx := true], b.slots[..r] + [s] + b.slots[r..]), i)
  {
    OnesMonotone(b.bitfield, idx, 256);
    OnesMonotone(b.bitfield, i, 256);
    OnesUpdate(b.bitfield, idx, true, i);
    if i < idx {
      OnesMonotone(b.bitfield, i, idx);
    } else {
      OnesMonotone(b.bitfield, idx, i);
    }
    if b.bitfield[i] {
      InsertedAt(b.slots, Ones(b.bitfield, idx), s, Ones(b.bitfield, i));
    }
  }

  lemma InsertedAt(slots: seq<Slot>, r: nat, s: Slot, j: nat)
    requires r <= |slots| && j < |slots|
    ensures |slots[..r] + [s] + slots[r..]| == |slots| + 1
    ensures (slots[..r] + [s] + slots[r..])[if j < r then j else j + 1] == slots[j]
  {
  }

  lemma RemoveSame(b: Block, idx: nat, i: nat)
    requires |b.slots| == Ones(b.bitfield, 256) && i < 256 && idx < 256 && i != idx && b.bitfield[idx]
    ensures Ones(b.bitfield, idx) < |b.slots|
    ensures var r := Ones(b.bitfield, idx);
            SameSlot(b, Block(b.bitfield[idx := false], b.slots[..r] + b.slots[r + 1..]), i)
  {
    OnesMonotone(b.bitfield, idx, 256);
    OnesMonotone(b.bitfield, i, 256);
    OnesUpdate(b.bitfield, idx, false, i);
    if i < idx {
      OnesMonotone(b.bitfield, i, idx);
    } else {
      OnesMonotone(b.bitfield, idx, i);
    }
  }

  /** `m'` differs from `m` only in keys of slot `idx`. */
  ghost predicate OnlySlot(c: Config, depth: nat, m: map<Key, Value>, m': map<Key, Value>, idx: nat)
    requires 1 <= c.bitWidth <= 8
  {
    forall i :: 0 <= i < 256 && i != idx ==> Sub(c, m', depth, i) == Sub(c, m, depth, i)
  }

  /** A tree stays canonical when one slot changes as the map does. */
  lemma ChangeSlot(c: Config, depth: nat, b: Block, m: map<Key, Value>, idx: nat, b': Block, m': map<Key, Value>)
    requires 1 <= c.bitWidth <= 8 && Canonical(c, depth, b, m) && idx < 256 && OnlySlot(c, depth, m, m', idx)
    requires |b'.slots| == Ones(b'.bitfield, 256) && Consumed(c, depth) < 256
    requires forall i :: 0 <= i < 256 && i != idx ==> SameSlot(b, b', i)
    requires CanonicalAt(c, depth, b', idx, m')
    ensures Canonical(c, depth, b', m')
  {
    forall i | 0 <= i < 256 ensures CanonicalAt(c, depth, b', i, m') {
      if i != idx {
        assert CanonicalAt(c, depth, b, i, m);
        assert SameSlot(b, b', i);
      }
    }
  }

  lemma ReplaceSlot(c: Config, depth: nat, b: Block, m: map<Key, Value>, idx: nat, s: Slot, m': map<Key, Value>)
    requires 1 <= c.bitWidth <= 8 && Canonical(c, depth, b, m) && idx < 256 && OnlySlot(c, depth, m, m', idx)
    requires b.bitfield[idx] && Consumed(c, depth) < 256
    requires CanonicalSlot(c, depth, s, Sub(c, m', depth, idx))
    ensures Ones(b.bitfield, idx) < |b.slots|
    ensures Canonical(c, depth, Block(b.bitfield, b.slots[Ones(b.bitfield, idx) := s]), m')
  {
    OnesMonotone(b.bitfield, idx, 256);
    var b' := Block(b.bitfield, b.slots[Ones(b.bitfield, idx) := s]);
    forall i | 0 <= i < 256 && i != idx ensures SameSlot(b, b', i) {
      ReplaceSame(b, idx, s, i);
    }
    ChangeSlot(c, depth, b, m, idx, b', m');
  }

  lemma InsertSlot(c: Config, depth: nat, b: Block, m: map<Key, Value>, idx: nat, s: Slot, m': map<Key, Value>)
    requires 1 <= c.bitWidth <= 8 && Canonical(c, depth, b, m) && idx < 256 && OnlySlot(c, depth, m, m', idx)
    requires !b.bitfield[idx] && Consumed(c, depth) < 256
    requires CanonicalSlot(c, depth, s, Sub(c, m', depth, idx))
    ensures var r := Ones(b.bitfield, idx);
            && r <= |b.slots|
            && Canonical(c, depth, Block(b.bitfield[idx := true], b.slots[..r] + [s] + b.slots[r..]), m')
  {
    var r := Ones(b.bitfield, idx);
    OnesMonotone(b.bitfield, idx, 256);
    OnesUpdate(b.bitfield, idx, true, 256);
    OnesUpdate(b.bitfield, idx, true, idx);
    var b' := Block(b.bitfield[idx := true], b.slots[..r] + [s] + b.slots[r..]);
    forall i | 0 <= i < 256 && i != idx ensures SameSlot(b, b', i) {
      InsertSame(b, idx, s, i);
    }
    ChangeSlot(c, depth, b, m, idx, b', m');
  }

  lemma RemoveSlot(c: Config, depth: nat, b: Block, m: map<Key, Value>, idx: nat, m': map<Key, Value>)
    requires 1 <= c.bitWidth <= 8 && Canonical(c, depth, b, m) && idx < 256 && OnlySlot(c, depth, m, m', idx)
    requires b.bitfield[idx] && Consumed(c, depth) < 256
    requires Sub(c, m', depth, idx) == map[]
    ensures var r := Ones(b.bitfield, idx);
            && r < |b.slots|
            && Canonical(c, depth, Block(b.bitfield[idx := false], b.slots[..r] + b.slots[r + 1..]), m')
  {
    var r := Ones(b.bitfield, idx);
    OnesMonotone(b.bitfield, idx, 256);
    OnesUpdate(b.bitfield, idx, false, 256);
    var b' := Block(b.bitfield[idx := false], b.slots[..r] + b.slots[r + 1..]);
    forall i | 0 <= i < 256 && i != idx ensures SameSlot(b, b', i) {
      RemoveSame(b, idx, i);
    }
    ChangeSlot(c, depth, b, m, idx, b', m');
  }

  lemma EmptyCanonical(c: Config, depth: nat)
    requires 1 <= c.bitWidth <= 8
    ensures Represents(c, depth, EMPTY, map[])
  {
    OnesOfNone(EMPTY.bitfield, 256);
    var b := Stored(EMPTY);
    forall i | 0 <= i < 256 ensures CanonicalAt(c, depth, b, i, map[]) {
    }
  }

  lemma SubUpdate(c: Config, m: map<Key, Value>, depth: nat, k: Key, v: Value)
    requires 1 <= c.bitWidth <= 8
    ensures var m', idx := m[k := v], Idx(c, k, depth);
            && Sub(c, m', depth, idx) == Sub(c, m, depth, idx)[k := v]
            && OnlySlot(c, depth, m, m', idx)
  {
  }

  lemma SubRemove(c: Config, m: map<Key, Value>, depth: nat, k: Key)
    requires 1 <= c.bitWidth <= 8
    ensures var m', idx := m - {k}, Idx(c, k, depth);
            && Sub(c, m', depth, idx) == Sub(c, m, depth, idx) - {k}
            && OnlySlot(c, depth, m, m', idx)
  {
  }

  // ---------------------------------------------------------------- children

  /** `Node::load`: the checks made on a node read from the store. */
  function LoadNode(c: Config, depth: nat, b: Block): (r: Result<Node, IpldError>)
    ensures r.Ok? ==> Stored(r.value) == b && Coherent(r.value)
    ensures r.Ok? <==> Loadable(c, depth, b)
    ensures r == Err(ZeroPointers) ==> depth > 0 && b.slots == []
  {
    if |b.slots| > Pow2(c.bitWidth) || Ones(b.bitfield, 256) != |b.slots| then Err(Malformed)
    else if |b.slots| == 0 && depth != 0 then Err(ZeroPointers)
    else if exists j :: 0 <= j < |b.slots| && !LoadableSlot(c, depth, b.slots[j]) then Err(Malformed)
    else
      var n := Node(b.bitfield, seq(|b.slots|, j requires 0 <= j < |b.slots| => LoadPointer(b.slots[j])));
      assert Stored(n).slots == b.slots;
      Ok(n)
  }

  /** As many slots as bits are set, not more than the bit width allows, none only at the root, and
      buckets only where data may be. */
  ghost predicate Loadable(c: Config, depth: nat, b: Block) {
    && Ones(b.bitfield, 256) == |b.slots| <= Pow2(c.bitWidth)
    && (b.slots == [] ==> depth == 0)
    && forall j :: 0 <= j < |b.slots| ==> LoadableSlot(c, depth, b.slots[j])
  }

  predicate LoadableSlot(c: Config, depth: nat, s: Slot) {
    s.Bucket? ==>
      && depth >= c.minDataDepth
      && 0 < |s.kvs| <= c.maxArrayWidth
      && forall j :: 0 <= j < |s.kvs| - 1 ==> c.less(s.kvs[j].0, s.kvs[j + 1].0)
  }

  /** Comparing neighbours is enough: the keys of a bucket that loads ascend throughout, so none is there
      twice. */
  lemma {:induction false} LoadableAscends(c: Config, depth: nat, s: Slot, i: nat, j: nat)
    requires ValidConfig(c) && s.Bucket? && LoadableSlot(c, depth, s) && i < j < |s.kvs|
    ensures c.less(s.kvs[i].0, s.kvs[j].0) && s.kvs[i].0 != s.kvs[j].0
  {
    OrderAsymmetric(c.less);
    if i < j - 1 {
      LoadableAscends(c, depth, s, i, j - 1);
    }
  }

  function LoadPointer(s: Slot): (p: Pointer)
    ensures StoredPointer(p) == s && CoherentPointer(p)
  {
    match s
    case Bucket(kvs) => Values(kvs)
    case Cid(b) => Link(b, None)
  }

  /** The checks never reject a node that the HAMT wrote. */
  lemma CanonicalLoads(c: Config, depth: nat, b: Block, m: map<Key, Value>)
    requires ValidConfig(c) && Canonical(c, depth, b, m) && (m != map[] || depth == 0)
    ensures LoadNode(c, depth, b).Ok?
  {
    forall j | 0 <= j < |b.slots| ensures LoadableSlot(c, depth, b.slots[j]) {
      var i := OnesSelect(b.bitfield, 256, j);
      SlotOf(c, depth, b, i, m);
      SlotLoads(c, depth, b.slots[j], Sub(c, m, depth, i));
    }
    if m != map[] {
      var k :| k in m;
      var i := Idx(c, k, depth);
      assert k in Sub(c, m, depth, i);
      SlotOf(c, depth, b, i, m);
    }
    FewSlots(c, depth, b, m);
  }

  lemma SlotLoads(c: Config, depth: nat, s: Slot, m: map<Key, Value>)
    requires ValidConfig(c) && CanonicalSlot(c, depth, s, m)
    ensures LoadableSlot(c, depth, s)
  {
    if s.Bucket? {
      OrderAsymmetric(c.less);
      SortedDistinct(c, s.kvs);
      HoldsSize(s.kvs, m);
    }
  }

  /** No more slots than the bit width allows. */
  lemma FewSlots(c: Config, depth: nat, b: Block, m: map<Key, Value>)
    requires ValidConfig(c) && Canonical(c, depth, b, m)
    ensures |b.slots| <= Pow2(c.bitWidth)
  {
    var w := Pow2(c.bitWidth);
    Pow2Monotone(c.bitWidth, 8);
    Pow2Table();
    forall i | w <= i < 256 ensures !b.bitfield[i] {
      SlotOf(c, depth, b, i, m);
      forall k | k in m ensures Idx(c, k, depth) != i {
        IdxBound(c, k, depth);
      }
      assert Sub(c, m, depth, i) == map[];
    }
    OnesFlat(b.bitfield, w, 256);
  }

  lemma IdxBound(c: Config, k: Key, depth: nat)
    requires 1 <= c.bitWidth <= 8
    ensures Idx(c, k, depth) < Pow2(c.bitWidth)
  {
    ConsumedNext(c, depth);
    Pow2Monotone(Consumed(c, depth + 1) - Consumed(c, depth), c.bitWidth);
  }

  lemma {:induction false} OnesFlat(bf: seq<bool>, w: nat, n: nat)
    requires w <= n <= |bf| && forall i :: w <= i < n ==> !bf[i]
    ensures Ones(bf, n) <= w
  {
    if w < n {
      OnesFlat(bf, w, n - 1);
    }
  }

  /** The child behind a link, loading it when it is not cached. */
  method ChildOf(c: Config, depth: nat, cid: Block, cache: Option<Node>, ghost m: map<Key, Value>)
    returns (r: Result<Node, IpldError>)
    requires ValidConfig(c) && CoherentPointer(Link(cid, cache))
    requires Canonical(c, depth, cid, m) && m != map[]
    ensures r.Ok? && Represents(c, depth, r.value, m) && Stored(r.value) == cid
  {
    match cache {
      case Some(n) => r := Ok(n);
      case None =>
        CanonicalLoads(c, depth, cid, m);
        r := LoadNode(c, depth, cid);
    }
  }

  /** `position` of a key in a bucket. */
  method PositionOf(kvs: seq<KeyValuePair>, key: Key) returns (r: Option<nat>)
    ensures r.Some? ==> r.value < |kvs| && kvs[r.value].0 == key
    ensures r.None? ==> forall j :: 0 <= j < |kvs| ==> kvs[j].0 != key
  {
    for i := 0 to |kvs|
      invariant forall j :: 0 <= j < i ==> kvs[j].0 != key
    {
      if kvs[i].0 == key {
        return Some(i);
      }
    }
    return None;
  }

  lemma StoredReplace(n: Node, j: nat, p: Pointer)
    requires j < |n.pointers| && Coherent(n) && CoherentPointer(p)
    ensures var n' := n.(pointers := n.pointers[j := p]);
            && Coherent(n')
            && Stored(n') == Block(n.bitfield, Stored(n).slots[j := StoredPointer(p)])
  {
    var n' := n.(pointers := n.pointers[j := p]);
    assert Stored(n').slots == Stored(n).slots[j := StoredPointer(p)];
  }

  lemma StoredInsert(n: Node, bf: Bitfield, j: nat, p: Pointer)
    requires j <= |n.pointers| && Coherent(n) && CoherentPointer(p)
    ensures var n' := Node(bf, n.pointers[..j] + [p] + n.pointers[j..]);
            && Coherent(n')
            && Stored(n') == Block(bf, Stored(n).slots[..j] + [StoredPointer(p)] + Stored(n).slots[j..])
  {
    var n' := Node(bf, n.pointers[..j] + [p] + n.pointers[j..]);
    assert Stored(n').slots == Stored(n).slots[..j] + [StoredPointer(p)] + Stored(n).slots[j..];
  }

  lemma StoredRemove(n: Node, bf: Bitfield, j: nat)
    requires j < |n.pointers| && Coherent(n)
    ensures var n' := Node(bf, n.pointers[..j] + n.pointers[j + 1..]);
            && Coherent(n')
            && Stored(n') == Block(bf, Stored(n).slots[..j] + Stored(n).slots[j + 1..])
  {
    var n' := Node(bf, n.pointers[..j] + n.pointers[j + 1..]);
    assert Stored(n').slots == Stored(n).slots[..j] + Stored(n).slots[j + 1..];
  }

  // ---------------------------------------------------------------- lookup

  method GetValue(node: Node, hashedKey: HashBits, c: Config, depth: nat, key: Key, ghost m: map<Key, Value>)
    returns (r: Result<Option<Value>, IpldError>)
    requires ValidConfig(c) && Represents(c, depth, node, m)
    requires hashedKey.Valid() && hashedKey.b == c.hash(key) && hashedKey.length == 256
    requires hashedKey.consumed == Consumed(c, depth) < 256
    modifies hashedKey
    ensures r == Ok(if key in m then Some(m[key]) else None)
    decreases 256 - Consumed(c, depth)
  {
    ConsumedNext(c, depth);
    var next := hashedKey.Next(c.bitWidth);
    var idx := next.value;
    assert idx == Idx(c, key, depth);
    SlotOf(c, depth, Stored(node), idx, m);
    ghost var mi := Sub(c, m, depth, idx);
    assert key in m <==> key in mi;
    if !node.bitfield[idx] {
      return Ok(None);
    }
    var child := node.pointers[Ones(node.bitfield, idx)];
    assert CanonicalSlot(c, depth, StoredPointer(child), mi);
    assert CoherentPointer(child);
    var sub: Node;
    match child {
      case Link(cid, cache) =>
        var loaded := ChildOf(c, depth + 1, cid, cache, mi);
        sub := loaded.value;
      case Dirty(n) => sub := n;
      case Values(kvs) =>
        var i := PositionOf(kvs, key);
        return Ok(if i.Some? then Some(kvs[i.value].1) else None);
    }
    r := GetValue(sub, hashedKey, c, depth + 1, key, mi);
  }

  // ---------------------------------------------------------------- insertion

  /** The map after a set, or after a set_if_absent when `overwrite` is false. */
  ghost function After(m: map<Key, Value>, key: Key, value: Value, overwrite: bool): map<Key, Value> {
    if key in m && !overwrite then m else m[key := value]
  }

  /** What a set answers: the value it replaced, and whether the map changed. */
  ghost function Answer(m: map<Key, Value>, key: Key, value: Value, overwrite: bool): (Option<Value>, bool) {
    if key !in m then (None, true)
    else if overwrite then (Some(m[key]), m[key] != value)
    else (None, false)
  }

  /** The hashes of all keys agree on the bits consumed above `depth`. */
  ghost predicate Together(c: Config, depth: nat, m: map<Key, Value>) {
    forall k, k' :: k in m && k' in m ==> Agree(c.hash(k), c.hash(k'), Consumed(c, depth))
  }

  lemma TogetherBelow(c: Config, depth: nat, m: map<Key, Value>, i: nat)
    requires 1 <= c.bitWidth <= 8 && Together(c, depth, m)
    ensures Together(c, depth + 1, Sub(c, m, depth, i))
  {
    ConsumedNext(c, depth);
    var mi := Sub(c, m, depth, i);
    var p, q := Consumed(c, depth), Consumed(c, depth + 1);
    forall k, k' | k in mi && k' in mi ensures Agree(c.hash(k), c.hash(k'), q) {
      AgreeExtends(c.hash(k), c.hash(k'), p, q - p);
    }
  }

  lemma StorableSubset(c: Config, d: nat, m: map<Key, Value>, d': nat, m': map<Key, Value>)
    requires Storable(c, d, m) && m'.Keys <= m.Keys && Consumed(c, d') < 256
    ensures Storable(c, d', m')
  {
    forall k | k in m' ensures |Class(c, m', k)| <= c.maxArrayWidth {
      assert k in m;
      SubsetSize(Class(c, m', k), Class(c, m, k));
    }
  }

  /** Keys that agree on the whole hash are one class. */
  lemma BottomFull(c: Config, d: nat, d': nat, m: map<Key, Value>, key: Key)
    requires Together(c, d', m) && Consumed(c, d') == 256 && |m| > c.maxArrayWidth && key in m
    ensures !Storable(c, d, m)
  {
    forall k | k in m ensures c.hash(k) == c.hash(key) {
      AgreeWhole(c.hash(k), c.hash(key));
    }
    assert Class(c, m, key) == m.Keys;
    assert |m| == |m.Keys|;
  }

  lemma SingleStorable(c: Config, depth: nat, key: Key, value: Value)
    requires c.maxArrayWidth >= 1
    ensures Storable(c, depth, map[key := value]) <==> Consumed(c, depth) < 256 && Consumed(c, c.minDataDepth) < 256
  {
    var m := map[key := value];
    assert key in m && m != map[];
    SubsetSize(Class(c, m, key), {key});
  }

  lemma HoldsReplaced(c: Config, kvs: seq<KeyValuePair>, m: map<Key, Value>, i: nat, value: Value)
    requires Distinct(kvs) && Sorted(c, kvs) && Holds(kvs, m) && i < |kvs|
    ensures Sorted(c, kvs[i := (kvs[i].0, value)])
    ensures Holds(kvs[i := (kvs[i].0, value)], m[kvs[i].0 := value])
    ensures |m[kvs[i].0 := value]| == |m|
  {
    SortedReplaced(c, kvs, i, value);
    ReplacedHolds(kvs, m, i, value);
  }

  lemma SortedReplaced(c: Config, kvs: seq<KeyValuePair>, i: nat, value: Value)
    requires Sorted(c, kvs) && i < |kvs|
    ensures Sorted(c, kvs[i := (kvs[i].0, value)])
  {
    var kvs' := kvs[i := (kvs[i].0, value)];
    assert forall j :: 0 <= j < |kvs| ==> kvs'[j].0 == kvs[j].0;
  }

  lemma ReplacedHolds(kvs: seq<KeyValuePair>, m: map<Key, Value>, i: nat, value: Value)
    requires Distinct(kvs) && Holds(kvs, m) && i < |kvs|
    ensures Holds(kvs[i := (kvs[i].0, value)], m[kvs[i].0 := value])
    ensures |m[kvs[i].0 := value]| == |m|
  {
    var key := kvs[i].0;
    var kvs', m' := kvs[i := (key, value)], m[key := value];
    forall k | k in m' ensures (k, m'[k]) in kvs' {
      if k == key {
        assert kvs'[i] == (k, m'[k]);
      } else {
        var j :| 0 <= j < |kvs| && kvs[j] == (k, m[k]);
        assert kvs'[j] == kvs[j];
      }
    }
    assert m'.Keys == m.Keys;
    assert |m'| == |m'.Keys| && |m| == |m.Keys|;
  }

  lemma HoldsInserted(c: Config, kvs: seq<KeyValuePair>, m: map<Key, Value>, i: nat, key: Key, value: Value)
    requires Holds(kvs, m) && i <= |kvs| && key !in m
    ensures Holds(kvs[..i] + [(key, value)] + kvs[i..], m[key := value])
  {
    var kvs', m' := kvs[..i] + [(key, value)] + kvs[i..], m[key := value];
    forall k | k in m' ensures (k, m'[k]) in kvs' {
      if k == key {
        assert kvs'[i] == (k, m'[k]);
      } else {
        var j :| 0 <= j < |kvs| && kvs[j] == (k, m[k]);
        assert kvs'[if j < i then j else j + 1] == kvs[j];
      }
    }
  }

  /** Inserts a new pair before the first greater key. */
  method InsertSorted(c: Config, kvs: seq<KeyValuePair>, key: Key, value: Value, ghost m: map<Key, Value>)
    returns (r: seq<KeyValuePair>)
    requires StrictTotalOrder(c.less) && Sorted(c, kvs) && Holds(kvs, m) && key !in m
    ensures Sorted(c, r) && Holds(r, m[key := value]) && |r| == |kvs| + 1
  {
    var i := 0;
    while i < |kvs| && !c.less(key, kvs[i].0)
      invariant i <= |kvs|
      invariant forall j :: 0 <= j < i ==> c.less(kvs[j].0, key)
    {
      assert kvs[i].0 != key;
      i := i + 1;
    }
    r := kvs[..i] + [(key, value)] + kvs[i..];
    HoldsInserted(c, kvs, m, i, key, value);
    forall j | i <= j < |kvs| ensures c.less(key, kvs[j].0) {
      assert j == i || c.less(kvs[i].0, kvs[j].0);
    }
    SortedInserted(c, kvs, i, (key, value));
  }

  lemma SortedInserted(c: Config, kvs: seq<KeyValuePair>, i: nat, kv: KeyValuePair)
    requires Sorted(c, kvs) && i <= |kvs|
    requires forall j :: 0 <= j < i ==> c.less(kvs[j].0, kv.0)
    requires forall j :: i <= j < |kvs| ==> c.less(kv.0, kvs[j].0)
    ensures Sorted(c, kvs[..i] + [kv] + kvs[i..])
  {
  }

  lemma MapInsertSize(m: map<Key, Value>, key: Key, value: Value)
    requires key !in m
    ensures |m[key := value]| == |m| + 1
  {
    assert m[key := value].Keys == m.Keys + {key};
    assert |m[key := value]| == |m[key := value].Keys| && |m| == |m.Keys|;
  }

  /** A full bucket moves into a new child: the new pair first, then the old ones. */
  method PushDown(hashedKey: HashBits, c: Config, depth: nat, kvs: seq<KeyValuePair>, key: Key, value: Value,
                  overwrite: bool, ghost m: map<Key, Value>)
    returns (r: Result<(Option<Value>, bool), IpldError>, sub: Node)
    requires ValidConfig(c) && Consumed(c, depth) < 256
    requires Distinct(kvs) && Holds(kvs, m) && |m| == c.maxArrayWidth && key !in m
    requires Together(c, depth + 1, m[key := value])
    requires hashedKey.Valid() && hashedKey.b == c.hash(key) && hashedKey.length == 256
    requires hashedKey.consumed == Consumed(c, depth + 1)
    modifies hashedKey
    ensures r.Ok? ==> r.value == (None, true) && Represents(c, depth + 1, sub, m[key := value])
    ensures r.Err? ==> !Storable(c, depth, m[key := value])
    decreases 256 - Consumed(c, depth), 1
  {
    ConsumedNext(c, depth);
    MapInsertSize(m, key, value);
    ghost var m' := m[key := value];
    ghost var cur := map[key := value];
    sub := EMPTY;
    EmptyCanonical(c, depth + 1);
    var consumed := hashedKey.consumed;
    r, sub := ModifyValue(sub, hashedKey, c, depth + 1, key, value, overwrite, map[]);
    if r.Err? {
      PushDownFails(c, depth, cur, m', key);
      return;
    }
    assert Represents(c, depth + 1, sub, cur);
    for i := 0 to |kvs|
      invariant r == Ok((None, true)) && Represents(c, depth + 1, sub, cur)
      invariant cur.Keys <= m'.Keys && key in cur
      invariant forall k :: k in cur ==> cur[k] == m'[k]
      invariant forall j :: 0 <= j < |kvs| ==> (kvs[j].0 in cur <==> j < i)
    {
      var hash := c.hash(kvs[i].0);
      var bits := new HashBits(hash, 256, consumed);
      var inner;
      inner, sub := ModifyValue(sub, bits, c, depth + 1, kvs[i].0, kvs[i].1, overwrite, cur);
      cur := cur[kvs[i].0 := kvs[i].1];
      if inner.Err? {
        PushDownFails(c, depth, cur, m', key);
        return Err(inner.error), sub;
      }
    }
    assert cur == m' by {
      forall k | k in m' ensures k in cur {
        assert k == key || (k, m[k]) in kvs;
      }
    }
  }

  lemma PushDownFails(c: Config, depth: nat, cur: map<Key, Value>, m': map<Key, Value>, key: Key)
    requires !Storable(c, depth + 1, cur) && cur.Keys <= m'.Keys && key in m'
    requires Together(c, depth + 1, m') && |m'| > c.maxArrayWidth
    ensures !Storable(c, depth, m')
  {
    if Consumed(c, depth + 1) == 256 {
      BottomFull(c, depth, depth + 1, m', key);
    } else if Storable(c, depth, m') {
      StorableSubset(c, depth, m', depth + 1, cur);
    }
  }

  /** A set that reaches a bucket. */
  method ModifyBucket(kvs: seq<KeyValuePair>, hashedKey: HashBits, c: Config, depth: nat, key: Key, value: Value,
                      overwrite: bool, ghost m: map<Key, Value>)
    returns (r: Result<(Option<Value>, bool), IpldError>, p: Pointer)
    requires ValidConfig(c) && CanonicalSlot(c, depth, Bucket(kvs), m) && Consumed(c, depth) < 256
    requires Together(c, depth + 1, m[key := value])
    requires hashedKey.Valid() && hashedKey.b == c.hash(key) && hashedKey.length == 256
    requires hashedKey.consumed == Consumed(c, depth + 1)
    modifies hashedKey
    ensures r.Ok? ==> r.value == Answer(m, key, value, overwrite) && CoherentPointer(p)
    ensures r.Ok? ==> CanonicalSlot(c, depth, StoredPointer(p), After(m, key, value, overwrite))
    ensures r.Err? ==> key !in m && !Storable(c, depth, m[key := value])
    decreases 256 - Consumed(c, depth), 2
  {
    p := Values(kvs);
    OrderAsymmetric(c.less);
    SortedDistinct(c, kvs);
    var pos := PositionOf(kvs, key);
    if pos.Some? {
      var i := pos.value;
      if overwrite {
        HoldsReplaced(c, kvs, m, i, value);
        return Ok((Some(kvs[i].1), kvs[i].1 != value)), Values(kvs[i := (kvs[i].0, value)]);
      } else {
        return Ok((None, false)), p;
      }
    }
    assert key !in m;
    HoldsSize(kvs, m);
    MapInsertSize(m, key, value);
    if |kvs| >= c.maxArrayWidth {
      var sub;
      r, sub := PushDown(hashedKey, c, depth, kvs, key, value, overwrite, m);
      p := Dirty(sub);
      return;
    }
    var inserted := InsertSorted(c, kvs, key, value, m);
    return Ok((None, true)), Values(inserted);
  }

  lemma SubAfter(c: Config, m: map<Key, Value>, depth: nat, key: Key, value: Value, overwrite: bool)
    requires 1 <= c.bitWidth <= 8
    ensures var m', idx := After(m, key, value, overwrite), Idx(c, key, depth);
            && Sub(c, m', depth, idx) == After(Sub(c, m, depth, idx), key, value, overwrite)
            && OnlySlot(c, depth, m, m', idx)
  {
  }

  lemma SubAnswer(c: Config, m: map<Key, Value>, depth: nat, key: Key, value: Value, overwrite: bool)
    requires 1 <= c.bitWidth <= 8
    ensures Answer(Sub(c, m, depth, Idx(c, key, depth)), key, value, overwrite) == Answer(m, key, value, overwrite)
  {
  }

  /** A set into an empty slot. */
  method InsertChild(node: Node, hashedKey: HashBits, c: Config, depth: nat, idx: nat, key: Key, value: Value,
                     overwrite: bool, ghost m: map<Key, Value>)
    returns (r: Result<(Option<Value>, bool), IpldError>, node': Node)
    requires ValidConfig(c) && Represents(c, depth, node, m) && Consumed(c, depth) < 256
    requires idx == Idx(c, key, depth) && !node.bitfield[idx]
    requires hashedKey.Valid() && hashedKey.b == c.hash(key) && hashedKey.length == 256
    requires hashedKey.consumed == Consumed(c, depth + 1)
    modifies hashedKey
    ensures r.Ok? ==> r.value == (None, true) && Represents(c, depth, node', m[key := value])
    ensures key !in m
    ensures r.Err? ==> !Storable(c, depth, m[key := value])
    decreases 256 - Consumed(c, depth), 3
  {
    node' := node;
    ConsumedNext(c, depth);
    ghost var m', mi := m[key := value], Sub(c, m, depth, idx);
    SubUpdate(c, m, depth, key, value);
    SlotOf(c, depth, Stored(node), idx, m);
    assert mi == map[] && key !in mi;
    assert mi[key := value] == map[key := value];
    var child: Pointer;
    if depth >= c.minDataDepth {
      child := Values([(key, value)]);
      SingleBucket(c, depth, key, value);
    } else {
      // Above the minimum data depth there are only links, so the pair goes into a node below.
      EmptyCanonical(c, depth + 1);
      assert Together(c, depth + 1, map[key := value]);
      var sub;
      r, sub := ModifyValue(EMPTY, hashedKey, c, depth + 1, key, value, overwrite, map[]);
      if r.Err? {
        SingleStorable(c, depth + 1, key, value);
        ConsumedMonotone(c, depth + 1, c.minDataDepth);
        assert key in m';
        return;
      }
      child := Dirty(sub);
    }
    var i := Ones(node.bitfield, idx);
    OnesMonotone(node.bitfield, idx, 256);
    node' := Node(node.bitfield[idx := true], node.pointers[..i] + [child] + node.pointers[i..]);
    StoredInsert(node, node.bitfield[idx := true], i, child);
    InsertSlot(c, depth, Stored(node), m, idx, StoredPointer(child), m');
    r := Ok((None, true));
  }

  lemma SingleBucket(c: Config, depth: nat, key: Key, value: Value)
    requires ValidConfig(c) && depth >= c.minDataDepth
    ensures CanonicalSlot(c, depth, Bucket([(key, value)]), map[key := value])
  {
    var m := map[key := value];
    assert m.Keys == {key};
    assert |m| == |m.Keys|;
    assert [(key, value)][0] == (key, m[key]);
  }

  /** A set into the child of an occupied slot. */
  method ModifyChild(child: Pointer, hashedKey: HashBits, c: Config, depth: nat, key: Key, value: Value,
                     overwrite: bool, ghost m: map<Key, Value>)
    returns (r: Result<(Option<Value>, bool), IpldError>, child': Pointer)
    requires ValidConfig(c) && Consumed(c, depth) < 256
    requires CoherentPointer(child) && CanonicalSlot(c, depth, StoredPointer(child), m)
    requires Together(c, depth + 1, m[key := value])
    requires hashedKey.Valid() && hashedKey.b == c.hash(key) && hashedKey.length == 256
    requires hashedKey.consumed == Consumed(c, depth + 1)
    modifies hashedKey
    ensures r.Ok? ==> r.value == Answer(m, key, value, overwrite) && CoherentPointer(child')
    ensures r.Ok? ==> CanonicalSlot(c, depth, StoredPointer(child'), After(m, key, value, overwrite))
    ensures r.Err? ==> key !in m && !Storable(c, depth, m[key := value])
    decreases 256 - Consumed(c, depth), 4
  {
    child' := child;
    ConsumedNext(c, depth);
    match child {
      case Link(cid, cache) =>
        var loaded := ChildOf(c, depth + 1, cid, cache, m);
        var node;
        r, node := ModifyValue(loaded.value, hashedKey, c, depth + 1, key, value, overwrite, m);
        if r.Err? {
          ChildFails(c, depth, m[key := value], m[key := value]);
        } else {
          AfterSize(m, key, value, overwrite);
          // Only a changed node loses its CID.
          if r.value.1 {
            child' := Dirty(node);
          } else {
            CanonicalUnique(c, depth + 1, Stored(node), cid, m);
            child' := Link(cid, Some(node));
          }
        }
      case Dirty(sub) =>
        var node;
        r, node := ModifyValue(sub, hashedKey, c, depth + 1, key, value, overwrite, m);
        if r.Err? {
          ChildFails(c, depth, m[key := value], m[key := value]);
        } else {
          AfterSize(m, key, value, overwrite);
          child' := Dirty(node);
        }
      case Values(kvs) =>
        r, child' := ModifyBucket(kvs, hashedKey, c, depth, key, value, overwrite, m);
    }
  }

  lemma AfterSize(m: map<Key, Value>, key: Key, value: Value, overwrite: bool)
    ensures |After(m, key, value, overwrite)| >= |m|
    ensures m != map[] ==> After(m, key, value, overwrite) != map[]
    ensures After(m, key, value, overwrite) == m <==> !Answer(m, key, value, overwrite).1
  {
    var m' := After(m, key, value, overwrite);
    SubsetSize(m.Keys, m'.Keys);
    assert |m| == |m.Keys| && |m'| == |m'.Keys|;
    if m != map[] {
      var k :| k in m;
      assert k in m';
    }
  }

  /** A child that cannot store its part shows that the whole map cannot be stored. */
  lemma ChildFails(c: Config, depth: nat, m: map<Key, Value>, mi: map<Key, Value>)
    requires mi.Keys <= m.Keys && mi != map[] && !Storable(c, depth + 1, mi) && Consumed(c, depth + 1) < 256
    ensures !Storable(c, depth, m)
  {
    if Storable(c, depth, m) {
      StorableSubset(c, depth, m, depth + 1, mi);
    }
  }

  lemma SlotFails(c: Config, depth: nat, m: map<Key, Value>, mi: map<Key, Value>)
    requires mi.Keys <= m.Keys && !Storable(c, depth, mi) && Consumed(c, depth) < 256
    ensures !Storable(c, depth, m)
  {
    if Storable(c, depth, m) {
      StorableSubset(c, depth, m, depth, mi);
    }
  }

  method ModifyValue(node: Node, hashedKey: HashBits, c: Config, depth: nat, key: Key, value: Value,
                     overwrite: bool, ghost m: map<Key, Value>)
    returns (r: Result<(Option<Value>, bool), IpldError>, node': Node)
    requires ValidConfig(c) && Represents(c, depth, node, m)
    requires Together(c, depth, m[key := value])
    requires hashedKey.Valid() && hashedKey.b == c.hash(key) && hashedKey.length == 256
    requires hashedKey.consumed == Consumed(c, depth)
    modifies hashedKey
    ensures r.Ok? ==> r.value == Answer(m, key, value, overwrite)
    ensures r.Ok? ==> Represents(c, depth, node', After(m, key, value, overwrite))
    ensures r.Err? ==> key !in m && !Storable(c, depth, m[key := value])
    decreases 256 - Consumed(c, depth), 5
  {
    node' := node;
    ConsumedNext(c, depth);
    var next := hashedKey.Next(c.bitWidth);
    if next.Err? {
      return Err(next.error), node';
    }
    var idx := next.value;
    assert idx == Idx(c, key, depth);
    ghost var m', mi := m[key := value], Sub(c, m, depth, idx);
    SubUpdate(c, m, depth, key, value);
    TogetherBelow(c, depth, m', idx);
    SlotOf(c, depth, Stored(node), idx, m);

    // The slot is free.
    if !node.bitfield[idx] {
      r, node' := InsertChild(node, hashedKey, c, depth, idx, key, value, overwrite, m);
      return;
    }

    var cindex := Ones(node.bitfield, idx);
    var child := node.pointers[cindex];
    assert CanonicalSlot(c, depth, StoredPointer(child), mi);
    assert CoherentPointer(child);
    r, child := ModifyChild(child, hashedKey, c, depth, key, value, overwrite, mi);
    if r.Err? {
      SlotFails(c, depth, m', mi[key := value]);
      return;
    }
    node' := node.(pointers := node.pointers[cindex := child]);
    StoredReplace(node, cindex, child);
    SubAfter(c, m, depth, key, value, overwrite);
    SubAnswer(c, m, depth, key, value, overwrite);
    ReplaceSlot(c, depth, Stored(node), m, idx, StoredPointer(child), After(m, key, value, overwrite));
  }

  // ---------------------------------------------------------------- deletion

  /** Every slot holds at least one key of its own. */
  lemma {:induction false} SlotsHoldKeys(c: Config, depth: nat, b: Block, m: map<Key, Value>, i: nat)
    requires 1 <= c.bitWidth <= 8 && Canonical(c, depth, b, m) && i <= 256
    ensures Ones(b.bitfield, i) <= |set k | k in m && Idx(c, k, depth) < i|
  {
    if i > 0 {
      SlotsHoldKeys(c, depth, b, m, i - 1);
      var before, upto := set k | k in m && Idx(c, k, depth) < i - 1, set k | k in m && Idx(c, k, depth) < i;
      SlotOf(c, depth, b, i - 1, m);
      if b.bitfield[i - 1] {
        var k :| k in Sub(c, m, depth, i - 1);
        SubsetSize(before + {k}, upto);
      } else {
        SubsetSize(before, upto);
      }
    }
  }

  lemma NoMoreSlotsThanKeys(c: Config, depth: nat, b: Block, m: map<Key, Value>)
    requires 1 <= c.bitWidth <= 8 && Canonical(c, depth, b, m)
    ensures |b.slots| <= |m|
    ensures |b.slots| == 0 ==> m == map[]
  {
    SlotsHoldKeys(c, depth, b, m, 256);
    assert (set k | k in m && Idx(c, k, depth) < 256) == m.Keys;
    assert |m| == |m.Keys|;
    forall k | k in m ensures |b.slots| > 0 {
      var i := Idx(c, k, depth);
      assert k in Sub(c, m, depth, i);
      SlotOf(c, depth, b, i, m);
    }
  }

  /** The part of `m` under the first `j` pointers. */
  ghost function Below(c: Config, depth: nat, b: Block, m: map<Key, Value>, j: nat): map<Key, Value>
    requires 1 <= c.bitWidth <= 8
  {
    map k | k in m && Ones(b.bitfield, Idx(c, k, depth)) < j :: m[k]
  }

  lemma BelowNext(c: Config, depth: nat, b: Block, m: map<Key, Value>, j: nat, i: nat)
    requires 1 <= c.bitWidth <= 8 && Canonical(c, depth, b, m)
    requires i < 256 && b.bitfield[i] && Ones(b.bitfield, i) == j
    ensures Below(c, depth, b, m, j + 1) == Below(c, depth, b, m, j) + Sub(c, m, depth, i)
    ensures Below(c, depth, b, m, j).Keys !! Sub(c, m, depth, i).Keys
  {
    forall k | k in m && Ones(b.bitfield, Idx(c, k, depth)) == j ensures Idx(c, k, depth) == i {
      var x := Idx(c, k, depth);
      assert k in Sub(c, m, depth, x);
      SlotOf(c, depth, b, x, m);
      if x < i {
        OnesMonotone(b.bitfield, x, i);
      } else if i < x {
        OnesMonotone(b.bitfield, i, x);
      }
    }
  }

  lemma BelowAll(c: Config, depth: nat, b: Block, m: map<Key, Value>)
    requires 1 <= c.bitWidth <= 8 && Canonical(c, depth, b, m)
    ensures Below(c, depth, b, m, |b.slots|) == m
  {
    forall k | k in m ensures Ones(b.bitfield, Idx(c, k, depth)) < |b.slots| {
      var x := Idx(c, k, depth);
      assert k in Sub(c, m, depth, x);
      SlotOf(c, depth, b, x, m);
    }
  }

  lemma HoldsJoined(a: seq<KeyValuePair>, ma: map<Key, Value>, b: seq<KeyValuePair>, mb: map<Key, Value>)
    requires Distinct(a) && Distinct(b) && Holds(a, ma) && Holds(b, mb) && ma.Keys !! mb.Keys
    ensures Distinct(a + b) && Holds(a + b, ma + mb)
  {
    var ab, m := a + b, ma + mb;
    forall i, j | 0 <= i < j < |ab| ensures ab[i].0 != ab[j].0 {
      if i < |a| <= j {
        assert ab[i].0 in ma && ab[j] == b[j - |a|] && ab[j].0 in mb;
      }
    }
    forall k | k in m ensures (k, m[k]) in ab {
      if k in ma {
        assert (k, ma[k]) in a;
      } else {
        assert (k, mb[k]) in b;
      }
    }
  }

  method SortByKey(c: Config, kvs: seq<KeyValuePair>, ghost m: map<Key, Value>) returns (r: seq<KeyValuePair>)
    requires StrictTotalOrder(c.less) && Distinct(kvs) && Holds(kvs, m)
    ensures Sorted(c, r) && Holds(r, m)
  {
    r := [];
    ghost var done: map<Key, Value> := map[];
    for i := 0 to |kvs|
      invariant Sorted(c, r) && Holds(r, done)
      invariant forall k :: k in done ==> k in m && done[k] == m[k]
      invariant forall j :: 0 <= j < |kvs| ==> (kvs[j].0 in done <==> j < i)
    {
      r := InsertSorted(c, r, kvs[i].0, kvs[i].1, done);
      done := done[kvs[i].0 := kvs[i].1];
    }
    assert done == m by {
      forall k | k in m ensures k in done {
        assert (k, m[k]) in kvs;
      }
    }
  }

  /** `Pointer::clean`: pulls the values of a small child up into its parent's slot. */
  method CleanPointer(n: Node, c: Config, depth: nat, ghost m: map<Key, Value>)
    returns (r: Result<(), IpldError>, p: Pointer)
    requires ValidConfig(c) && Represents(c, depth + 1, n, m)
    requires depth >= c.minDataDepth ==> |m| >= c.maxArrayWidth
    ensures r.Ok? <==> m != map[]
    ensures r.Err? ==> r.error == ZeroPointers
    ensures r.Ok? ==> CoherentPointer(p) && CanonicalSlot(c, depth, StoredPointer(p), m)
  {
    p := Dirty(n);
    ghost var b := Stored(n);
    NoMoreSlotsThanKeys(c, depth + 1, b, m);
    if |n.pointers| == 0 {
      return Err(ZeroPointers), p;
    }
    assert m == map[] ==> |m| == 0;
    if depth < c.minDataDepth {
      // In the shallows, a link to a non-empty node stays.
      return Ok(()), p;
    }
    if |n.pointers| == 1 {
      OnlyChild(c, depth + 1, b, m);
      assert b.slots[0] == StoredPointer(n.pointers[0]);
      if n.pointers[0].Values? {
        PulledUp(c, depth, n.pointers[0].kvs, m);
        return Ok(()), Values(n.pointers[0].kvs);
      } else {
        LinkedIsBig(c, depth + 1, b.slots[0], m);
        return Ok(()), p;
      }
    }
    if 2 <= |n.pointers| <= c.maxArrayWidth {
      var vals := CollectValues(n, c, depth + 1, m);
      if vals.None? || |vals.value| > c.maxArrayWidth {
        return Ok(()), p;
      }
      var sorted := SortByKey(c, vals.value, m);
      return Ok(()), Values(sorted);
    }
    return Ok(()), p;
  }

  lemma OnlyChild(c: Config, depth: nat, b: Block, m: map<Key, Value>)
    requires ValidConfig(c) && Canonical(c, depth, b, m) && |b.slots| == 1
    ensures CanonicalSlot(c, depth, b.slots[0], m)
  {
    var i := OnesSelect(b.bitfield, 256, 0);
    SlotOf(c, depth, b, i, m);
    BelowNext(c, depth, b, m, 0, i);
    BelowAll(c, depth, b, m);
    assert Below(c, depth, b, m, 0) == map[];
    assert m == Sub(c, m, depth, i);
  }

  lemma CollectStep(c: Config, depth: nat, b: Block, m: map<Key, Value>, j: nat, vals: seq<KeyValuePair>)
    requires ValidConfig(c) && Canonical(c, depth, b, m) && depth >= c.minDataDepth && j < |b.slots|
    requires Distinct(vals) && Holds(vals, Below(c, depth, b, m, j))
    ensures b.slots[j].Bucket? ==>
              Distinct(vals + b.slots[j].kvs) && Holds(vals + b.slots[j].kvs, Below(c, depth, b, m, j + 1))
    ensures b.slots[j].Cid? ==> |m| > c.maxArrayWidth
  {
    var i := OnesSelect(b.bitfield, 256, j);
    var mi := Sub(c, m, depth, i);
    SlotOf(c, depth, b, i, m);
    if b.slots[j].Bucket? {
      BelowNext(c, depth, b, m, j, i);
      BucketOf(c, depth, b.slots[j].kvs, mi);
      HoldsJoined(vals, Below(c, depth, b, m, j), b.slots[j].kvs, mi);
    } else {
      LinkedIsBig(c, depth, b.slots[j], mi);
      SubSmaller(c, m, depth, i);
    }
  }

  /** The values of all children in pointer order, unless one of them is a link. */
  method CollectValues(n: Node, c: Config, depth: nat, ghost m: map<Key, Value>)
    returns (r: Option<seq<KeyValuePair>>)
    requires ValidConfig(c) && Represents(c, depth, n, m) && depth >= c.minDataDepth
    ensures r.Some? ==> Distinct(r.value) && Holds(r.value, m) && |r.value| == |m|
    ensures r.None? ==> |m| > c.maxArrayWidth
  {
    ghost var b := Stored(n);
    var vals: seq<KeyValuePair> := [];
    for j := 0 to |n.pointers|
      invariant Distinct(vals) && Holds(vals, Below(c, depth, b, m, j))
    {
      assert b.slots[j] == StoredPointer(n.pointers[j]);
      CollectStep(c, depth, b, m, j, vals);
      if n.pointers[j].Values? {
        vals := vals + n.pointers[j].kvs;
      } else {
        return None;
      }
    }
    BelowAll(c, depth, b, m);
    HoldsSize(vals, m);
    return Some(vals);
  }

  lemma BucketOf(c: Config, depth: nat, kvs: seq<KeyValuePair>, m: map<Key, Value>)
    requires ValidConfig(c) && CanonicalSlot(c, depth, Bucket(kvs), m)
    ensures Distinct(kvs) && Holds(kvs, m)
  {
    OrderAsymmetric(c.less);
    SortedDistinct(c, kvs);
  }

  lemma PulledUp(c: Config, depth: nat, kvs: seq<KeyValuePair>, m: map<Key, Value>)
    requires ValidConfig(c) && depth >= c.minDataDepth && CanonicalSlot(c, depth + 1, Bucket(kvs), m)
    ensures CanonicalSlot(c, depth, Bucket(kvs), m)
  {
  }

  lemma LinkedIsBig(c: Config, depth: nat, s: Slot, m: map<Key, Value>)
    requires ValidConfig(c) && depth >= c.minDataDepth && CanonicalSlot(c, depth, s, m) && s.Cid?
    ensures |m| > c.maxArrayWidth
  {
  }

  lemma SubSmaller(c: Config, m: map<Key, Value>, depth: nat, i: nat)
    requires 1 <= c.bitWidth <= 8
    ensures |Sub(c, m, depth, i)| <= |m|
  {
    SubsetSize(Sub(c, m, depth, i).Keys, m.Keys);
    assert |m| == |m.Keys| && |Sub(c, m, depth, i)| == |Sub(c, m, depth, i).Keys|;
  }

  /** `Node::clean`: true when the child is empty and its slot must go. */
  method Clean(n: Node, c: Config, depth: nat, ghost m: map<Key, Value>)
    returns (r: Result<bool, IpldError>, p: Pointer)
    requires ValidConfig(c) && Represents(c, depth + 1, n, m)
    requires depth >= c.minDataDepth ==> |m| >= c.maxArrayWidth
    ensures r == Ok(m == map[])
    ensures m != map[] ==> CoherentPointer(p) && CanonicalSlot(c, depth, StoredPointer(p), m)
  {
    assert m == map[] ==> |m| == 0;
    var cleaned;
    cleaned, p := CleanPointer(n, c, depth, m);
    match cleaned {
      case Ok(_) => r := Ok(false);
      case Err(e) => r := if e == ZeroPointers && depth < c.minDataDepth then Ok(true) else Err(e);
    }
  }

  ghost function Deleted(m: map<Key, Value>, key: Key): Option<KeyValuePair> {
    if key in m then Some((key, m[key])) else None
  }

  lemma HoldsRemoved(c: Config, kvs: seq<KeyValuePair>, m: map<Key, Value>, i: nat)
    requires Sorted(c, kvs) && Distinct(kvs) && Holds(kvs, m) && i < |kvs|
    ensures Sorted(c, kvs[..i] + kvs[i + 1..]) && Holds(kvs[..i] + kvs[i + 1..], m - {kvs[i].0})
  {
    var kvs', m' := kvs[..i] + kvs[i + 1..], m - {kvs[i].0};
    forall j | 0 <= j < |kvs'| ensures kvs'[j].0 in m' && m'[kvs'[j].0] == kvs'[j].1 {
      assert kvs'[j] == kvs[if j < i then j else j + 1];
    }
    forall k | k in m' ensures (k, m'[k]) in kvs' {
      var j :| 0 <= j < |kvs| && kvs[j] == (k, m[k]);
      assert kvs'[if j < i then j else j - 1] == kvs[j];
    }
  }

  lemma MapRemoveSize(m: map<Key, Value>, key: Key)
    requires key in m
    ensures |m - {key}| == |m| - 1
  {
    assert (m - {key}).Keys == m.Keys - {key};
    assert |m - {key}| == |(m - {key}).Keys| && |m| == |m.Keys|;
  }

  method RemoveChild(node: Node, c: Config, depth: nat, idx: nat, ghost m: map<Key, Value>, ghost m': map<Key, Value>)
    returns (node': Node)
    requires ValidConfig(c) && Represents(c, depth, node, m) && idx < 256 && node.bitfield[idx]
    requires OnlySlot(c, depth, m, m', idx) && Sub(c, m', depth, idx) == map[] && Consumed(c, depth) < 256
    ensures Represents(c, depth, node', m')
  {
    var i := Ones(node.bitfield, idx);
    OnesMonotone(node.bitfield, idx, 256);
    node' := Node(node.bitfield[idx := false], node.pointers[..i] + node.pointers[i + 1..]);
    StoredRemove(node, node.bitfield[idx := false], i);
    RemoveSlot(c, depth, Stored(node), m, idx, m');
  }

  method ReplaceChild(node: Node, c: Config, depth: nat, idx: nat, p: Pointer, ghost m: map<Key, Value>,
                      ghost m': map<Key, Value>)
    returns (node': Node)
    requires ValidConfig(c) && Represents(c, depth, node, m) && idx < 256 && node.bitfield[idx]
    requires OnlySlot(c, depth, m, m', idx) && Consumed(c, depth) < 256
    requires CoherentPointer(p) && CanonicalSlot(c, depth, StoredPointer(p), Sub(c, m', depth, idx))
    ensures Represents(c, depth, node', m')
  {
    var i := Ones(node.bitfield, idx);
    OnesMonotone(node.bitfield, idx, 256);
    node' := node.(pointers := node.pointers[i := p]);
    StoredReplace(node, i, p);
    ReplaceSlot(c, depth, Stored(node), m, idx, StoredPointer(p), m');
  }

  method RmValue(node: Node, hashedKey: HashBits, c: Config, depth: nat, key: Key, ghost m: map<Key, Value>)
    returns (r: Result<Option<KeyValuePair>, IpldError>, node': Node)
    requires ValidConfig(c) && Represents(c, depth, node, m)
    requires hashedKey.Valid() && hashedKey.b == c.hash(key) && hashedKey.length == 256
    requires hashedKey.consumed == Consumed(c, depth) < 256
    modifies hashedKey
    ensures r == Ok(Deleted(m, key)) && Represents(c, depth, node', m - {key})
    decreases 256 - Consumed(c, depth), 1
  {
    node' := node;
    ConsumedNext(c, depth);
    var next := hashedKey.Next(c.bitWidth);
    var idx := next.value;
    assert idx == Idx(c, key, depth);
    SlotOf(c, depth, Stored(node), idx, m);
    assert key in m <==> key in Sub(c, m, depth, idx);
    if !node.bitfield[idx] {
      assert m - {key} == m;
      return Ok(None), node';
    }
    var child := node.pointers[Ones(node.bitfield, idx)];
    assert CanonicalSlot(c, depth, StoredPointer(child), Sub(c, m, depth, idx));
    if child.Values? {
      r, node' := RmFromBucket(node, child.kvs, c, depth, idx, key, m);
    } else {
      r, node' := RmBelow(node, hashedKey, c, depth, idx, key, m);
    }
  }

  /** Deletes from the child behind a link or a dirty pointer. */
  method RmBelow(node: Node, hashedKey: HashBits, c: Config, depth: nat, idx: nat, key: Key, ghost m: map<Key, Value>)
    returns (r: Result<Option<KeyValuePair>, IpldError>, node': Node)
    requires ValidConfig(c) && Represents(c, depth, node, m) && idx == Idx(c, key, depth)
    requires node.bitfield[idx] && Ones(node.bitfield, idx) < |node.pointers| && !node.pointers[Ones(node.bitfield, idx)].Values?
    requires hashedKey.Valid() && hashedKey.b == c.hash(key) && hashedKey.length == 256
    requires hashedKey.consumed == Consumed(c, depth + 1) && Consumed(c, depth) < Consumed(c, depth + 1)
    modifies hashedKey
    ensures r == Ok(Deleted(m, key)) && Represents(c, depth, node', m - {key})
    decreases 256 - Consumed(c, depth), 0
  {
    ghost var mi := Sub(c, m, depth, idx);
    SubRemove(c, m, depth, key);
    SlotOf(c, depth, Stored(node), idx, m);
    var child := node.pointers[Ones(node.bitfield, idx)];
    assert CanonicalSlot(c, depth, StoredPointer(child), mi);
    assert CoherentPointer(child);
    assert key in m <==> key in mi;
    assert key !in m ==> m - {key} == m;
    var sub := SubNode(child, c, depth, mi);
    r, sub := RmValue(sub, hashedKey, c, depth + 1, key, mi);
    if r.value.Some? {
      node' := PutCleaned(node, sub, c, depth, idx, key, m);
    } else {
      child := KeepChild(child, sub, c, depth, mi);
      node' := ReplaceChild(node, c, depth, idx, child, m, m - {key});
    }
  }

  method SubNode(child: Pointer, c: Config, depth: nat, ghost mi: map<Key, Value>) returns (sub: Node)
    requires ValidConfig(c) && CanonicalSlot(c, depth, StoredPointer(child), mi) && CoherentPointer(child) && !child.Values?
    ensures Represents(c, depth + 1, sub, mi) && Consumed(c, depth + 1) < 256
  {
    match child {
      case Link(cid, cache) =>
        var loaded := ChildOf(c, depth + 1, cid, cache, mi);
        sub := loaded.value;
      case Dirty(n) => sub := n;
    }
  }

  /** Something was deleted below a slot: what is left there is brought to canonical form. */
  method PutCleaned(node: Node, sub: Node, c: Config, depth: nat, idx: nat, key: Key, ghost m: map<Key, Value>)
    returns (node': Node)
    requires ValidConfig(c) && Represents(c, depth, node, m) && Consumed(c, depth) < 256
    requires idx == Idx(c, key, depth) && node.bitfield[idx] && key in m
    requires depth >= c.minDataDepth ==> |Sub(c, m, depth, idx)| > c.maxArrayWidth
    requires Represents(c, depth + 1, sub, Sub(c, m, depth, idx) - {key})
    ensures Represents(c, depth, node', m - {key})
  {
    ghost var mi := Sub(c, m, depth, idx);
    SubRemove(c, m, depth, key);
    MapRemoveSize(mi, key);
    var gone, child := Clean(sub, c, depth, mi - {key});
    if gone.value {
      node' := RemoveChild(node, c, depth, idx, m, m - {key});
    } else {
      node' := ReplaceChild(node, c, depth, idx, child, m, m - {key});
    }
  }

  /** Nothing was deleted: a link keeps its CID and remembers the loaded node. */
  method KeepChild(child: Pointer, sub: Node, c: Config, depth: nat, ghost m: map<Key, Value>) returns (p: Pointer)
    requires ValidConfig(c) && !child.Values? && CanonicalSlot(c, depth, StoredPointer(child), m)
    requires Represents(c, depth + 1, sub, m)
    ensures CoherentPointer(p) && StoredPointer(p) == StoredPointer(child)
  {
    match child {
      case Link(cid, _) =>
        CanonicalUnique(c, depth + 1, Stored(sub), cid, m);
        p := Link(cid, Some(sub));
      case Dirty(n) =>
        CanonicalUnique(c, depth + 1, Stored(sub), Stored(n), m);
        p := Dirty(sub);
    }
  }

  method RmFromBucket(node: Node, kvs: seq<KeyValuePair>, c: Config, depth: nat, idx: nat, key: Key,
                      ghost m: map<Key, Value>)
    returns (r: Result<Option<KeyValuePair>, IpldError>, node': Node)
    requires ValidConfig(c) && Represents(c, depth, node, m) && Consumed(c, depth) < 256
    requires idx == Idx(c, key, depth) && node.bitfield[idx]
    requires CanonicalSlot(c, depth, Bucket(kvs), Sub(c, m, depth, idx))
    ensures r == Ok(Deleted(m, key)) && Represents(c, depth, node', m - {key})
  {
    node' := node;
    ghost var mi := Sub(c, m, depth, idx);
    BucketOf(c, depth, kvs, mi);
    SubRemove(c, m, depth, key);
    HoldsSize(kvs, mi);
    var pos := PositionOf(kvs, key);
    if pos.Some? {
      var i := pos.value;
      var removed := kvs[i];
      MapRemoveSize(mi, key);
      if |kvs| == 1 {
        assert |mi - {key}| == 0;
        node' := RemoveChild(node, c, depth, idx, m, m - {key});
      } else {
        HoldsRemoved(c, kvs, mi, i);
        node' := ReplaceChild(node, c, depth, idx, Values(kvs[..i] + kvs[i + 1..]), m, m - {key});
      }
      return Ok(Some(removed)), node';
    }
    assert key !in mi;
    assert m - {key} == m;
    return Ok(None), node';
  }

  // ---------------------------------------------------------------- flush

  /** Writes every dirty child; the children stay in the link caches. */
  method Flush(node: Node) returns (node': Node)
    requires Coherent(node)
    ensures Flushed(node') && Coherent(node') && Stored(node') == Stored(node)
    decreases node
  {
    node' := node;
    for j := 0 to |node.pointers|
      invariant |node'.pointers| == |node.pointers| && node'.bitfield == node.bitfield
      invariant Coherent(node') && Stored(node') == Stored(node)
      invariant forall i :: 0 <= i < j ==> !node'.pointers[i].Dirty?
      invariant forall i :: j <= i < |node.pointers| ==> node'.pointers[i] == node.pointers[i]
    {
      if node.pointers[j].Dirty? {
        assert CoherentPointer(node.pointers[j]);
        var sub := Flush(node.pointers[j].node);
        var link := WriteNode(sub);
        StoredReplace(node', j, link);
        assert Stored(node').slots[j] == StoredPointer(node.pointers[j]);
        node' := node'.(pointers := node'.pointers[j := link]);
      }
    }
  }

  /** The block of a flushed node, and the link to it. */
  method WriteNode(n: Node) returns (p: Pointer)
    requires Flushed(n) && Coherent(n)
    ensures p.Link? && p.cid == Stored(n) && p.cache == Some(n)
  {
    var slots: seq<Slot> := [];
    for j := 0 to |n.pointers|
      invariant |slots| == j
      invariant forall i :: 0 <= i < j ==> slots[i] == StoredPointer(n.pointers[i])
    {
      match n.pointers[j] {
        case Values(kvs) => slots := slots + [Bucket(kvs)];
        case Link(cid, _) => slots := slots + [Cid(cid)];
      }
    }
    assert slots == Stored(n).slots;
    p := Link(Block(n.bitfield, slots), Some(n));
  }
}
