/** Iteration over a HAMT, from the start or from a key (`ipld/hamt/src/iter.rs`). A slice iterator
    is the sequence of what it has not yielded yet. */
module HamtIter {
  import opened Common
  import opened BitStrings
  import opened HamtForm
  import opened HamtNode

  // ---------------------------------------------------------------- the order of the pairs

  /** The pairs of a tree in the order of its pointers. */
  ghost function Items(b: Block): seq<KeyValuePair>
    decreases b, |b.slots| + 1
  {
    ItemsFrom(b, 0)
  }

  ghost function ItemsFrom(b: Block, j: nat): seq<KeyValuePair>
    requires j <= |b.slots|
    decreases b, |b.slots| - j
  {
    if j == |b.slots| then [] else SlotItems(b.slots[j]) + ItemsFrom(b, j + 1)
  }

  ghost function SlotItems(s: Slot): seq<KeyValuePair>
    decreases s
  {
    match s
    case Bucket(kvs) => kvs
    case Cid(b) => Items(b)
  }

  /** Every pair of the map is listed once. */
  lemma ItemsHold(c: Config, depth: nat, b: Block, m: map<Key, Value>)
    requires ValidConfig(c) && Canonical(c, depth, b, m)
    ensures Distinct(Items(b)) && Holds(Items(b), m)
    decreases b, |b.slots| + 1
  {
    ItemsFromHold(c, depth, b, m, 0);
    assert From(c, depth, b, m, 0) == m;
  }

  /** The part of `m` that is not under the first `j` pointers. */
  ghost function From(c: Config, depth: nat, b: Block, m: map<Key, Value>, j: nat): map<Key, Value>
    requires 1 <= c.bitWidth <= 8
  {
    map k | k in m && Ones(b.bitfield, Idx(c, k, depth)) >= j :: m[k]
  }

  lemma {:induction false} ItemsFromHold(c: Config, depth: nat, b: Block, m: map<Key, Value>, j: nat)
    requires ValidConfig(c) && Canonical(c, depth, b, m) && j <= |b.slots|
    ensures Distinct(ItemsFrom(b, j)) && Holds(ItemsFrom(b, j), From(c, depth, b, m, j))
    decreases b, |b.slots| - j
  {
    if j == |b.slots| {
      FromEnd(c, depth, b, m);
    } else {
      var mi := FromStep(c, depth, b, m, j);
      SlotItemsHold(c, depth, b.slots[j], mi);
      ItemsFromHold(c, depth, b, m, j + 1);
      JoinedHold(SlotItems(b.slots[j]), mi, ItemsFrom(b, j + 1), From(c, depth, b, m, j + 1),
                 ItemsFrom(b, j), From(c, depth, b, m, j));
    }
  }

  lemma FromStep(c: Config, depth: nat, b: Block, m: map<Key, Value>, j: nat) returns (mi: map<Key, Value>)
    requires ValidConfig(c) && Canonical(c, depth, b, m) && j < |b.slots|
    ensures CanonicalSlot(c, depth, b.slots[j], mi)
    ensures From(c, depth, b, m, j) == mi + From(c, depth, b, m, j + 1)
    ensures mi.Keys !! From(c, depth, b, m, j + 1).Keys
  {
    var i := OnesSelect(b.bitfield, 256, j);
    mi := Sub(c, m, depth, i);
    SlotOf(c, depth, b, i, m);
    BelowNext(c, depth, b, m, j, i);
    FromNext(c, depth, b, m, j, i);
  }

  lemma FromEnd(c: Config, depth: nat, b: Block, m: map<Key, Value>)
    requires ValidConfig(c) && Canonical(c, depth, b, m)
    ensures From(c, depth, b, m, |b.slots|) == map[]
  {
    BelowAll(c, depth, b, m);
    forall k | k in m ensures Ones(b.bitfield, Idx(c, k, depth)) < |b.slots| {
      assert k in Below(c, depth, b, m, |b.slots|);
    }
  }

  lemma JoinedHold(x: seq<KeyValuePair>, mx: map<Key, Value>, y: seq<KeyValuePair>, my: map<Key, Value>,
                   xy: seq<KeyValuePair>, mxy: map<Key, Value>)
    requires Distinct(x) && Distinct(y) && Holds(x, mx) && Holds(y, my) && mx.Keys !! my.Keys
    requires xy == x + y && mxy == mx + my
    ensures Distinct(xy) && Holds(xy, mxy)
  {
    HoldsJoined(x, mx, y, my);
  }

  lemma FromNext(c: Config, depth: nat, b: Block, m: map<Key, Value>, j: nat, i: nat)
    requires 1 <= c.bitWidth <= 8 && i < 256 && Ones(b.bitfield, i) == j
    requires Below(c, depth, b, m, j + 1) == Below(c, depth, b, m, j) + Sub(c, m, depth, i)
    ensures From(c, depth, b, m, j) == Sub(c, m, depth, i) + From(c, depth, b, m, j + 1)
    ensures Sub(c, m, depth, i).Keys !! From(c, depth, b, m, j + 1).Keys
  {
    forall k | k in From(c, depth, b, m, j) ensures k in Sub(c, m, depth, i) + From(c, depth, b, m, j + 1) {
      if Ones(b.bitfield, Idx(c, k, depth)) == j {
        assert k in Below(c, depth, b, m, j + 1);
      }
    }
  }

  lemma {:induction false} SlotItemsHold(c: Config, depth: nat, s: Slot, m: map<Key, Value>)
    requires ValidConfig(c) && CanonicalSlot(c, depth, s, m)
    ensures Distinct(SlotItems(s)) && Holds(SlotItems(s), m)
    decreases s
  {
    match s
    case Bucket(kvs) => BucketOf(c, depth, kvs, m);
    case Cid(b) => ItemsHold(c, depth + 1, b, m);
  }

  // ---------------------------------------------------------------- the iterator

  ghost function PointerItems(ps: seq<Pointer>): seq<KeyValuePair> {
    if ps == [] then [] else SlotItems(StoredPointer(ps[0])) + PointerItems(ps[1..])
  }

  /** What the stack still has to yield, innermost slice first. */
  ghost function StackItems(stack: seq<seq<Pointer>>): seq<KeyValuePair> {
    if stack == [] then []
    else PointerItems(stack[|stack| - 1]) + StackItems(stack[..|stack| - 1])
  }

  lemma {:induction false} NodeItems(n: Node, j: nat)
    requires j <= |n.pointers|
    ensures PointerItems(n.pointers[j..]) == ItemsFrom(Stored(n), j)
    decreases |n.pointers| - j
  {
    if j < |n.pointers| {
      NodeItems(n, j + 1);
      assert n.pointers[j..][1..] == n.pointers[j + 1..];
    }
  }

  ghost function SlotSize(s: Slot): nat
    decreases s
  {
    match s
    case Bucket(_) => 1
    case Cid(b) => 1 + BlockSize(b, 0)
  }

  ghost function BlockSize(b: Block, j: nat): nat
    requires j <= |b.slots|
    decreases b, |b.slots| - j
  {
    if j == |b.slots| then 0 else SlotSize(b.slots[j]) + BlockSize(b, j + 1)
  }

  ghost function PointersSize(ps: seq<Pointer>): nat {
    if ps == [] then 0 else SlotSize(StoredPointer(ps[0])) + PointersSize(ps[1..])
  }

  ghost function StackSize(stack: seq<seq<Pointer>>): nat {
    if stack == [] then 0
    else PointersSize(stack[|stack| - 1]) + StackSize(stack[..|stack| - 1])
  }

  lemma {:induction false} NodeSize(n: Node, j: nat)
    requires j <= |n.pointers|
    ensures PointersSize(n.pointers[j..]) == BlockSize(Stored(n), j)
    decreases |n.pointers| - j
  {
    if j < |n.pointers| {
      NodeSize(n, j + 1);
      assert n.pointers[j..][1..] == n.pointers[j + 1..];
    }
  }

  ghost predicate Sound(c: Config, depth: nat, p: Pointer)
    requires 1 <= c.bitWidth <= 8
  {
    CoherentPointer(p) && exists m :: CanonicalSlot(c, depth, StoredPointer(p), m)
  }

  ghost predicate SoundSlice(c: Config, depth: nat, ps: seq<Pointer>)
    requires 1 <= c.bitWidth <= 8
  {
    forall j :: 0 <= j < |ps| ==> Sound(c, depth, ps[j])
  }

  lemma NodeSound(c: Config, depth: nat, n: Node, m: map<Key, Value>)
    requires ValidConfig(c) && Represents(c, depth, n, m)
    ensures SoundSlice(c, depth, n.pointers)
  {
    forall j | 0 <= j < |n.pointers| ensures Sound(c, depth, n.pointers[j]) {
      var i := OnesSelect(n.bitfield, 256, j);
      SlotOf(c, depth, Stored(n), i, m);
      assert CoherentPointer(n.pointers[j]);
      assert CanonicalSlot(c, depth, StoredPointer(n.pointers[j]), Sub(c, m, depth, i));
    }
  }

  lemma StackPush(stack: seq<seq<Pointer>>, ps: seq<Pointer>)
    ensures StackItems(stack + [ps]) == PointerItems(ps) + StackItems(stack)
    ensures StackSize(stack + [ps]) == PointersSize(ps) + StackSize(stack)
  {
    assert (stack + [ps])[..|stack|] == stack;
  }

  /** Taking the first pointer of the innermost slice. */
  lemma StackPop(stack: seq<seq<Pointer>>, rest: seq<seq<Pointer>>, slice: seq<Pointer>)
    requires stack == rest + [slice] && slice != []
    ensures StackItems(stack) == SlotItems(StoredPointer(slice[0])) + StackItems(rest + [slice[1..]])
    ensures StackSize(stack) == SlotSize(StoredPointer(slice[0])) + StackSize(rest + [slice[1..]])
  {
    StackPush(rest, slice);
    StackPush(rest, slice[1..]);
    var x, y, z := SlotItems(StoredPointer(slice[0])), PointerItems(slice[1..]), StackItems(rest);
    assert PointerItems(slice) == x + y;
    assert (x + y) + z == x + (y + z);
  }

  /** The node behind a link or a dirty pointer of a slice at `depth`. */
  method Descend(c: Config, depth: nat, p: Pointer) returns (r: Result<Node, IpldError>)
    requires ValidConfig(c) && Sound(c, depth, p) && !p.Values?
    ensures r.Ok? && SoundSlice(c, depth + 1, r.value.pointers)
    ensures PointerItems(r.value.pointers) == SlotItems(StoredPointer(p))
    ensures 1 + PointersSize(r.value.pointers) == SlotSize(StoredPointer(p))
  {
    ghost var m :| CanonicalSlot(c, depth, StoredPointer(p), m);
    match p {
      case Link(cid, cache) => r := ChildOf(c, depth + 1, cid, cache, m);
      case Dirty(n) => r := Ok(n);
    }
    ghost var n := r.value;
    NodeSound(c, depth + 1, n, m);
    NodeItems(n, 0);
    NodeSize(n, 0);
    assert n.pointers[0..] == n.pointers;
  }

  ghost predicate SoundStack(c: Config, stack: seq<seq<Pointer>>)
    requires 1 <= c.bitWidth <= 8
  {
    forall d :: 0 <= d < |stack| ==> SoundSlice(c, d, stack[d])
  }

  lemma SoundPush(c: Config, stack: seq<seq<Pointer>>, slice: seq<Pointer>)
    requires 1 <= c.bitWidth <= 8 && SoundStack(c, stack) && SoundSlice(c, |stack|, slice)
    ensures SoundStack(c, stack + [slice])
  {
  }

  /** A pair that was found, and what comes after it. */
  ghost function Yields(r: Option<KeyValuePair>, current: seq<KeyValuePair>, stack: seq<seq<Pointer>>): seq<KeyValuePair> {
    if r.None? then StackItems(stack) else [r.value] + (current + StackItems(stack))
  }

  lemma HeadFirst(kvs: seq<KeyValuePair>, rest: seq<KeyValuePair>)
    requires kvs != []
    ensures kvs + rest == [kvs[0]] + (kvs[1..] + rest)
  {
  }

  lemma Behead(kv: KeyValuePair, rest: seq<KeyValuePair>)
    ensures ([kv] + rest)[0] == kv && ([kv] + rest)[1..] == rest
  {
  }

  lemma NothingFirst(rest: seq<KeyValuePair>)
    ensures [] + rest == rest
  {
  }

  lemma EmptyPop(stack: seq<seq<Pointer>>, rest: seq<seq<Pointer>>, slice: seq<Pointer>)
    requires stack == rest + [slice] && slice == []
    ensures StackItems(stack) == StackItems(rest) && StackSize(stack) == StackSize(rest)
  {
    StackPush(rest, slice);
    assert PointerItems(slice) + StackItems(rest) == StackItems(rest);
  }

  /** One turn of the loop: the innermost slice is left, or its first pointer is taken. */
  method Turn(c: Config, stack0: seq<seq<Pointer>>)
    returns (r: Option<KeyValuePair>, stack: seq<seq<Pointer>>, current: seq<KeyValuePair>)
    requires ValidConfig(c) && SoundStack(c, stack0) && stack0 != []
    ensures SoundStack(c, stack) && StackItems(stack0) == Yields(r, current, stack)
    ensures r.None? ==> current == []
    ensures StackSize(stack) < StackSize(stack0) || (StackSize(stack) == StackSize(stack0) && |stack| < |stack0|)
  {
    var top := |stack0| - 1;
    var slice, rest := stack0[top], stack0[..top];
    assert stack0 == rest + [slice];
    if slice == [] {
      EmptyPop(stack0, rest, slice);
      return None, rest, [];
    }
    var p := slice[0];
    StackPop(stack0, rest, slice);
    assert SoundSlice(c, top, slice);
    assert Sound(c, top, p);
    SoundPush(c, rest, slice[1..]);
    stack := rest + [slice[1..]];
    if p.Values? {
      if p.kvs == [] {
        return None, stack, [];
      }
      HeadFirst(p.kvs, StackItems(stack));
      return Some(p.kvs[0]), stack, p.kvs[1..];
    }
    var sub := Descend(c, top, p);
    StackPush(stack, sub.value.pointers);
    SoundPush(c, stack, sub.value.pointers);
    return None, stack + [sub.value.pointers], [];
  }

  /** Walks the stack to the next pair. */
  method Advance(c: Config, stack0: seq<seq<Pointer>>)
    returns (r: Option<KeyValuePair>, stack: seq<seq<Pointer>>, current: seq<KeyValuePair>)
    requires ValidConfig(c) && SoundStack(c, stack0)
    ensures SoundStack(c, stack) && StackItems(stack0) == Yields(r, current, stack)
    ensures r.None? ==> stack == [] && current == []
  {
    r, stack, current := None, stack0, [];
    while r.None? && stack != []
      invariant SoundStack(c, stack) && StackItems(stack0) == Yields(r, current, stack)
      invariant r.None? ==> current == []
      decreases StackSize(stack), |stack|
    {
      r, stack, current := Turn(c, stack);
    }
  }

  class Iter {
    const conf: Config
    var stack: seq<seq<Pointer>>
    var current: seq<KeyValuePair>

    ghost predicate Valid()
      reads this
    {
      ValidConfig(conf) && SoundStack(conf, stack)
    }

    /** The pairs that are still to come. */
    ghost function Remaining(): seq<KeyValuePair>
      reads this
    {
      current + StackItems(stack)
    }

    constructor (conf: Config, stack: seq<seq<Pointer>>, current: seq<KeyValuePair>)
      requires ValidConfig(conf) && SoundStack(conf, stack)
      ensures Valid() && this.conf == conf && this.stack == stack && this.current == current
    {
      this.conf, this.stack, this.current := conf, stack, current;
    }

    /** Yields the next pair; `None` at the end. Loading a child never fails. */
    method Next() returns (r: Option<Result<KeyValuePair, IpldError>>)
      requires Valid()
      modifies this
      ensures Valid()
      ensures old(Remaining()) == [] ==> r == None && Remaining() == []
      ensures old(Remaining()) != [] ==>
                r == Some(Ok(old(Remaining())[0])) && Remaining() == old(Remaining())[1..]
    {
      if current != [] {
        HeadFirst(current, StackItems(stack));
        var v := current[0];
        current := current[1..];
        Behead(v, Remaining());
        return Some(Ok(v));
      }
      assert Remaining() == StackItems(stack) by {
        NothingFirst(StackItems(stack));
      }
      var next;
      next, stack, current := Advance(conf, stack);
      if next.Some? {
        Behead(next.value, Remaining());
      }
      r := if next.Some? then Some(Ok(next.value)) else None;
    }
  }

  /** The iterator over the whole tree. */
  method IterAll(c: Config, root: Node, ghost m: map<Key, Value>) returns (it: Iter)
    requires ValidConfig(c) && Represents(c, 0, root, m)
    ensures fresh(it) && it.Valid() && it.Remaining() == Items(Stored(root))
  {
    NodeSound(c, 0, root, m);
    NodeItems(root, 0);
    assert root.pointers[0..] == root.pointers;
    it := new Iter(c, [root.pointers], []);
    StackPush([], root.pointers);
    assert [root.pointers] == [] + [root.pointers];
  }

  /** Drains an iterator: all pairs, each once, in a finite number of steps. */
  method Collect(c: Config, root: Node, ghost m: map<Key, Value>) returns (all: seq<KeyValuePair>)
    requires ValidConfig(c) && Represents(c, 0, root, m)
    ensures all == Items(Stored(root)) && Distinct(all) && Holds(all, m)
  {
    ItemsHold(c, 0, Stored(root), m);
    var it := IterAll(c, root, m);
    all := Drain(it);
  }

  /** All that an iterator still has to yield. */
  method Drain(it: Iter) returns (all: seq<KeyValuePair>)
    requires it.Valid()
    modifies it
    ensures it.Valid() && all == old(it.Remaining())
  {
    all := [];
    ghost var goal := it.Remaining();
    var next := it.Next();
    while next.Some?
      invariant it.Valid()
      invariant next.Some? ==> next.value.Ok? && all + [next.value.value] + it.Remaining() == goal
      invariant next.None? ==> all == goal
      decreases next.Some?, |it.Remaining()|
    {
      Gathers(all, next.value.value, it.Remaining());
      all := all + [next.value.value];
      next := it.Next();
    }
  }

  /** What is gathered and what is left, whether or not something is left. */
  lemma Gathers(all: seq<KeyValuePair>, kv: KeyValuePair, rest: seq<KeyValuePair>)
    ensures rest == [] ==> all + [kv] + rest == all + [kv]
    ensures rest != [] ==> all + [kv] + rest == (all + [kv]) + [rest[0]] + rest[1..]
  {
  }

  // ---------------------------------------------------------------- starting at a key

  /** `r` lists the pairs of `b` from `key` on. */
  ghost predicate StartsAt(r: seq<KeyValuePair>, b: Block, key: Key) {
    r != [] && r[0].0 == key && exists pre :: Items(b) == pre + r
  }

  lemma {:induction false} PointerItemsConcat(a: seq<Pointer>, b: seq<Pointer>)
    ensures PointerItems(a + b) == PointerItems(a) + PointerItems(b)
  {
    if a == [] {
      assert a + b == b;
    } else {
      PointerItemsConcat(a[1..], b);
      assert (a + b)[0] == a[0] && (a + b)[1..] == a[1..] + b;
      PairsAssociate(SlotItems(StoredPointer(a[0])), PointerItems(a[1..]), PointerItems(b));
    }
  }

  lemma PairsAssociate(a: seq<KeyValuePair>, b: seq<KeyValuePair>, c: seq<KeyValuePair>)
    ensures a + (b + c) == (a + b) + c
  {
  }

  lemma ItemsSplit(n: Node, at: nat)
    requires at < |n.pointers|
    ensures Items(Stored(n)) ==
            PointerItems(n.pointers[..at]) + SlotItems(StoredPointer(n.pointers[at])) + PointerItems(n.pointers[at + 1..])
  {
    var ps := n.pointers;
    NodeItems(n, 0);
    assert ps[0..] == ps == ps[..at] + ps[at..];
    PointerItemsConcat(ps[..at], ps[at..]);
    assert ps[at..][1..] == ps[at + 1..];
  }

  /** The pointer found at the rank of `idx`, and the part of the map under it. */
  lemma PathSlot(c: Config, depth: nat, n: Node, m: map<Key, Value>, key: Key, idx: nat)
    returns (mi: map<Key, Value>)
    requires ValidConfig(c) && Represents(c, depth, n, m) && idx < 256
    ensures var at := Ones(n.bitfield, idx);
            && at <= |n.pointers|
            && (at < |n.pointers| ==> CanonicalSlot(c, depth, StoredPointer(n.pointers[at]), mi))
            && (key in m && idx == Idx(c, key, depth) ==> at < |n.pointers| && key in mi)
            && mi.Keys <= m.Keys
  {
    var at := Ones(n.bitfield, idx);
    OnesMonotone(n.bitfield, idx, 256);
    if key in m && idx == Idx(c, key, depth) {
      mi := Sub(c, m, depth, idx);
      assert key in mi;
      SlotOf(c, depth, Stored(n), idx, m);
    } else if at < |n.pointers| {
      var i := OnesSelect(n.bitfield, 256, at);
      mi := Sub(c, m, depth, i);
      SlotOf(c, depth, Stored(n), i, m);
    } else {
      mi := map[];
    }
  }

  /** The node behind a pointer, loaded as a node at `depth`. */
  method NodeAt(c: Config, depth: nat, p: Pointer) returns (r: Result<Node, IpldError>)
    requires CoherentPointer(p) && !p.Values?
    ensures r.Ok? ==> Coherent(r.value) && Cid(Stored(r.value)) == StoredPointer(p)
    ensures p.Link? && p.cache.None? ==> r == LoadNode(c, depth, p.cid)
    ensures p.Dirty? || p.cache.Some? ==> r.Ok?
  {
    match p {
      case Link(cid, cache) => r := if cache.Some? then Ok(cache.value) else LoadNode(c, depth, cid);
      case Dirty(n) => r := Ok(n);
    }
  }

  lemma LoadsOnPath(c: Config, depth: nat, p: Pointer, m: map<Key, Value>)
    requires ValidConfig(c) && CanonicalSlot(c, depth, StoredPointer(p), m)
    ensures p.Link? ==> LoadNode(c, depth + 1, p.cid).Ok?
    ensures !p.Values? ==> Canonical(c, depth + 1, StoredPointer(p).block, m)
  {
    if p.Link? {
      CanonicalLoads(c, depth + 1, p.cid, m);
    }
  }

  lemma DigitSmall(b: seq<Byte>, p: nat, n: nat)
    requires p + n <= 8 * |b| && n <= 8
    ensures Digit(b, p, n) < 256
  {
    Pow2Monotone(n, 8);
    Pow2Table();
  }

  /** Where one step of the search for the start key leads. */
  datatype Step = Retry | Into(node: Node) | Found(current: seq<KeyValuePair>) | Failed(error: IpldError)

  /** The key is below `node`, and `stack` holds what comes after `node`. */
  ghost predicate OnPath(c: Config, depth: nat, items: seq<KeyValuePair>, stack: seq<seq<Pointer>>,
                         all: seq<KeyValuePair>)
    requires 1 <= c.bitWidth <= 8
  {
    depth == |stack| && SoundStack(c, stack) && exists pre :: all == pre + items + StackItems(stack)
  }

  method SearchStep(c: Config, node: Node, stack0: seq<seq<Pointer>>, idx: nat, key: Key,
                    ghost depth: nat, ghost m: map<Key, Value>, ghost all: seq<KeyValuePair>)
    returns (step: Step, stack: seq<seq<Pointer>>, ghost mi: map<Key, Value>)
    requires ValidConfig(c) && Represents(c, depth, node, m) && idx < 256
    requires key in m ==> idx == Idx(c, key, depth) && OnPath(c, depth, Items(Stored(node)), stack0, all)
    ensures step.Retry? ==> key !in m
    ensures step.Into? ==> Represents(c, depth + 1, step.node, mi) && (key in mi <==> key in m)
    ensures step.Into? && key in m ==> OnPath(c, depth + 1, Items(Stored(step.node)), stack, all)
    ensures step.Found? ==> key in m && OnPath(c, depth + 1, step.current, stack, all)
    ensures step.Found? ==> step.current != [] && step.current[0].0 == key
    ensures step.Failed? ==> key !in m
  {
    mi := PathSlot(c, depth, node, m, key, idx);
    var at := Ones(node.bitfield, idx);
    var slice := node.pointers[at..];
    if slice == [] {
      return Retry, stack0 + [slice], mi;
    }
    var p := slice[0];
    assert CoherentPointer(p) && p == node.pointers[at] && slice[1..] == node.pointers[at + 1..];
    stack := stack0 + [slice[1..]];
    if key in m {
      StepDown(c, depth, node, m, at, stack0, all);
    }
    if p.Values? {
      BucketOf(c, depth, p.kvs, mi);
      var offset := PositionOf(p.kvs, key);
      if offset.None? {
        return Failed(StartKeyNotFound), stack, mi;
      }
      SkipOffset(c, depth + 1, p.kvs, offset.value, stack, all);
      return Found(p.kvs[offset.value..]), stack, mi;
    }
    LoadsOnPath(c, depth, p, mi);
    var loaded := NodeAt(c, |stack|, p);
    step := if loaded.Ok? then Into(loaded.value) else Failed(loaded.error);
  }

  lemma StepDown(c: Config, depth: nat, n: Node, m: map<Key, Value>, at: nat, stack: seq<seq<Pointer>>,
                 all: seq<KeyValuePair>)
    requires ValidConfig(c) && Represents(c, depth, n, m) && at < |n.pointers|
    requires OnPath(c, depth, Items(Stored(n)), stack, all)
    ensures OnPath(c, depth + 1, SlotItems(StoredPointer(n.pointers[at])), stack + [n.pointers[at + 1..]], all)
  {
    var pre :| all == pre + Items(Stored(n)) + StackItems(stack);
    ItemsSplit(n, at);
    StackPush(stack, n.pointers[at + 1..]);
    NodeSound(c, depth, n, m);
    SoundPush(c, stack, n.pointers[at + 1..]);
    Regroup(pre, PointerItems(n.pointers[..at]), SlotItems(StoredPointer(n.pointers[at])),
            PointerItems(n.pointers[at + 1..]), StackItems(stack));
    var pre' := pre + PointerItems(n.pointers[..at]);
    assert all == pre' + SlotItems(StoredPointer(n.pointers[at])) + StackItems(stack + [n.pointers[at + 1..]]);
  }

  lemma Regroup(a: seq<KeyValuePair>, b: seq<KeyValuePair>, c: seq<KeyValuePair>, d: seq<KeyValuePair>,
                e: seq<KeyValuePair>)
    ensures a + (b + c + d) + e == (a + b) + c + (d + e)
  {
  }

  lemma SkipOffset(c: Config, depth: nat, kvs: seq<KeyValuePair>, i: nat, stack: seq<seq<Pointer>>,
                   all: seq<KeyValuePair>)
    requires 1 <= c.bitWidth <= 8 && i < |kvs| && OnPath(c, depth, kvs, stack, all)
    ensures OnPath(c, depth, kvs[i..], stack, all)
  {
    var pre :| all == pre + kvs + StackItems(stack);
    assert all == (pre + kvs[..i]) + kvs[i..] + StackItems(stack);
  }

  lemma PathStart(c: Config, all: seq<KeyValuePair>)
    requires 1 <= c.bitWidth <= 8
    ensures OnPath(c, 0, all, [], all)
  {
    assert all == [] + all + StackItems([]);
  }

  /** A node that holds a key has bits left to read. */
  lemma PathDepth(c: Config, depth: nat, n: Node, m: map<Key, Value>, key: Key)
    requires 1 <= c.bitWidth <= 8 && Represents(c, depth, n, m)
    ensures key in m ==> Consumed(c, depth) < 256
  {
  }

  /** The next slot number of the key, which is its slot at `depth` when the cursor is there. */
  method NextIndex(hash: HashBits, c: Config, key: Key, ghost depth: nat) returns (r: Result<nat, IpldError>)
    requires 1 <= c.bitWidth <= 8
    requires hash.Valid() && hash.b == c.hash(key) && hash.length == 256
    modifies hash
    ensures hash.Valid()
    ensures r.Err? <==> old(hash.consumed) == 256
    ensures r.Ok? ==> old(hash.consumed) < hash.consumed && r.value < 256
    ensures r.Ok? && old(hash.consumed) == Consumed(c, depth) ==>
              hash.consumed == Consumed(c, depth + 1) && r.value == Idx(c, key, depth)
  {
    ConsumedNext(c, depth);
    r := hash.Next(c.bitWidth);
    if r.Ok? {
      DigitSmall(hash.b, old(hash.consumed), hash.consumed - old(hash.consumed));
    }
  }

  /** The iterator that starts at `key`; an error when the key is absent. */
  method IterFrom(c: Config, root: Node, key: Key, ghost m: map<Key, Value>) returns (r: Result<Iter, IpldError>)
    requires ValidConfig(c) && Represents(c, 0, root, m)
    ensures r.Ok? <==> key in m
    ensures r.Ok? ==> fresh(r.value) && r.value.Valid() && StartsAt(r.value.Remaining(), Stored(root), key)
  {
    var hash := new HashBits(c.hash(key), 256, 0);
    var node := root;
    var stack: seq<seq<Pointer>> := [];
    ghost var mn, depth, all := m, 0, Items(Stored(root));
    PathStart(c, all);
    while true
      invariant fresh(hash) && hash.Valid() && hash.b == c.hash(key) && hash.length == 256
      invariant Represents(c, depth, node, mn) && (key in mn <==> key in m)
      invariant key in m ==> hash.consumed == Consumed(c, depth)
      invariant key in m ==> OnPath(c, depth, Items(Stored(node)), stack, all)
      decreases 256 - hash.consumed
    {
      PathDepth(c, depth, node, mn, key);
      var next := NextIndex(hash, c, key, depth);
      if next.Err? {
        return Err(next.error);
      }
      var step;
      ghost var mi;
      step, stack, mi := SearchStep(c, node, stack, next.value, key, depth, mn, all);
      match step {
        case Retry =>
        case Failed(e) => return Err(e);
        case Found(current) =>
          var it := new Iter(c, stack, current);
          FoundStarts(c, depth + 1, current, stack, root, key);
          return Ok(it);
        case Into(child) =>
          node := child;
          mn, depth := mi, depth + 1;
      }
    }
  }

  lemma FoundStarts(c: Config, depth: nat, current: seq<KeyValuePair>, stack: seq<seq<Pointer>>, root: Node, key: Key)
    requires 1 <= c.bitWidth <= 8 && OnPath(c, depth, current, stack, Items(Stored(root)))
    requires current != [] && current[0].0 == key
    ensures StartsAt(current + StackItems(stack), Stored(root), key)
  {
    var pre :| Items(Stored(root)) == pre + current + StackItems(stack);
    assert Items(Stored(root)) == pre + (current + StackItems(stack));
  }
}
