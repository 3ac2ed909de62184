/** The HAMT as its users see it (`ipld/hamt/src/hamt.rs`): a map whose CID depends on nothing but
    its contents. */
module Hamt {
  import opened Common
  import opened BitStrings
  import opened HamtForm
  import opened HamtNode

  class Hamt {
    const conf: Config
    var root: Node
    /** The last flushed CID, until the contents change. */
    var flushedCid: Option<Block>
    ghost var contents: map<Key, Value>

    ghost predicate Valid()
      reads this
    {
      && ValidConfig(conf)
      && Represents(conf, 0, root, contents)
      && (flushedCid.Some? ==> flushedCid.value == Stored(root))
    }

    constructor (conf: Config)
      requires ValidConfig(conf)
      ensures Valid() && contents == map[] && this.conf == conf
    {
      this.conf, root, flushedCid, contents := conf, EMPTY, None, map[];
      EmptyCanonical(conf, 0);
    }

    /** A failed set leaves the tree in no particular state, so `Valid` is lost with it. */
    method SetIn(key: Key, value: Value, overwrite: bool) returns (r: Result<(Option<Value>, bool), IpldError>)
      requires Valid()
      modifies this
      ensures r.Ok? <==> Storable(conf, 0, After(old(contents), key, value, overwrite))
      ensures r.Ok? ==> Valid() && contents == After(old(contents), key, value, overwrite)
      ensures r.Ok? ==> r.value == Answer(old(contents), key, value, overwrite)
    {
      var bits := new HashBits(conf.hash(key), 256, 0);
      r, root := ModifyValue(root, bits, conf, 0, key, value, overwrite, contents);
      if r.Ok? {
        AfterSize(contents, key, value, overwrite);
        if r.value.1 {
          flushedCid := None;
        } else {
          CanonicalUnique(conf, 0, Stored(root), Stored(old(root)), contents);
        }
        contents := After(contents, key, value, overwrite);
        CanonicalStorable(conf, 0, Stored(root), contents);
      }
    }

    method Set(key: Key, value: Value) returns (r: Result<Option<Value>, IpldError>)
      requires Valid()
      modifies this
      ensures r.Ok? <==> Storable(conf, 0, old(contents)[key := value])
      ensures r.Ok? ==> Valid() && contents == old(contents)[key := value]
      ensures r.Ok? ==> r.value == if key in old(contents) then Some(old(contents)[key]) else None
    {
      var done := SetIn(key, value, true);
      r := if done.Ok? then Ok(done.value.0) else Err(done.error);
    }

    method SetIfAbsent(key: Key, value: Value) returns (r: Result<bool, IpldError>)
      requires Valid()
      modifies this
      ensures r.Ok? <==> key in old(contents) || Storable(conf, 0, old(contents)[key := value])
      ensures r.Ok? ==> Valid() && r.value == (key !in old(contents))
      ensures r.Ok? ==> contents == if key in old(contents) then old(contents) else old(contents)[key := value]
    {
      CanonicalStorable(conf, 0, Stored(root), contents);
      var done := SetIn(key, value, false);
      r := if done.Ok? then Ok(done.value.1) else Err(done.error);
    }

    method Get(key: Key) returns (r: Result<Option<Value>, IpldError>)
      requires Valid()
      ensures r == Ok(if key in contents then Some(contents[key]) else None)
    {
      var bits := new HashBits(conf.hash(key), 256, 0);
      r := GetValue(root, bits, conf, 0, key, contents);
    }

    method Delete(key: Key) returns (r: Result<Option<KeyValuePair>, IpldError>)
      requires Valid()
      modifies this
      ensures Valid() && contents == old(contents) - {key}
      ensures r == Ok(if key in old(contents) then Some((key, old(contents)[key])) else None)
    {
      var bits := new HashBits(conf.hash(key), 256, 0);
      r, root := RmValue(root, bits, conf, 0, key, contents);
      if r.value.Some? {
        flushedCid := None;
      } else {
        assert contents - {key} == contents;
        CanonicalUnique(conf, 0, Stored(root), Stored(old(root)), contents);
      }
      contents := contents - {key};
    }

    method Flush() returns (cid: Block)
      requires Valid()
      modifies this
      ensures Valid() && contents == old(contents)
      ensures cid == Stored(root) && Canonical(conf, 0, cid, contents)
    {
      if flushedCid.Some? {
        return flushedCid.value;
      }
      root := HamtNode.Flush(root);
      var link := WriteNode(root);
      flushedCid := Some(link.cid);
      cid := link.cid;
    }
  }

  datatype Op = DoSet(key: Key, value: Value) | DoSetIfAbsent(key: Key, value: Value) | DoDelete(key: Key) | DoFlush

  ghost function Apply(m: map<Key, Value>, op: Op): map<Key, Value> {
    match op
    case DoSet(k, v) => m[k := v]
    case DoSetIfAbsent(k, v) => if k in m then m else m[k := v]
    case DoDelete(k) => m - {k}
    case DoFlush => m
  }

  ghost function ApplyAll(ops: seq<Op>): map<Key, Value> {
    if ops == [] then map[] else Apply(ApplyAll(ops[..|ops| - 1]), ops[|ops| - 1])
  }

  /** No prefix of the history asks for a map that has no tree. */
  ghost predicate Feasible(c: Config, ops: seq<Op>) {
    forall n :: 0 <= n <= |ops| ==> Storable(c, 0, ApplyAll(ops[..n]))
  }

  /** Runs a history on an empty HAMT and flushes it. */
  method Replay(c: Config, ops: seq<Op>) returns (r: Result<Block, IpldError>)
    requires ValidConfig(c)
    ensures r.Ok? <==> Feasible(c, ops)
    ensures r.Ok? ==> Canonical(c, 0, r.value, ApplyAll(ops))
  {
    var h := new Hamt(c);
    for i := 0 to |ops|
      invariant fresh(h) && h.Valid() && h.conf == c && h.contents == ApplyAll(ops[..i])
      invariant forall n :: 0 <= n <= i ==> Storable(c, 0, ApplyAll(ops[..n]))
    {
      assert ops[..i + 1][..i] == ops[..i];
      assert ApplyAll(ops[..i + 1]) == Apply(ApplyAll(ops[..i]), ops[i]);
      match ops[i] {
        case DoSet(k, v) =>
          var done := h.Set(k, v);
          if done.Err? {
            return Err(done.error);
          }
        case DoSetIfAbsent(k, v) =>
          var done := h.SetIfAbsent(k, v);
          if done.Err? {
            return Err(done.error);
          }
        case DoDelete(k) =>
          var _ := h.Delete(k);
        case DoFlush =>
          var _ := h.Flush();
      }
      CanonicalStorable(c, 0, Stored(h.root), h.contents);
    }
    assert ops[..|ops|] == ops;
    var cid := h.Flush();
    return Ok(cid);
  }

  /** Two histories end in the same CID exactly when they end in the same map. */
  lemma SameCidSameContents(c: Config, ops1: seq<Op>, cid1: Block, ops2: seq<Op>, cid2: Block)
    requires ValidConfig(c)
    requires Canonical(c, 0, cid1, ApplyAll(ops1)) && Canonical(c, 0, cid2, ApplyAll(ops2))
    ensures cid1 == cid2 <==> ApplyAll(ops1) == ApplyAll(ops2)
  {
    if ApplyAll(ops1) == ApplyAll(ops2) {
      CanonicalUnique(c, 0, cid1, cid2, ApplyAll(ops1));
    }
    if cid1 == cid2 {
      ContentsUnique(c, 0, cid1, ApplyAll(ops1), ApplyAll(ops2));
    }
  }

  /** A tree is canonical for one map only. */
  lemma {:induction false} ContentsUnique(c: Config, depth: nat, b: Block, m1: map<Key, Value>, m2: map<Key, Value>)
    requires ValidConfig(c) && Canonical(c, depth, b, m1) && Canonical(c, depth, b, m2)
    ensures m1 == m2
    decreases b
  {
    forall k | k in m1 || k in m2 ensures k in m1 && k in m2 && m1[k] == m2[k] {
      var i := Idx(c, k, depth);
      SlotOf(c, depth, b, i, m1);
      SlotOf(c, depth, b, i, m2);
      var x, y := Sub(c, m1, depth, i), Sub(c, m2, depth, i);
      assert k in x || k in y;
      SlotContentsUnique(c, depth, b.slots[Ones(b.bitfield, i)], x, y);
      assert k in x && k in y;
    }
  }

  lemma {:induction false} SlotContentsUnique(c: Config, depth: nat, s: Slot, m1: map<Key, Value>, m2: map<Key, Value>)
    requires ValidConfig(c) && CanonicalSlot(c, depth, s, m1) && CanonicalSlot(c, depth, s, m2)
    ensures m1 == m2
    decreases s
  {
    match s
    case Bucket(kvs) =>
      forall k | k in m1 ensures k in m2 && m1[k] == m2[k] {
        assert (k, m1[k]) in kvs;
      }
      forall k | k in m2 ensures k in m1 {
        assert (k, m2[k]) in kvs;
      }
    case Cid(b) => ContentsUnique(c, depth + 1, b, m1, m2);
  }
}
