/** The KAMT as its users see it (`ipld/kamt/src/kamt.rs`): a map whose tree depends on nothing but its
    contents. */
module Kamt {
  import opened Common
  import opened BitStrings
  import opened HamtForm
  import opened HamtNode
  import opened KamtNode
  import opened KamtDelete

  class Kamt {
    const conf: Config
    var root: Trie
    ghost var contents: map<Key, Value>

    ghost predicate Valid()
      reads this
    {
      && ValidConfig(conf) && Injective(conf)
      && Tree(conf, 0, root, contents)
      && (contents != map[] ==> FitsDepth(conf))
    }

    constructor (conf: Config)
      requires ValidConfig(conf) && Injective(conf)
      ensures Valid() && contents == map[] && this.conf == conf
    {
      this.conf, root, contents := conf, EMPTY_TRIE, map[];
      EmptyTree(conf, 0);
    }

    method SetIn(key: Key, value: Value, overwrite: bool) returns (r: Result<(Option<Value>, bool), IpldError>)
      requires Valid()
      modifies this
      ensures Valid() && (r.Ok? <==> FitsDepth(conf))
      ensures r.Ok? ==> r.value == Answer(old(contents), key, value, overwrite)
      ensures contents == if r.Ok? then After(old(contents), key, value, overwrite) else old(contents)
    {
      var bits := new HashBits(conf.hash(key), 256, 0);
      var root';
      r, root' := ModifyTrie(root, bits, conf, 0, key, value, overwrite, contents);
      if r.Ok? {
        root := root';
        contents := After(contents, key, value, overwrite);
      }
    }

    method Set(key: Key, value: Value) returns (r: Result<Option<Value>, IpldError>)
      requires Valid()
      modifies this
      ensures Valid() && (r.Ok? <==> FitsDepth(conf))
      ensures contents == if r.Ok? then old(contents)[key := value] else old(contents)
      ensures r.Ok? ==> r.value == if key in old(contents) then Some(old(contents)[key]) else None
    {
      var done := SetIn(key, value, true);
      r := if done.Ok? then Ok(done.value.0) else Err(done.error);
    }

    method SetIfAbsent(key: Key, value: Value) returns (r: Result<bool, IpldError>)
      requires Valid()
      modifies this
      ensures Valid() && (r.Ok? <==> FitsDepth(conf))
      ensures contents == if r.Ok? && key !in old(contents) then old(contents)[key := value] else old(contents)
      ensures r.Ok? ==> r.value == (key !in old(contents))
    {
      var done := SetIn(key, value, false);
      r := if done.Ok? then Ok(done.value.1) else Err(done.error);
    }

    method Delete(key: Key) returns (r: Result<Option<Value>, IpldError>)
      requires Valid()
      modifies this
      ensures Valid() && contents == old(contents) - {key}
      ensures r == Ok(if key in old(contents) then Some(old(contents)[key]) else None)
    {
      var bits := new HashBits(conf.hash(key), 256, 0);
      r, root := RmTrie(root, bits, conf, 0, key, contents);
      contents := contents - {key};
    }

    /** Finds exactly the last value set, through every split, overflow and merge. */
    method Get(key: Key) returns (r: Result<Option<Value>, IpldError>)
      requires Valid()
      ensures r == Ok(if key in contents then Some(contents[key]) else None)
    {
      var bits := new HashBits(conf.hash(key), 256, 0);
      r := FindInTrie(root, bits, conf, 0, key, contents);
    }
  }

  // ---------------------------------------------------------------- whole runs

  datatype Op = DoSet(key: Key, value: Value) | DoSetIfAbsent(key: Key, value: Value) | DoDelete(key: Key)

  ghost function Apply(m: map<Key, Value>, op: Op): map<Key, Value> {
    match op
    case DoSet(k, v) => m[k := v]
    case DoSetIfAbsent(k, v) => if k in m then m else m[k := v]
    case DoDelete(k) => m - {k}
  }

  ghost function ApplyAll(ops: seq<Op>): map<Key, Value>
    decreases |ops|
  {
    if ops == [] then map[] else Apply(ApplyAll(ops[..|ops| - 1]), ops[|ops| - 1])
  }

  method Perform(kamt: Kamt, op: Op)
    requires kamt.Valid()
    modifies kamt
    ensures kamt.Valid() && kamt.contents == if FitsDepth(kamt.conf) then Apply(old(kamt.contents), op) else old(kamt.contents)
  {
    match op {
      case DoSet(k, v) => var _ := kamt.Set(k, v);
      case DoSetIfAbsent(k, v) => var _ := kamt.SetIfAbsent(k, v);
      case DoDelete(k) => var _ := kamt.Delete(k);
    }
  }

  /** Any history gives the one tree of the map that it makes; beyond the levels of the keys nothing can
      be set. */
  method Replay(c: Config, ops: seq<Op>) returns (kamt: Kamt)
    requires ValidConfig(c) && Injective(c)
    ensures fresh(kamt) && kamt.Valid() && kamt.conf == c
    ensures kamt.contents == if FitsDepth(c) then ApplyAll(ops) else map[]
  {
    kamt := new Kamt(c);
    var n := 0;
    assert ops[..0] == [];
    while n < |ops|
      invariant n <= |ops| && fresh(kamt) && kamt.Valid() && kamt.conf == c
      invariant kamt.contents == if FitsDepth(c) then ApplyAll(ops[..n]) else map[]
    {
      assert ops[..n + 1][..n] == ops[..n];
      Perform(kamt, ops[n]);
      n := n + 1;
    }
    assert ops[..n] == ops;
  }

  /** Two histories that make the same map make the same tree. */
  lemma SameMapSameTree(c: Config, a: Trie, b: Trie, ops: seq<Op>, ops': seq<Op>)
    requires ValidConfig(c) && Tree(c, 0, a, ApplyAll(ops)) && Tree(c, 0, b, ApplyAll(ops'))
    requires ApplyAll(ops) == ApplyAll(ops')
    ensures Plain(a) == Plain(b)
  {
    TreeUnique(c, 0, a, b, ApplyAll(ops));
  }
}
