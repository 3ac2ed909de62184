/** Deleting from a KAMT (`ipld/kamt/src/node.rs` and `pointer.rs`): what is left is brought back to the
    one tree of the remaining keys, merging extensions that a split had parted. */
module KamtDelete {
  import opened Common
  import opened BitStrings
  import opened HamtForm
  import opened HamtNode
  import opened KamtExt
  import opened KamtNode

  // ---------------------------------------------------------------- what is in a node

  /** The part of `m` that lies below slot `i`. */
  ghost function Before(c: Config, d: nat, m: map<Key, Value>, i: nat): map<Key, Value>
    requires 1 <= c.bitWidth <= 8
  {
    map k | k in m && Idx(c, k, d) < i :: m[k]
  }

  lemma BeforeNext(c: Config, d: nat, m: map<Key, Value>, i: nat)
    requires 1 <= c.bitWidth <= 8
    ensures Before(c, d, m, i + 1) == Before(c, d, m, i) + Sub(c, m, d, i)
    ensures Before(c, d, m, i).Keys !! Sub(c, m, d, i).Keys
    ensures |Before(c, d, m, i + 1)| == |Before(c, d, m, i)| + |Sub(c, m, d, i)|
  {
    var a, b, all := Before(c, d, m, i), Sub(c, m, d, i), Before(c, d, m, i + 1);
    assert all == a + b;
    assert all.Keys == a.Keys + b.Keys;
    assert |all| == |all.Keys| && |a| == |a.Keys| && |b| == |b.Keys|;
  }

  lemma BeforeAll(c: Config, d: nat, m: map<Key, Value>)
    requires 1 <= c.bitWidth <= 8
    ensures Before(c, d, m, 256) == m && Before(c, d, m, 0) == map[]
  {
  }

  /** What `clean` finds in a node: how many slots are taken, the last of them, and the pairs if there
      are only buckets. */
  datatype Survey = Survey(taken: nat, last: nat, pairs: Option<seq<KeyValuePair>>)

  ghost predicate Surveyed(c: Config, d: nat, t: Trie, m: map<Key, Value>, i: nat, s: Survey)
    requires 1 <= c.bitWidth <= 8 && |t.cells| == 256 && i <= 256
  {
    var below := Before(c, d, m, i);
    && s.taken <= |below|
    && (s.taken == 0 <==> below == map[])
    && (s.taken > 0 ==> s.last < i && !t.cells[s.last].Free?)
    && (s.taken == 1 ==> forall k :: k in below ==> Idx(c, k, d) == s.last)
    && (s.taken >= 2 ==> Branching(c, d, below))
    && (s.pairs.Some? ==> Distinct(s.pairs.value) && Holds(s.pairs.value, below))
    && (s.pairs.None? ==> exists j :: 0 <= j < i && t.cells[j].Down?)
  }

  lemma SurveyFree(c: Config, d: nat, t: Trie, m: map<Key, Value>, i: nat, s: Survey)
    requires 1 <= c.bitWidth <= 8 && |t.cells| == 256 && i < 256 && Surveyed(c, d, t, m, i, s)
    requires Sub(c, m, d, i) == map[]
    ensures Surveyed(c, d, t, m, i + 1, s)
  {
    BeforeNext(c, d, m, i);
    assert Before(c, d, m, i + 1) == Before(c, d, m, i);
  }

  /** A taken slot. */
  lemma SurveyTaken(c: Config, d: nat, t: Trie, m: map<Key, Value>, i: nat, s: Survey, pairs: Option<seq<KeyValuePair>>)
    requires 1 <= c.bitWidth <= 8 && |t.cells| == 256 && i < 256 && Surveyed(c, d, t, m, i, s)
    requires Sub(c, m, d, i) != map[] && !t.cells[i].Free?
    requires pairs.Some? ==> Distinct(pairs.value) && Holds(pairs.value, Before(c, d, m, i + 1))
    requires pairs.None? ==> s.pairs.None? || t.cells[i].Down?
    ensures Surveyed(c, d, t, m, i + 1, Survey(s.taken + 1, i, pairs))
  {
    BeforeNext(c, d, m, i);
    var mi, below, all := Sub(c, m, d, i), Before(c, d, m, i), Before(c, d, m, i + 1);
    var k :| k in mi;
    SubsetSize({k}, mi.Keys);
    assert |mi| == |mi.Keys| >= 1;
    assert k in all;
    if s.taken >= 1 {
      var k' :| k' in below;
      assert k' in all && Idx(c, k', d) != Idx(c, k, d);
    }
  }

  method SurveyNode(t: Trie, c: Config, d: nat, ghost m: map<Key, Value>) returns (s: Survey)
    requires ValidConfig(c) && Tree(c, d, t, m)
    ensures Surveyed(c, d, t, m, 256, s)
  {
    s := Survey(0, 0, Some([]));
    BeforeAll(c, d, m);
    var i := 0;
    while i < 256
      invariant i <= 256 && Surveyed(c, d, t, m, i, s)
    {
      assert CellOk(c, d, t.cells[i], Sub(c, m, d, i));
      s := SurveyCell(t, c, d, m, i, s);
      i := i + 1;
    }
  }

  method SurveyCell(t: Trie, c: Config, d: nat, ghost m: map<Key, Value>, i: nat, s: Survey) returns (s': Survey)
    requires ValidConfig(c) && |t.cells| == 256 && i < 256 && Surveyed(c, d, t, m, i, s)
    requires CellOk(c, d, t.cells[i], Sub(c, m, d, i))
    ensures Surveyed(c, d, t, m, i + 1, s')
  {
    match t.cells[i] {
      case Free =>
        SurveyFree(c, d, t, m, i, s);
        s' := s;
      case Pairs(kvs) =>
        var pairs := if s.pairs.Some? then Some(s.pairs.value + kvs) else None;
        BucketIn(c, d, kvs, Sub(c, m, d, i));
        if s.pairs.Some? {
          BeforeNext(c, d, m, i);
          HoldsJoined(s.pairs.value, Before(c, d, m, i), kvs, Sub(c, m, d, i));
        }
        SurveyTaken(c, d, t, m, i, s, pairs);
        s' := Survey(s.taken + 1, i, pairs);
      case Down(_, _, _) =>
        SurveyTaken(c, d, t, m, i, s, None);
        s' := Survey(s.taken + 1, i, None);
    }
  }

  lemma BucketIn(c: Config, d: nat, kvs: seq<KeyValuePair>, m: map<Key, Value>)
    requires ValidConfig(c) && CellOk(c, d, Pairs(kvs), m)
    ensures Distinct(kvs) && m != map[]
  {
    OrderAsymmetric(c.less);
    SortedDistinct(c, kvs);
    assert m == map[] ==> |m| == 0;
  }

  // ---------------------------------------------------------------- merging extensions

  lemma {:induction false} MultipleSum(bitWidth: nat, a: nat, b: nat)
    requires Multiple(bitWidth, a) && Multiple(bitWidth, b)
    ensures Multiple(bitWidth, a + b) && Levels(bitWidth, a + b) == Levels(bitWidth, a) + Levels(bitWidth, b)
    decreases a
  {
    if a > 0 {
      MultipleSum(bitWidth, a - bitWidth, b);
    }
  }

  /** `unsplit_ext`: the extension of the parent, the slot, and the extension of the child. */
  method UnsplitExt(bitWidth: nat, parent: Extension, slot: nat, child: Extension) returns (r: Result<Extension, IpldError>)
    requires WellFormed(parent) && WellFormed(child) && 1 <= bitWidth <= 8 && slot < Pow2(bitWidth)
    ensures r.Ok? && WellFormed(r.value) && ExtBits(r.value) == ExtBits(parent) + Spell(slot, bitWidth) + ExtBits(child)
    ensures r.value.length == parent.length + bitWidth + child.length
  {
    var builder := new ExtensionBuilder();
    builder.Add(bitWidth, slot);
    var idx := builder.Build();
    assert ExtBits(idx) == Spell(slot, bitWidth);
    r := Unsplit(parent, idx, child);
    assert r.value.length == |ExtBits(r.value)|;
  }

  ghost predicate Merges(c: Config, ext: Extension, slot: nat, ext2: Extension, merged: Extension) {
    && WellFormed(ext) && WellFormed(ext2) && WellFormed(merged)
    && merged.length == ext.length + c.bitWidth + ext2.length
    && ExtBits(merged) == ExtBits(ext) + Spell(slot, c.bitWidth) + ExtBits(ext2)
  }

  /** A key that goes through two links one after the other goes through the merged one. */
  lemma MergedSkips(c: Config, k: Key, depth: nat, ext: Extension, d: nat, slot: nat, ext2: Extension, merged: Extension)
    requires 1 <= c.bitWidth <= 8 && Merges(c, ext, slot, ext2, merged)
    requires Consumed(c, d) == Consumed(c, depth + 1) + ext.length && Consumed(c, d + 1) == Consumed(c, d) + c.bitWidth
    requires Skips(c, k, depth + 1, ext) && Idx(c, k, d) == slot && Skips(c, k, d + 1, ext2)
    ensures Skips(c, k, depth + 1, merged)
  {
    var h, q := c.hash(k), Consumed(c, depth + 1);
    SpellDigit(h, q + ext.length, c.bitWidth);
    ThreeParts(h, q, ext.length, c.bitWidth, ext2.length);
  }

  lemma MergedLevels(c: Config, depth: nat, ext: Extension, ext2: Extension, merged: Extension)
    requires 1 <= c.bitWidth <= 8 && Multiple(c.bitWidth, ext.length) && Multiple(c.bitWidth, ext2.length)
    requires Consumed(c, depth + 1) + ext.length < 256 && merged.length == ext.length + c.bitWidth + ext2.length
    requires Consumed(c, LevelBelow(c, depth, ext) + 1) + ext2.length < 256
    ensures var d := LevelBelow(c, depth, ext);
            && Consumed(c, d) == Consumed(c, depth + 1) + ext.length
            && Consumed(c, d + 1) == Consumed(c, d) + c.bitWidth
            && LevelBelow(c, depth, merged) == LevelBelow(c, d, ext2)
    ensures Multiple(c.bitWidth, merged.length) && Consumed(c, depth + 1) + merged.length < 256
  {
    LevelsSkip(c, depth + 1, ext.length);
    ConsumedNext(c, LevelBelow(c, depth, ext));
    assert Multiple(c.bitWidth, c.bitWidth + ext2.length);
    MultipleSum(c.bitWidth, ext.length, c.bitWidth + ext2.length);
  }

  /** The merged link is right. */
  lemma MergedOk(c: Config, depth: nat, ext: Extension, d: nat, slot: nat, ext2: Extension, merged: Extension, sub: Trie,
                 dirty: bool, m: map<Key, Value>)
    requires 1 <= c.bitWidth <= 8 && depth >= c.minDataDepth && Merges(c, ext, slot, ext2, merged)
    requires Multiple(c.bitWidth, ext.length) && Consumed(c, depth + 1) + ext.length < 256
    requires d == LevelBelow(c, depth, ext) && AllSkip(c, m, depth + 1, ext)
    requires CellOk(c, d, Down(ext2, sub, dirty), m) && forall k :: k in m ==> Idx(c, k, d) == slot
    ensures CellOk(c, depth, Down(merged, sub, dirty), m)
  {
    MergedLink(c, depth, ext, d, slot, ext2, merged, m);
  }

  lemma MergedLink(c: Config, depth: nat, ext: Extension, d: nat, slot: nat, ext2: Extension, merged: Extension, m: map<Key, Value>)
    requires 1 <= c.bitWidth <= 8 && depth >= c.minDataDepth && Merges(c, ext, slot, ext2, merged)
    requires Multiple(c.bitWidth, ext.length) && Consumed(c, depth + 1) + ext.length < 256
    requires d == LevelBelow(c, depth, ext) && AllSkip(c, m, depth + 1, ext)
    requires LinkOk(c, d, ext2, m) && forall k :: k in m ==> Idx(c, k, d) == slot
    ensures LinkOk(c, depth, merged, m) && LevelBelow(c, depth, merged) == LevelBelow(c, d, ext2)
  {
    MergedLevels(c, depth, ext, ext2, merged);
    MergedAllSkip(c, depth, ext, d, slot, ext2, merged, m);
  }

  lemma MergedAllSkip(c: Config, depth: nat, ext: Extension, d: nat, slot: nat, ext2: Extension, merged: Extension,
                      m: map<Key, Value>)
    requires 1 <= c.bitWidth <= 8 && Merges(c, ext, slot, ext2, merged)
    requires Consumed(c, d) == Consumed(c, depth + 1) + ext.length && Consumed(c, d + 1) == Consumed(c, d) + c.bitWidth
    requires AllSkip(c, m, depth + 1, ext) && AllSkip(c, m, d + 1, ext2) && forall k :: k in m ==> Idx(c, k, d) == slot
    ensures AllSkip(c, m, depth + 1, merged)
  {
    forall k | k in m ensures Skips(c, k, depth + 1, merged) {
      MergedSkips(c, k, depth, ext, d, slot, ext2, merged);
    }
  }

  // ---------------------------------------------------------------- cleaning

  /** A link below which a key was deleted. */
  ghost predicate Dwindled(c: Config, depth: nat, ext: Extension, sub: Trie, m: map<Key, Value>)
    requires 1 <= c.bitWidth <= 8
  {
    && WellFormed(ext) && Multiple(c.bitWidth, ext.length) && Consumed(c, depth + 1) + ext.length < 256
    && AllSkip(c, m, depth + 1, ext)
    && Tree(c, LevelBelow(c, depth, ext), sub, m)
    && (if depth < c.minDataDepth then ext.length == 0 else |m| >= c.maxArrayWidth)
  }

  lemma RemoveDwindles(c: Config, depth: nat, ext: Extension, sub: Trie, dirty: bool, m: map<Key, Value>, key: Key, sub': Trie)
    requires 1 <= c.bitWidth <= 8 && CellOk(c, depth, Down(ext, sub, dirty), m) && key in m
    requires Tree(c, LevelBelow(c, depth, ext), sub', m - {key})
    ensures Dwindled(c, depth, ext, sub', m - {key})
  {
    MapRemoveSize(m, key);
  }

  lemma AllInSlot(c: Config, d: nat, m: map<Key, Value>, i: nat)
    requires 1 <= c.bitWidth <= 8 && forall k :: k in m ==> Idx(c, k, d) == i
    ensures Sub(c, m, d, i) == m
  {
  }

  /** A node with a link, at data depth, is too big for a bucket. */
  lemma LinkIsBig(c: Config, d: nat, t: Trie, m: map<Key, Value>, j: nat)
    requires 1 <= c.bitWidth <= 8 && Tree(c, d, t, m) && d >= c.minDataDepth && j < 256 && t.cells[j].Down?
    ensures |m| > c.maxArrayWidth
  {
    assert CellOk(c, d, t.cells[j], Sub(c, m, d, j));
    SubSmaller(c, m, d, j);
  }

  /** `Pointer::clean`, and the removal of an empty child: brings a link below which a key was deleted
      back to the right form. */
  method CleanDown(ext: Extension, sub: Trie, c: Config, depth: nat, ghost m: map<Key, Value>)
    returns (r: Result<Cell, IpldError>)
    requires ValidConfig(c) && Dwindled(c, depth, ext, sub, m)
    ensures r.Ok? && CellOk(c, depth, r.value, m)
  {
    var d := LevelBelow(c, depth, ext);
    var s := SurveyNode(sub, c, d, m);
    BeforeAll(c, d, m);
    if s.taken == 0 {
      if depth >= c.minDataDepth {
        return Err(ZeroPointers);
      }
      return Ok(Free);
    }
    if depth < c.minDataDepth {
      return Ok(Down(ext, sub, true));
    }
    if s.taken == 1 {
      r := PullUp(ext, sub.cells[s.last], s.last, c, depth, d, m, sub);
    } else if s.taken <= c.maxArrayWidth && s.pairs.Some? && |s.pairs.value| <= c.maxArrayWidth {
      var sorted := SortByKey(c, s.pairs.value, m);
      HoldsSize(s.pairs.value, m);
      return Ok(Pairs(sorted));
    } else {
      StaysBig(c, d, sub, m, s);
      return Ok(Down(ext, sub, true));
    }
  }

  lemma StaysBig(c: Config, d: nat, t: Trie, m: map<Key, Value>, s: Survey)
    requires 1 <= c.bitWidth <= 8 && Tree(c, d, t, m) && d >= c.minDataDepth && Surveyed(c, d, t, m, 256, s) && s.taken >= 2
    requires s.taken > c.maxArrayWidth || s.pairs.None? || |s.pairs.value| > c.maxArrayWidth
    ensures |m| > c.maxArrayWidth && Branching(c, d, m)
  {
    BeforeAll(c, d, m);
    if s.pairs.Some? {
      HoldsSize(s.pairs.value, m);
    } else {
      var j :| 0 <= j < 256 && t.cells[j].Down?;
      LinkIsBig(c, d, t, m, j);
    }
  }

  /** A node with one pointer: its bucket moves up, or the two links become one. */
  method PullUp(ext: Extension, cell: Cell, slot: nat, c: Config, depth: nat, ghost d: nat, ghost m: map<Key, Value>,
                ghost sub: Trie)
    returns (r: Result<Cell, IpldError>)
    requires ValidConfig(c) && Dwindled(c, depth, ext, sub, m) && depth >= c.minDataDepth && d == LevelBelow(c, depth, ext)
    requires slot < 256 && cell == sub.cells[slot] && !cell.Free? && m != map[] && forall k :: k in m ==> Idx(c, k, d) == slot
    ensures r.Ok? && CellOk(c, depth, r.value, m)
  {
    AllInSlot(c, d, m, slot);
    assert CellOk(c, d, cell, m);
    match cell {
      case Pairs(kvs) =>
        return Ok(cell);
      case Down(ext2, sub2, dirty) =>
        SlotFits(c, d, m, slot);
        var merged := UnsplitExt(c.bitWidth, ext, slot, ext2);
        if merged.Err? {
          return Err(MaxDepth);
        }
        MergedOk(c, depth, ext, d, slot, ext2, merged.value, sub2, dirty, m);
        return Ok(Down(merged.value, sub2, dirty));
    }
  }

  lemma SlotFits(c: Config, d: nat, m: map<Key, Value>, slot: nat)
    requires 1 <= c.bitWidth <= 8 && m != map[] && forall k :: k in m ==> Idx(c, k, d) == slot
    ensures slot < Pow2(c.bitWidth)
  {
    var k :| k in m;
    IdxBound(c, k, d);
  }

  // ---------------------------------------------------------------- deletion

  /** `rm_value`: the tree without the key is the one tree of the map without it. */
  method RmTrie(t: Trie, hashedKey: HashBits, c: Config, depth: nat, key: Key, ghost m: map<Key, Value>)
    returns (r: Result<Option<Value>, IpldError>, t': Trie)
    requires ValidConfig(c) && Tree(c, depth, t, m)
    requires hashedKey.Valid() && hashedKey.b == c.hash(key) && hashedKey.length == 256
    requires hashedKey.consumed == Consumed(c, depth) < 256
    modifies hashedKey
    ensures r == Ok(if key in m then Some(m[key]) else None)
    ensures Tree(c, depth, t', m - {key})
    decreases 256 - Consumed(c, depth), 1
  {
    t' := t;
    ConsumedNext(c, depth);
    var next := hashedKey.Next(c.bitWidth);
    var idx := next.value;
    assert idx == Idx(c, key, depth);
    ghost var mi := Sub(c, m, depth, idx);
    assert CellOk(c, depth, t.cells[idx], mi);
    assert key in m <==> key in mi;
    SubRemove(c, m, depth, key);
    var cell;
    r, cell := RmCell(t.cells[idx], hashedKey, c, depth, key, mi);
    ChangeCell(c, depth, t, m, idx, cell, m - {key});
    t' := Trie(t.cells[idx := cell]);
  }

  /** A delete that reaches a slot. A slot where nothing is deleted stays as it is. */
  method RmCell(cell: Cell, hashedKey: HashBits, c: Config, depth: nat, key: Key, ghost m: map<Key, Value>)
    returns (r: Result<Option<Value>, IpldError>, cell': Cell)
    requires ValidConfig(c) && CellOk(c, depth, cell, m) && Consumed(c, depth) < 256
    requires hashedKey.Valid() && hashedKey.b == c.hash(key) && hashedKey.length == 256
    requires hashedKey.consumed == Consumed(c, depth + 1)
    modifies hashedKey
    ensures r == Ok(if key in m then Some(m[key]) else None)
    ensures CellOk(c, depth, cell', m - {key}) && (key !in m ==> cell' == cell)
    decreases 256 - Consumed(c, depth), 0
  {
    cell' := cell;
    assert key !in m ==> m - {key} == m;
    match cell {
      case Free =>
        return Ok(None), cell;
      case Pairs(kvs) =>
        r, cell' := RmPair(kvs, c, depth, key, m);
      case Down(ext, sub, dirty) =>
        var full := MatchExtension(c, hashedKey, depth, key, ext);
        if !full.0 {
          return Ok(None), cell;
        }
        var sub';
        r, sub' := RmTrie(sub, hashedKey, c, LevelBelow(c, depth, ext), key, m);
        if r.value.Some? {
          RemoveDwindles(c, depth, ext, sub, dirty, m, key, sub');
          var cleaned := CleanDown(ext, sub', c, depth, m - {key});
          cell' := cleaned.value;
        }
    }
  }

  /** A delete from a bucket; with its last pair the slot becomes free. */
  method RmPair(kvs: seq<KeyValuePair>, c: Config, depth: nat, key: Key, ghost m: map<Key, Value>)
    returns (r: Result<Option<Value>, IpldError>, cell: Cell)
    requires ValidConfig(c) && CellOk(c, depth, Pairs(kvs), m)
    ensures r == Ok(if key in m then Some(m[key]) else None)
    ensures CellOk(c, depth, cell, m - {key}) && (key !in m ==> cell == Pairs(kvs))
  {
    cell := Pairs(kvs);
    BucketIn(c, depth, kvs, m);
    HoldsSize(kvs, m);
    var pos := PositionOf(kvs, key);
    if pos.None? {
      assert key !in m;
      assert m - {key} == m;
      return Ok(None), cell;
    }
    var i := pos.value;
    MapRemoveSize(m, key);
    if |kvs| == 1 {
      NoneLeft(m - {key});
      return Ok(Some(kvs[i].1)), Free;
    }
    HoldsRemoved(c, kvs, m, i);
    return Ok(Some(kvs[i].1)), Pairs(kvs[..i] + kvs[i + 1..]);
  }

  lemma NoneLeft(m: map<Key, Value>)
    requires |m| == 0
    ensures m == map[]
  {
    assert m.Keys == {} by {
      assert |m| == |m.Keys|;
    }
  }
}
