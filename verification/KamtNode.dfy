/** The KAMT (`ipld/kamt/src/node.rs`): a HAMT whose links skip the levels that all keys
    below them share. Keys are not hashed for balance; `hash` is the injective `as_hashed_key`. A node
    is its 256 slots; how the occupied ones lie behind a bitfield is as in the HAMT. */
module KamtNode {
  import opened Common
  import opened BitStrings
  import opened HamtForm
  import opened HamtNode
  import opened KamtExt

  datatype Trie = Trie(cells: seq<Cell>)

  datatype Cell =
    | Free
    | Pairs(kvs: seq<KeyValuePair>)
    | Down(ext: Extension, sub: Trie, dirty: bool)

  const EMPTY_TRIE: Trie := Trie(seq(256, _ => Free))

  ghost predicate Injective(c: Config) {
    forall a, b :: c.hash(a) == c.hash(b) ==> a == b
  }

  /** Data can be stored at all: the minimum data depth is within reach. */
  ghost predicate FitsDepth(c: Config) {
    Consumed(c, c.minDataDepth) < 256
  }

  /** The key has the bits of the extension from level `d` on. */
  ghost predicate Skips(c: Config, k: Key, d: nat, ext: Extension) {
    && Consumed(c, d) + ext.length <= 256 && ext.length <= 8 * |ext.path|
    && BitsOf(c.hash(k), Consumed(c, d), ext.length) == ExtBits(ext)
  }

  ghost predicate AllSkip(c: Config, m: map<Key, Value>, d: nat, ext: Extension) {
    forall k :: k in m ==> Skips(c, k, d, ext)
  }

  /** Not all keys go to the same slot. */
  ghost predicate Branching(c: Config, d: nat, m: map<Key, Value>)
    requires 1 <= c.bitWidth <= 8
  {
    exists k, k' :: k in m && k' in m && Idx(c, k, d) != Idx(c, k', d)
  }

  /** The level of the node that a link with this extension leads to. */
  function LevelBelow(c: Config, depth: nat, ext: Extension): nat {
    depth + 1 + Levels(c.bitWidth, ext.length)
  }

  /** `t`, at `depth`, holds the map `m`. */
  ghost predicate Tree(c: Config, depth: nat, t: Trie, m: map<Key, Value>)
    requires 1 <= c.bitWidth <= 8
    decreases t, 1
  {
    && |t.cells| == 256
    && (m != map[] ==> Consumed(c, depth) < 256)
    && forall i :: 0 <= i < 256 ==> CellOk(c, depth, t.cells[i], Sub(c, m, depth, i))
  }

  /** Every key below a link has the link's slot and the bits of its extension. At data depth a link is
      there because a bucket would be too big, and it skips as many levels as it can. */
  ghost predicate CellOk(c: Config, depth: nat, cell: Cell, m: map<Key, Value>)
    requires 1 <= c.bitWidth <= 8
    decreases cell
  {
    match cell
    case Free => m == map[]
    case Pairs(kvs) => depth >= c.minDataDepth && 1 <= |m| <= c.maxArrayWidth && Sorted(c, kvs) && Holds(kvs, m)
    case Down(ext, sub, _) =>
      && m != map[]
      && LinkOk(c, depth, ext, m)
      && Tree(c, LevelBelow(c, depth, ext), sub, m)
  }

  ghost predicate LinkOk(c: Config, depth: nat, ext: Extension, m: map<Key, Value>)
    requires 1 <= c.bitWidth <= 8
  {
    && WellFormed(ext) && Multiple(c.bitWidth, ext.length) && Consumed(c, depth + 1) + ext.length < 256
    && AllSkip(c, m, depth + 1, ext)
    && if depth < c.minDataDepth then ext.length == 0
       else |m| > c.maxArrayWidth && Branching(c, LevelBelow(c, depth, ext), m)
  }

  // ---------------------------------------------------------------- levels and bits

  lemma {:induction false} LevelsSkip(c: Config, d: nat, n: nat)
    requires 1 <= c.bitWidth && Multiple(c.bitWidth, n) && Consumed(c, d) + n < 256
    ensures Consumed(c, d + Levels(c.bitWidth, n)) == Consumed(c, d) + n
    decreases n
  {
    if n > 0 {
      ConsumedNext(c, d);
      LevelsSkip(c, d + 1, n - c.bitWidth);
      assert d + 1 + Levels(c.bitWidth, n - c.bitWidth) == d + Levels(c.bitWidth, n);
    }
  }

  lemma AgreeBits(a: seq<Byte>, b: seq<Byte>, p: nat, n: nat)
    requires Agree(a, b, p) && p + n <= 8 * |a| && p + n <= 8 * |b| && BitsOf(a, p, n) == BitsOf(b, p, n)
    ensures Agree(a, b, p + n)
  {
    SameDigitSameBits(a, p, b, p, n);
    AgreeExtends(a, b, p, n);
  }

  /** Keys that share the extension stay together below it. */
  lemma TogetherSkip(c: Config, depth: nat, ext: Extension, m: map<Key, Value>)
    requires 1 <= c.bitWidth <= 8 && Together(c, depth + 1, m) && AllSkip(c, m, depth + 1, ext)
    requires Multiple(c.bitWidth, ext.length) && Consumed(c, depth + 1) + ext.length < 256
    ensures Together(c, LevelBelow(c, depth, ext), m)
    ensures Consumed(c, LevelBelow(c, depth, ext)) == Consumed(c, depth + 1) + ext.length
  {
    LevelsSkip(c, depth + 1, ext.length);
    forall k, k' | k in m && k' in m ensures Agree(c.hash(k), c.hash(k'), Consumed(c, depth + 1) + ext.length) {
      AgreeBits(c.hash(k), c.hash(k'), Consumed(c, depth + 1), ext.length);
    }
  }

  /** A tree stays right when one slot changes as the map does. */
  lemma ChangeCell(c: Config, depth: nat, t: Trie, m: map<Key, Value>, idx: nat, cell: Cell, m': map<Key, Value>)
    requires 1 <= c.bitWidth <= 8 && Tree(c, depth, t, m) && idx < 256 && OnlySlot(c, depth, m, m', idx)
    requires Consumed(c, depth) < 256 && CellOk(c, depth, cell, Sub(c, m', depth, idx))
    ensures Tree(c, depth, Trie(t.cells[idx := cell]), m')
  {
    var t' := Trie(t.cells[idx := cell]);
    forall i | 0 <= i < 256 ensures CellOk(c, depth, t'.cells[i], Sub(c, m', depth, i)) {
      if i != idx {
        assert CellOk(c, depth, t.cells[i], Sub(c, m, depth, i));
      }
    }
  }

  lemma EmptyTree(c: Config, depth: nat)
    requires 1 <= c.bitWidth <= 8
    ensures Tree(c, depth, EMPTY_TRIE, map[])
  {
    forall i | 0 <= i < 256 ensures CellOk(c, depth, EMPTY_TRIE.cells[i], Sub(c, map[], depth, i)) {
    }
  }

  // ---------------------------------------------------------------- lookup

  method FindInTrie(t: Trie, hashedKey: HashBits, c: Config, depth: nat, key: Key, ghost m: map<Key, Value>)
    returns (r: Result<Option<Value>, IpldError>)
    requires ValidConfig(c) && Tree(c, depth, t, m)
    requires hashedKey.Valid() && hashedKey.b == c.hash(key) && hashedKey.length == 256
    requires hashedKey.consumed == Consumed(c, depth) < 256
    modifies hashedKey
    ensures r == Ok(if key in m then Some(m[key]) else None)
    decreases 256 - Consumed(c, depth)
  {
    ConsumedNext(c, depth);
    var next := hashedKey.Next(c.bitWidth);
    var idx := next.value;
    assert idx == Idx(c, key, depth);
    ghost var mi := Sub(c, m, depth, idx);
    assert CellOk(c, depth, t.cells[idx], mi);
    assert key in m <==> key in mi;
    match t.cells[idx] {
      case Free =>
        return Ok(None);
      case Pairs(kvs) =>
        var i := PositionOf(kvs, key);
        return Ok(if i.Some? then Some(kvs[i.value].1) else None);
      case Down(ext, sub, _) =>
        var full := MatchExtension(c, hashedKey, depth, key, ext);
        if full.0 {
          r := FindInTrie(sub, hashedKey, c, LevelBelow(c, depth, ext), key, mi);
        } else {
          return Ok(None);
        }
    }
  }

  /** `match_extension`: whether the key has all bits of the extension, and how many it has. */
  method MatchExtension(c: Config, hashedKey: HashBits, depth: nat, key: Key, ext: Extension) returns (r: (bool, nat))
    requires 1 <= c.bitWidth <= 8 && WellFormed(ext) && Multiple(c.bitWidth, ext.length)
    requires Consumed(c, depth + 1) + ext.length < 256
    requires hashedKey.Valid() && hashedKey.b == c.hash(key) && hashedKey.length == 256
    requires hashedKey.consumed == Consumed(c, depth + 1)
    modifies hashedKey
    ensures hashedKey.Valid() && hashedKey.consumed == Consumed(c, depth + 1) + r.1
    ensures r.0 <==> Skips(c, key, depth + 1, ext)
    ensures r.0 ==> r.1 == ext.length
                    && hashedKey.consumed == Consumed(c, LevelBelow(c, depth, ext)) > Consumed(c, depth)
    ensures !r.0 ==> r.1 + c.bitWidth <= ext.length && Multiple(c.bitWidth, r.1)
                     && BitsOf(c.hash(key), Consumed(c, depth + 1), r.1) == BitsOf(ext.path, 0, r.1)
                     && Digit(c.hash(key), hashedKey.consumed, c.bitWidth) != Digit(ext.path, r.1, c.bitWidth)
  {
    ConsumedNext(c, depth);
    LevelsSkip(c, depth + 1, ext.length);
    if ext.length == 0 {
      assert BitsOf(c.hash(key), Consumed(c, depth + 1), 0) == ExtBits(ext);
      return (true, 0);
    }
    var matched := LongestMatch(ext, hashedKey, c.bitWidth);
    if matched.value < ext.length {
      NotSkipped(c, key, depth + 1, ext, matched.value);
    }
    return (matched.value == ext.length, matched.value);
  }

  /** A key that parts from the extension does not have its bits. */
  lemma NotSkipped(c: Config, k: Key, d: nat, ext: Extension, matched: nat)
    requires WellFormed(ext) && Consumed(c, d) + ext.length <= 256 && matched + c.bitWidth <= ext.length
    requires Digit(c.hash(k), Consumed(c, d) + matched, c.bitWidth) != Digit(ext.path, matched, c.bitWidth)
    ensures !Skips(c, k, d, ext)
  {
    if Skips(c, k, d, ext) {
      PartOfBits(c.hash(k), Consumed(c, d), ext.path, 0, ext.length, matched, c.bitWidth);
    }
  }

  /** Equal bits are equal in every part. */
  lemma PartOfBits(a: seq<Byte>, p: nat, b: seq<Byte>, q: nat, n: nat, k: nat, l: nat)
    requires p + n <= 8 * |a| && q + n <= 8 * |b| && k + l <= n && BitsOf(a, p, n) == BitsOf(b, q, n)
    ensures BitsOf(a, p + k, l) == BitsOf(b, q + k, l) && Digit(a, p + k, l) == Digit(b, q + k, l)
  {
    assert BitsOf(a, p + k, l) == BitsOf(a, p, n)[k..k + l];
    assert BitsOf(b, q + k, l) == BitsOf(b, q, n)[k..k + l];
    SameDigitSameBits(a, p + k, b, q + k, l);
  }

  // ---------------------------------------------------------------- insertion

  lemma SinglePair(c: Config, depth: nat, key: Key, value: Value)
    requires ValidConfig(c) && depth >= c.minDataDepth
    ensures CellOk(c, depth, Pairs([(key, value)]), map[key := value])
  {
    var m := map[key := value];
    assert m.Keys == {key};
    assert |m| == |m.Keys|;
    assert [(key, value)][0] == (key, m[key]);
  }

  /** A set into a free slot. */
  method InsertFree(hashedKey: HashBits, c: Config, depth: nat, key: Key, value: Value, overwrite: bool)
    returns (r: Result<(), IpldError>, cell: Cell)
    requires ValidConfig(c) && Injective(c) && Consumed(c, depth) < 256
    requires hashedKey.Valid() && hashedKey.b == c.hash(key) && hashedKey.length == 256
    requires hashedKey.consumed == Consumed(c, depth + 1)
    modifies hashedKey
    ensures FitsDepth(c) ==> r.Ok?
    ensures !FitsDepth(c) && depth < c.minDataDepth ==> r.Err?
    ensures r.Ok? ==> CellOk(c, depth, cell, map[key := value])
    decreases 256 - Consumed(c, depth), 3
  {
    cell := Pairs([(key, value)]);
    if c.minDataDepth <= depth {
      SinglePair(c, depth, key, value);
      return Ok(()), cell;
    }
    // Too high for data: a link, without an extension, to a node with the pair.
    ConsumedNext(c, depth);
    EmptyTree(c, depth + 1);
    SingleTogether(c, depth + 1, key, value);
    ConsumedMonotone(c, depth + 1, c.minDataDepth);
    var done, sub := ModifyTrie(EMPTY_TRIE, hashedKey, c, depth + 1, key, value, overwrite, map[]);
    if done.Err? {
      return Err(done.error), cell;
    }
    cell := Down(NO_EXTENSION, sub, true);
    EmptyLink(c, depth, map[key := value]);
    assert key in map[key := value];
    return Ok(()), cell;
  }

  lemma SingleTogether(c: Config, d: nat, key: Key, value: Value)
    ensures map[][key := value] == map[key := value] && Together(c, d, map[key := value])
  {
  }

  lemma EmptyLink(c: Config, depth: nat, m: map<Key, Value>)
    requires 1 <= c.bitWidth <= 8 && depth < c.minDataDepth && FitsDepth(c)
    ensures LinkOk(c, depth, NO_EXTENSION, m) && LevelBelow(c, depth, NO_EXTENSION) == depth + 1
  {
    ConsumedMonotone(c, depth + 1, c.minDataDepth);
    forall k | k in m ensures Skips(c, k, depth + 1, NO_EXTENSION) {
      assert BitsOf(c.hash(k), Consumed(c, depth + 1), 0) == [] == ExtBits(NO_EXTENSION);
    }
  }

  method ModifyTrie(t: Trie, hashedKey: HashBits, c: Config, depth: nat, key: Key, value: Value, overwrite: bool,
                     ghost m: map<Key, Value>)
    returns (r: Result<(Option<Value>, bool), IpldError>, t': Trie)
    requires ValidConfig(c) && Injective(c) && Tree(c, depth, t, m) && Together(c, depth, m[key := value])
    requires hashedKey.Valid() && hashedKey.b == c.hash(key) && hashedKey.length == 256
    requires hashedKey.consumed == Consumed(c, depth)
    modifies hashedKey
    ensures FitsDepth(c) && Consumed(c, depth) < 256 ==> r.Ok?
    ensures !FitsDepth(c) && m == map[] && depth <= c.minDataDepth ==> r.Err?
    ensures r.Ok? ==> r.value == Answer(m, key, value, overwrite) && Tree(c, depth, t', After(m, key, value, overwrite))
    ensures r.Ok? ==> Consumed(c, depth) < 256
    decreases 256 - Consumed(c, depth), 4
  {
    t' := t;
    var next := hashedKey.Next(c.bitWidth);
    if next.Err? {
      return Err(next.error), t';
    }
    ConsumedNext(c, depth);
    var idx := next.value;
    assert idx == Idx(c, key, depth);
    ghost var mi := Sub(c, m, depth, idx);
    assert CellOk(c, depth, t.cells[idx], mi);
    SubAfter(c, m, depth, key, value, overwrite);
    SubAnswer(c, m, depth, key, value, overwrite);
    var cell;
    if t.cells[idx].Free? {
      assert mi[key := value] == map[key := value];
      var inserted;
      inserted, cell := InsertFree(hashedKey, c, depth, key, value, overwrite);
      r := if inserted.Ok? then Ok((None, true)) else Err(inserted.error);
    } else {
      TogetherSlot(c, depth, m, key, value);
      r, cell := ModifyCell(t.cells[idx], hashedKey, c, depth, key, value, overwrite, mi);
    }
    if r.Ok? {
      ChangeCell(c, depth, t, m, idx, cell, After(m, key, value, overwrite));
      t' := Trie(t.cells[idx := cell]);
    }
  }

  lemma TogetherSlot(c: Config, depth: nat, m: map<Key, Value>, key: Key, value: Value)
    requires 1 <= c.bitWidth <= 8 && Together(c, depth, m[key := value])
    ensures Together(c, depth + 1, Sub(c, m, depth, Idx(c, key, depth))[key := value])
  {
    SubUpdate(c, m, depth, key, value);
    TogetherBelow(c, depth, m[key := value], Idx(c, key, depth));
  }

  /** A set into an occupied slot. */
  method ModifyCell(cell: Cell, hashedKey: HashBits, c: Config, depth: nat, key: Key, value: Value, overwrite: bool,
                    ghost m: map<Key, Value>)
    returns (r: Result<(Option<Value>, bool), IpldError>, cell': Cell)
    requires ValidConfig(c) && Injective(c) && Consumed(c, depth) < 256
    requires !cell.Free? && CellOk(c, depth, cell, m) && Together(c, depth + 1, m[key := value])
    requires hashedKey.Valid() && hashedKey.b == c.hash(key) && hashedKey.length == 256
    requires hashedKey.consumed == Consumed(c, depth + 1)
    modifies hashedKey
    ensures FitsDepth(c) ==> r.Ok?
    ensures r.Ok? ==> r.value == Answer(m, key, value, overwrite) && CellOk(c, depth, cell', After(m, key, value, overwrite))
    decreases 256 - Consumed(c, depth), 3
  {
    match cell {
      case Pairs(kvs) =>
        r, cell' := ModifyPairs(kvs, hashedKey, c, depth, key, value, overwrite, m);
      case Down(ext, sub, dirty) =>
        var full := MatchExtension(c, hashedKey, depth, key, ext);
        if full.0 {
          r, cell' := ModifyBelow(ext, sub, dirty, hashedKey, c, depth, key, value, overwrite, m);
        } else {
          r, cell' := SplitExtension(ext, sub, dirty, full.1, hashedKey, c, depth, key, value, m);
        }
    }
  }

  lemma AllSkipAfter(c: Config, m: map<Key, Value>, d: nat, ext: Extension, key: Key, value: Value)
    requires AllSkip(c, m, d, ext) && Skips(c, key, d, ext)
    ensures AllSkip(c, m[key := value], d, ext)
  {
  }

  /** A link stays right as more keys go through it. */
  lemma LinkAfter(c: Config, depth: nat, ext: Extension, m: map<Key, Value>, key: Key, value: Value, overwrite: bool)
    requires 1 <= c.bitWidth <= 8 && m != map[] && LinkOk(c, depth, ext, m) && Skips(c, key, depth + 1, ext)
    ensures After(m, key, value, overwrite) != map[] && LinkOk(c, depth, ext, After(m, key, value, overwrite))
  {
    AfterSize(m, key, value, overwrite);
    if depth >= c.minDataDepth {
      var d := LevelBelow(c, depth, ext);
      var k, k' :| k in m && k' in m && Idx(c, k, d) != Idx(c, k', d);
      assert k in After(m, key, value, overwrite) && k' in After(m, key, value, overwrite);
    }
  }

  /** The key goes through the link. */
  method ModifyBelow(ext: Extension, sub: Trie, dirty: bool, hashedKey: HashBits, c: Config, depth: nat, key: Key, value: Value,
                     overwrite: bool, ghost m: map<Key, Value>)
    returns (r: Result<(Option<Value>, bool), IpldError>, cell: Cell)
    requires ValidConfig(c) && Injective(c) && Consumed(c, depth) < 256
    requires CellOk(c, depth, Down(ext, sub, dirty), m) && Together(c, depth + 1, m[key := value])
    requires Skips(c, key, depth + 1, ext)
    requires hashedKey.Valid() && hashedKey.b == c.hash(key) && hashedKey.length == 256
    requires hashedKey.consumed == Consumed(c, LevelBelow(c, depth, ext)) > Consumed(c, depth)
    modifies hashedKey
    ensures FitsDepth(c) ==> r.Ok?
    ensures r.Ok? ==> r.value == Answer(m, key, value, overwrite) && CellOk(c, depth, cell, After(m, key, value, overwrite))
    decreases 256 - Consumed(c, depth), 1
  {
    AllSkipAfter(c, m, depth + 1, ext, key, value);
    TogetherSkip(c, depth, ext, m[key := value]);
    LinkAfter(c, depth, ext, m, key, value, overwrite);
    var sub';
    r, sub' := ModifyTrie(sub, hashedKey, c, LevelBelow(c, depth, ext), key, value, overwrite, m);
    cell := Down(ext, sub', dirty || (r.Ok? && r.value.1));
  }

  // ---------------------------------------------------------------- splitting a link

  /** What there is where a key parts from an extension: the extension's bits before and after, and the
      two slots. */
  ghost predicate PartsAt(c: Config, depth: nat, ext: Extension, matched: nat, key: Key, head: Extension, i: nat, tail: Extension,
                          j: nat)
    requires 1 <= c.bitWidth <= 8
  {
    && WellFormed(ext) && WellFormed(head) && WellFormed(tail)
    && Multiple(c.bitWidth, ext.length) && Multiple(c.bitWidth, matched) && matched + c.bitWidth <= ext.length
    && Consumed(c, depth + 1) + ext.length < 256
    && head.length == matched && ExtBits(head) == BitsOf(ext.path, 0, matched)
    && tail.length == ext.length - matched - c.bitWidth
    && ExtBits(tail) == BitsOf(ext.path, matched + c.bitWidth, tail.length)
    && BitsOf(c.hash(key), Consumed(c, depth + 1), matched) == ExtBits(head)
    && i == Digit(ext.path, matched, c.bitWidth)
    && j == Digit(c.hash(key), Consumed(c, depth + 1) + matched, c.bitWidth) && i != j
  }

  lemma PartLevels(c: Config, depth: nat, ext: Extension, matched: nat, head: Extension, tail: Extension)
    requires 1 <= c.bitWidth <= 8 && Multiple(c.bitWidth, ext.length) && Multiple(c.bitWidth, matched)
    requires matched + c.bitWidth <= ext.length && Consumed(c, depth + 1) + ext.length < 256
    requires head.length == matched && tail.length == ext.length - matched - c.bitWidth
    ensures var d := LevelBelow(c, depth, head);
            && Consumed(c, d) == Consumed(c, depth + 1) + matched
            && Consumed(c, d + 1) == Consumed(c, d) + c.bitWidth
            && LevelBelow(c, d, tail) == LevelBelow(c, depth, ext)
            && Multiple(c.bitWidth, tail.length)
  {
    LevelsSkip(c, depth + 1, matched);
    MultipleLess(c.bitWidth, matched, ext.length);
    ConsumedNext(c, LevelBelow(c, depth, head));
  }

  /** A key with the bits of an extension has the bits of each part of it. */
  lemma PartSkips(c: Config, k: Key, d: nat, ext: Extension, at: nat, d': nat, part: Extension)
    requires Skips(c, k, d, ext) && WellFormed(part) && at + part.length <= ext.length
    requires Consumed(c, d') == Consumed(c, d) + at && ExtBits(part) == BitsOf(ext.path, at, part.length)
    ensures Skips(c, k, d', part)
  {
    PartOfBits(c.hash(k), Consumed(c, d), ext.path, 0, ext.length, at, part.length);
  }

  lemma PartIdx(c: Config, k: Key, d: nat, at: nat, d': nat, slot: nat)
    requires 1 <= c.bitWidth <= 8 && Consumed(c, d') == Consumed(c, d) + at
    requires Consumed(c, d' + 1) == Consumed(c, d') + c.bitWidth
    requires Digit(c.hash(k), Consumed(c, d) + at, c.bitWidth) == slot
    ensures Idx(c, k, d') == slot
  {
  }

  lemma ExtIdx(c: Config, k: Key, d: nat, ext: Extension, at: nat, d': nat)
    requires 1 <= c.bitWidth <= 8 && Consumed(c, d') == Consumed(c, d) + at
    requires Consumed(c, d' + 1) == Consumed(c, d') + c.bitWidth
    requires Skips(c, k, d, ext) && at + c.bitWidth <= ext.length
    ensures Idx(c, k, d') == Digit(ext.path, at, c.bitWidth)
  {
    PartOfBits(c.hash(k), Consumed(c, d), ext.path, 0, ext.length, at, c.bitWidth);
    assert Idx(c, k, d') == Digit(c.hash(k), Consumed(c, d) + at, c.bitWidth);
  }

  /** Where the keys go at the level where the new key parts from the extension. */
  lemma PartSlots(c: Config, depth: nat, ext: Extension, matched: nat, key: Key, head: Extension, i: nat, tail: Extension,
                  j: nat, k: Key)
    requires 1 <= c.bitWidth <= 8 && PartsAt(c, depth, ext, matched, key, head, i, tail, j)
    requires Skips(c, k, depth + 1, ext)
    ensures var d := LevelBelow(c, depth, head); Idx(c, k, d) == i && Idx(c, key, d) == j
  {
    PartLevels(c, depth, ext, matched, head, tail);
    var d := LevelBelow(c, depth, head);
    ExtIdx(c, k, depth + 1, ext, matched, d);
    PartIdx(c, key, depth + 1, matched, d, j);
  }

  /** The link to the old node from the node in between. */
  lemma TailOk(c: Config, depth: nat, ext: Extension, matched: nat, key: Key, head: Extension, i: nat, tail: Extension, j: nat,
               sub: Trie, dirty: bool, m: map<Key, Value>)
    requires 1 <= c.bitWidth <= 8 && PartsAt(c, depth, ext, matched, key, head, i, tail, j)
    requires CellOk(c, depth, Down(ext, sub, dirty), m)
    ensures CellOk(c, LevelBelow(c, depth, head), Down(tail, sub, dirty), m)
  {
    PartLevels(c, depth, ext, matched, head, tail);
    var d := LevelBelow(c, depth, head);
    forall k | k in m ensures Skips(c, k, d + 1, tail) {
      PartSkips(c, k, depth + 1, ext, matched + c.bitWidth, d + 1, tail);
    }
  }

  /** The link to the node in between. */
  lemma HeadOk(c: Config, depth: nat, ext: Extension, matched: nat, key: Key, head: Extension, i: nat, tail: Extension, j: nat,
               m: map<Key, Value>, value: Value)
    requires 1 <= c.bitWidth <= 8 && PartsAt(c, depth, ext, matched, key, head, i, tail, j)
    requires m != map[] && LinkOk(c, depth, ext, m) && key !in m
    ensures LinkOk(c, depth, head, m[key := value])
  {
    var m', d := m[key := value], LevelBelow(c, depth, head);
    forall k | k in m ensures Skips(c, k, depth + 1, head) && Idx(c, k, d) == i && Idx(c, key, d) == j {
      PartSlots(c, depth, ext, matched, key, head, i, tail, j, k);
      PartSkips(c, k, depth + 1, ext, 0, depth + 1, head);
    }
    var k :| k in m;
    assert k in m' && key in m' && Idx(c, k, d) != Idx(c, key, d);
    MapInsertSize(m, key, value);
  }

  lemma MidwayTree(c: Config, d: nat, m: map<Key, Value>, key: Key, value: Value, i: nat, down: Cell, j: nat)
    requires ValidConfig(c) && d >= c.minDataDepth && Consumed(c, d) < 256 && i != j && i < 256 && key !in m
    requires CellOk(c, d, down, m) && Idx(c, key, d) == j && forall k :: k in m ==> Idx(c, k, d) == i
    ensures j < 256
    ensures Tree(c, d, Trie(EMPTY_TRIE.cells[i := down][j := Pairs([(key, value)])]), m[key := value])
  {
    var m' := m[key := value];
    var t := Trie(EMPTY_TRIE.cells[i := down][j := Pairs([(key, value)])]);
    SinglePair(c, d, key, value);
    assert Sub(c, m', d, i) == m;
    assert Sub(c, m', d, j) == map[key := value];
    forall x | 0 <= x < 256 ensures CellOk(c, d, t.cells[x], Sub(c, m', d, x)) {
      if x != i && x != j {
        assert Sub(c, m', d, x) == map[];
      }
    }
  }

  /** `split_extension`: a key parts from the extension after `matched` bits. A new node goes where they
      part, with a link to the old node and the new pair. */
  method SplitExtension(ext: Extension, sub: Trie, dirty: bool, matched: nat, hashedKey: HashBits, c: Config, depth: nat,
                        key: Key, value: Value, ghost m: map<Key, Value>)
    returns (r: Result<(Option<Value>, bool), IpldError>, cell: Cell)
    requires ValidConfig(c) && CellOk(c, depth, Down(ext, sub, dirty), m)
    requires hashedKey.Valid() && hashedKey.b == c.hash(key) && hashedKey.length == 256
    requires hashedKey.consumed == Consumed(c, depth + 1) + matched
    requires matched + c.bitWidth <= ext.length && Multiple(c.bitWidth, matched) && !Skips(c, key, depth + 1, ext)
    requires BitsOf(c.hash(key), Consumed(c, depth + 1), matched) == BitsOf(ext.path, 0, matched)
    requires Digit(c.hash(key), hashedKey.consumed, c.bitWidth) != Digit(ext.path, matched, c.bitWidth)
    modifies hashedKey
    ensures r == Ok((None, true)) && key !in m && CellOk(c, depth, cell, m[key := value])
  {
    var head, slot, tail, next := PartWays(ext, matched, hashedKey, c, depth, key);
    SplitOk(c, depth, ext, matched, key, value, head, slot, tail, next, sub, dirty, m);
    var midway := EMPTY_TRIE.cells[slot := Down(tail, sub, dirty)][next := Pairs([(key, value)])];
    return Ok((None, true)), Down(head, Trie(midway), true);
  }

  /** The parts of the extension, and the slot that the key takes where they part. */
  method PartWays(ext: Extension, matched: nat, hashedKey: HashBits, c: Config, depth: nat, key: Key)
    returns (head: Extension, slot: nat, tail: Extension, next: nat)
    requires 1 <= c.bitWidth <= 8 && WellFormed(ext) && Multiple(c.bitWidth, ext.length)
    requires Consumed(c, depth + 1) + ext.length < 256
    requires hashedKey.Valid() && hashedKey.b == c.hash(key) && hashedKey.length == 256
    requires hashedKey.consumed == Consumed(c, depth + 1) + matched
    requires matched + c.bitWidth <= ext.length && Multiple(c.bitWidth, matched)
    requires BitsOf(c.hash(key), Consumed(c, depth + 1), matched) == BitsOf(ext.path, 0, matched)
    requires Digit(c.hash(key), hashedKey.consumed, c.bitWidth) != Digit(ext.path, matched, c.bitWidth)
    modifies hashedKey
    ensures PartsAt(c, depth, ext, matched, key, head, slot, tail, next) && slot < 256
  {
    head, slot, tail := SplitPartial(ext, matched, c.bitWidth);
    var read := hashedKey.Next(c.bitWidth);
    next := read.value;
  }

  /** `PartialMatch::split`: the extension before the match ends, the slot after it, and the rest. */
  method SplitPartial(ext: Extension, matched: nat, bitWidth: nat) returns (head: Extension, slot: nat, tail: Extension)
    requires WellFormed(ext) && 1 <= bitWidth <= 8 && matched + bitWidth <= ext.length
    ensures WellFormed(head) && head.length == matched && ExtBits(head) == BitsOf(ext.path, 0, matched)
    ensures slot == Digit(ext.path, matched, bitWidth) && slot < 256
    ensures WellFormed(tail) && tail.length == ext.length - matched - bitWidth
    ensures ExtBits(tail) == BitsOf(ext.path, matched + bitWidth, tail.length)
  {
    var parts := Split(ext, matched, bitWidth);
    var idx := parts.value.1;
    var bits := new HashBits(idx.path, idx.length, 0);
    var next := bits.Next(bitWidth);
    SameDigitSameBits(idx.path, 0, ext.path, matched, bitWidth);
    Pow2Monotone(bitWidth, 8);
    Pow2Table();
    return parts.value.0, next.value, parts.value.2;
  }

  lemma SplitOk(c: Config, depth: nat, ext: Extension, matched: nat, key: Key, value: Value, head: Extension, i: nat,
                tail: Extension, j: nat, sub: Trie, dirty: bool, m: map<Key, Value>)
    requires ValidConfig(c) && PartsAt(c, depth, ext, matched, key, head, i, tail, j) && i < 256
    requires CellOk(c, depth, Down(ext, sub, dirty), m) && !Skips(c, key, depth + 1, ext)
    ensures key !in m && j < 256
    ensures CellOk(c, depth, Down(head, Trie(EMPTY_TRIE.cells[i := Down(tail, sub, dirty)][j := Pairs([(key, value)])]), true),
                   m[key := value])
  {
    var d := LevelBelow(c, depth, head);
    PartLevels(c, depth, ext, matched, head, tail);
    TailOk(c, depth, ext, matched, key, head, i, tail, j, sub, dirty, m);
    HeadOk(c, depth, ext, matched, key, head, i, tail, j, m, value);
    forall k | k in m ensures Idx(c, k, d) == i {
      PartSlots(c, depth, ext, matched, key, head, i, tail, j, k);
    }
    var k :| k in m;
    PartSlots(c, depth, ext, matched, key, head, i, tail, j, k);
    MidwayTree(c, d, m, key, value, i, Down(tail, sub, dirty), j);
    assert key in m[key := value];
  }

  // ---------------------------------------------------------------- buckets

  /** A set that reaches a bucket. */
  method ModifyPairs(kvs: seq<KeyValuePair>, hashedKey: HashBits, c: Config, depth: nat, key: Key, value: Value,
                     overwrite: bool, ghost m: map<Key, Value>)
    returns (r: Result<(Option<Value>, bool), IpldError>, cell: Cell)
    requires ValidConfig(c) && Injective(c) && Consumed(c, depth) < 256
    requires CellOk(c, depth, Pairs(kvs), m) && Together(c, depth + 1, m[key := value])
    requires hashedKey.Valid() && hashedKey.b == c.hash(key) && hashedKey.length == 256
    requires hashedKey.consumed == Consumed(c, depth + 1)
    modifies hashedKey
    ensures r == Ok(Answer(m, key, value, overwrite)) && CellOk(c, depth, cell, After(m, key, value, overwrite))
    decreases 256 - Consumed(c, depth), 2
  {
    cell := Pairs(kvs);
    OrderAsymmetric(c.less);
    SortedDistinct(c, kvs);
    var pos := PositionOf(kvs, key);
    if pos.Some? {
      var i := pos.value;
      if overwrite {
        HoldsReplaced(c, kvs, m, i, value);
        return Ok((Some(kvs[i].1), kvs[i].1 != value)), Pairs(kvs[i := (kvs[i].0, value)]);
      } else {
        return Ok((None, false)), cell;
      }
    }
    assert key !in m;
    HoldsSize(kvs, m);
    MapInsertSize(m, key, value);
    if |kvs| >= c.maxArrayWidth {
      cell := PushDown(kvs, hashedKey, c, depth, key, value, overwrite, m);
      return Ok((None, true)), cell;
    }
    var inserted := InsertSorted(c, kvs, key, value, m);
    return Ok((None, true)), Pairs(inserted);
  }

  function HashesOf(c: Config, kvs: seq<KeyValuePair>): (hashes: seq<seq<Byte>>)
    ensures |hashes| == |kvs| && forall i :: 0 <= i < |kvs| ==> hashes[i] == c.hash(kvs[i].0)
  {
    seq(|kvs|, i requires 0 <= i < |kvs| => c.hash(kvs[i].0))
  }

  /** Two keys that agree so far differ later. */
  lemma DiffersLater(c: Config, kvs: seq<KeyValuePair>, m: map<Key, Value>, d: nat, key: Key, value: Value)
    requires Injective(c) && |kvs| > 0 && Holds(kvs, m) && key !in m && Together(c, d, m[key := value])
    ensures Differs(HashesOf(c, kvs), c.hash(key), Consumed(c, d), 0)
  {
    var k, q := kvs[0].0, Consumed(c, d);
    assert k in m[key := value] && key in m[key := value];
    if BitsOf(c.hash(k), q, 256 - q) == BitsOf(c.hash(key), q, 256 - q) {
      AgreeBits(c.hash(k), c.hash(key), q, 256 - q);
      AgreeWhole(c.hash(k), c.hash(key));
    }
  }

  /** The extension is all that the key and those of the bucket have in common, slot by slot. */
  ghost predicate CommonPrefix(c: Config, depth: nat, kvs: seq<KeyValuePair>, key: Key, ext: Extension) {
    && WellFormed(ext) && Multiple(c.bitWidth, ext.length) && Consumed(c, depth + 1) + ext.length < 256
    && ExtBits(ext) == BitsOf(c.hash(key), Consumed(c, depth + 1), ext.length)
    && AllHave(HashesOf(c, kvs), Consumed(c, depth + 1), ExtBits(ext))
    && var at := Consumed(c, depth + 1) + ext.length;
       Parts(HashesOf(c, kvs), c.hash(key), at, Min(c.bitWidth, 256 - at))
  }

  /** What all keys have in common makes a good link. */
  lemma PrefixOk(c: Config, depth: nat, kvs: seq<KeyValuePair>, m: map<Key, Value>, key: Key, value: Value, ext: Extension)
    requires 1 <= c.bitWidth <= 8 && depth >= c.minDataDepth && Holds(kvs, m) && |m| >= c.maxArrayWidth && key !in m
    requires CommonPrefix(c, depth, kvs, key, ext)
    ensures LinkOk(c, depth, ext, m[key := value])
  {
    var m', d := m[key := value], LevelBelow(c, depth, ext);
    LevelsSkip(c, depth + 1, ext.length);
    var hashes := HashesOf(c, kvs);
    forall k | k in m' ensures Skips(c, k, depth + 1, ext) {
      if k != key {
        var i :| 0 <= i < |kvs| && kvs[i] == (k, m[k]);
        assert hashes[i] == c.hash(k);
      }
    }
    BranchesWhereParts(c, d, kvs, m', key);
    MapInsertSize(m, key, value);
  }

  lemma BranchesWhereParts(c: Config, d: nat, kvs: seq<KeyValuePair>, m: map<Key, Value>, key: Key)
    requires 1 <= c.bitWidth <= 8 && key in m && forall i :: 0 <= i < |kvs| ==> kvs[i].0 in m
    requires Parts(HashesOf(c, kvs), c.hash(key), Consumed(c, d), Min(c.bitWidth, 256 - Consumed(c, d)))
    ensures Branching(c, d, m)
  {
    ConsumedNext(c, d);
    var hashes, n := HashesOf(c, kvs), Min(c.bitWidth, 256 - Consumed(c, d));
    var i :| 0 <= i < |hashes| && Digit(hashes[i], Consumed(c, d), n) != Digit(c.hash(key), Consumed(c, d), n);
    assert kvs[i].0 in m && Idx(c, kvs[i].0, d) != Idx(c, key, d);
  }

  lemma PushLevel(c: Config, depth: nat, m: map<Key, Value>, ext: Extension)
    requires ValidConfig(c) && depth >= c.minDataDepth && Consumed(c, depth) < 256
    requires Together(c, depth + 1, m) && LinkOk(c, depth, ext, m)
    ensures Together(c, LevelBelow(c, depth, ext), m) && FitsDepth(c)
    ensures Consumed(c, depth) < Consumed(c, LevelBelow(c, depth, ext)) == Consumed(c, depth + 1) + ext.length < 256
  {
    ConsumedNext(c, depth);
    TogetherSkip(c, depth, ext, m);
    ConsumedMonotone(c, c.minDataDepth, depth);
  }

  /** A full bucket moves below a link that skips what its keys and the new one have in common. */
  method PushDown(kvs: seq<KeyValuePair>, hashedKey: HashBits, c: Config, depth: nat, key: Key, value: Value,
                  overwrite: bool, ghost m: map<Key, Value>)
    returns (cell: Cell)
    requires ValidConfig(c) && Injective(c) && Consumed(c, depth) < 256 && depth >= c.minDataDepth
    requires Distinct(kvs) && Holds(kvs, m) && |kvs| == |m| >= c.maxArrayWidth && key !in m
    requires Together(c, depth + 1, m[key := value])
    requires hashedKey.Valid() && hashedKey.b == c.hash(key) && hashedKey.length == 256
    requires hashedKey.consumed == Consumed(c, depth + 1)
    modifies hashedKey
    ensures CellOk(c, depth, cell, m[key := value])
    decreases 256 - Consumed(c, depth), 1
  {
    DiffersLater(c, kvs, m, depth + 1, key, value);
    var ext := FindLongestExtension(kvs, hashedKey, c, depth, key);
    PrefixOk(c, depth, kvs, m, key, value, ext);
    PushLevel(c, depth, m[key := value], ext);
    var sub := Refill(kvs, hashedKey, c, LevelBelow(c, depth, ext), key, value, overwrite, m);
    assert key in m[key := value];
    cell := Down(ext, sub, true);
  }

  /** `find_longest_extension`. */
  method FindLongestExtension(kvs: seq<KeyValuePair>, hashedKey: HashBits, c: Config, depth: nat, key: Key)
    returns (ext: Extension)
    requires 1 <= c.bitWidth <= 8 && Differs(HashesOf(c, kvs), c.hash(key), Consumed(c, depth + 1), 0)
    requires hashedKey.Valid() && hashedKey.b == c.hash(key) && hashedKey.length == 256
    requires hashedKey.consumed == Consumed(c, depth + 1)
    modifies hashedKey
    ensures hashedKey.Valid() && hashedKey.consumed == Consumed(c, depth + 1) + ext.length
    ensures CommonPrefix(c, depth, kvs, key, ext)
  {
    var prefix := LongestCommonPrefix(hashedKey, c.bitWidth, HashesOf(c, kvs), 0);
    ext := prefix.value;
  }

  /** A new node with the new pair and then those of the bucket. */
  method Refill(kvs: seq<KeyValuePair>, hashedKey: HashBits, c: Config, d: nat, key: Key, value: Value, overwrite: bool,
                ghost m: map<Key, Value>)
    returns (sub: Trie)
    requires ValidConfig(c) && Injective(c) && Consumed(c, d) < 256 && FitsDepth(c)
    requires Distinct(kvs) && Holds(kvs, m) && key !in m && Together(c, d, m[key := value])
    requires hashedKey.Valid() && hashedKey.b == c.hash(key) && hashedKey.length == 256
    requires hashedKey.consumed == Consumed(c, d)
    modifies hashedKey
    ensures Tree(c, d, sub, m[key := value])
    decreases 256 - Consumed(c, d), 5
  {
    ghost var m' := m[key := value];
    ghost var cur := map[key := value];
    EmptyTree(c, d);
    var consumed := hashedKey.consumed;
    var done;
    done, sub := ModifyTrie(EMPTY_TRIE, hashedKey, c, d, key, value, overwrite, map[]);
    for i := 0 to |kvs|
      invariant Tree(c, d, sub, cur)
      invariant cur.Keys <= m'.Keys && key in cur
      invariant forall k :: k in cur ==> cur[k] == m'[k]
      invariant forall j :: 0 <= j < |kvs| ==> (kvs[j].0 in cur <==> j < i)
    {
      var bits := new HashBits(c.hash(kvs[i].0), 256, consumed);
      done, sub := ModifyTrie(sub, bits, c, d, kvs[i].0, kvs[i].1, overwrite, cur);
      cur := cur[kvs[i].0 := kvs[i].1];
    }
    assert cur == m' by {
      forall k | k in m' ensures k in cur {
        assert k == key || (k, m[k]) in kvs;
      }
    }
  }

  // ---------------------------------------------------------------- one tree per contents

  /** The tree without the marks of what has changed since it was written. */
  ghost function Plain(t: Trie): Trie {
    Trie(seq(|t.cells|, i requires 0 <= i < |t.cells| => PlainCell(t.cells[i])))
  }

  ghost function PlainCell(cell: Cell): Cell {
    if cell.Down? then Down(cell.ext, Plain(cell.sub), false) else cell
  }

  /** A link skips all that its keys have in common, and no more. */
  lemma LongestIsUnique(c: Config, depth: nat, m: map<Key, Value>, a: Extension, b: Extension)
    requires 1 <= c.bitWidth <= 8 && m != map[] && LinkOk(c, depth, a, m) && LinkOk(c, depth, b, m)
    ensures !(a.length < b.length)
  {
    if depth >= c.minDataDepth && a.length < b.length {
      var d := LevelBelow(c, depth, a);
      var k, k' :| k in m && k' in m && Idx(c, k, d) != Idx(c, k', d);
      LongerGoesOn(c, depth, k, a, b);
      LongerGoesOn(c, depth, k', a, b);
    }
  }

  /** Below a shorter extension, the next slot is that of the longer one. */
  lemma LongerGoesOn(c: Config, depth: nat, k: Key, a: Extension, b: Extension)
    requires 1 <= c.bitWidth <= 8 && Multiple(c.bitWidth, a.length) && Multiple(c.bitWidth, b.length) && a.length < b.length
    requires Consumed(c, depth + 1) + b.length < 256 && Skips(c, k, depth + 1, b)
    ensures a.length + c.bitWidth <= b.length <= 8 * |b.path|
    ensures Idx(c, k, LevelBelow(c, depth, a)) == Digit(b.path, a.length, c.bitWidth)
  {
    MultipleLess(c.bitWidth, a.length, b.length);
    LevelsSkip(c, depth + 1, a.length);
    var d := LevelBelow(c, depth, a);
    ConsumedNext(c, d);
    ExtIdx(c, k, depth + 1, b, a.length, d);
  }

  lemma LinkUnique(c: Config, depth: nat, m: map<Key, Value>, a: Extension, b: Extension)
    requires 1 <= c.bitWidth <= 8 && m != map[] && LinkOk(c, depth, a, m) && LinkOk(c, depth, b, m)
    ensures a == b
  {
    LongestIsUnique(c, depth, m, a, b);
    LongestIsUnique(c, depth, m, b, a);
    var k :| k in m;
    assert Skips(c, k, depth + 1, a) && Skips(c, k, depth + 1, b);
    ExtUnique(a, b);
  }

  lemma {:induction false} CellUnique(c: Config, depth: nat, a: Cell, b: Cell, m: map<Key, Value>)
    requires ValidConfig(c) && CellOk(c, depth, a, m) && CellOk(c, depth, b, m) && Consumed(c, depth) < 256
    ensures PlainCell(a) == PlainCell(b)
    decreases 256 - Consumed(c, depth), 0
  {
    if a.Free? || b.Free? {
      assert |m| == 0 <==> m == map[];
    } else if a.Pairs? && b.Pairs? {
      OrderAsymmetric(c.less);
      SortedUnique(c, a.kvs, b.kvs, m);
    } else if a.Down? && b.Down? {
      LinkUnique(c, depth, m, a.ext, b.ext);
      ConsumedNext(c, depth);
      LevelsSkip(c, depth + 1, a.ext.length);
      TreeUnique(c, LevelBelow(c, depth, a.ext), a.sub, b.sub, m);
    }
  }

  /** A map has one tree, however it came about. */
  lemma {:induction false} TreeUnique(c: Config, depth: nat, a: Trie, b: Trie, m: map<Key, Value>)
    requires ValidConfig(c) && Tree(c, depth, a, m) && Tree(c, depth, b, m) && Consumed(c, depth) < 256
    ensures Plain(a) == Plain(b)
    decreases 256 - Consumed(c, depth), 1
  {
    forall i | 0 <= i < 256 ensures PlainCell(a.cells[i]) == PlainCell(b.cells[i]) {
      CellUnique(c, depth, a.cells[i], b.cells[i], Sub(c, m, depth, i));
    }
    assert Plain(a).cells == Plain(b).cells;
  }
}
