/** The AMT (`ipld/amt/src/node.rs` and `amt.rs`): a sparse array that grows and collapses in height. */
module Amt {
  import opened Common
  import opened BitStrings
  import opened AmtForm

  // ---------------------------------------------------------------- nodes

  function NewNode(w: nat, h: nat): Node {
    if h == 0 then Leaf(seq(w, i => None)) else Links(seq(w, i => Absent))
  }

  lemma NewNodeEmpty(w: nat, h: nat)
    requires w > 0
    ensures Shaped(w, NewNode(w, h), h) && Empty(NewNode(w, h)) && Coherent(NewNode(w, h))
    ensures forall i: nat :: i < Span(w, h + 1) ==> At(w, NewNode(w, h), h, i).None?
  {
    EmptyHasNone(w, NewNode(w, h), h);
  }

  lemma EmptyHasNone(w: nat, n: Node, h: nat)
    requires w > 0 && Shaped(w, n, h) && Empty(n)
    ensures forall i: nat :: i < Span(w, h + 1) ==> At(w, n, h, i).None?
  {
    forall i: nat | i < Span(w, h + 1) ensures At(w, n, h, i).None? {
      SpanOne(w);
      SpanPositive(w, h);
      if h > 0 {
        Splits(w, Span(w, h), i);
      }
    }
  }

  /** A CID is only ever held of a node that is flushed throughout. */
  ghost predicate Coherent(n: Node) {
    n.Links? ==> forall k :: 0 <= k < |n.links| ==>
      (n.links[k].ByCid? ==> Plain(n.links[k].node) == n.links[k].node) &&
      (n.links[k].Dirty? ==> Coherent(n.links[k].node))
  }

  lemma {:induction false} PlainCoherent(n: Node)
    requires Plain(n) == n
    ensures Coherent(n)
  {
    if n.Links? {
      forall k | 0 <= k < |n.links|
        ensures n.links[k].ByCid? ==> Plain(n.links[k].node) == n.links[k].node
        ensures !n.links[k].Dirty?
      {
        assert Plain(n).links[k] == PlainLink(n.links[k]);
      }
    }
  }

  /** `after` has `v` at index `i` and is otherwise like `before`. */
  ghost predicate Updated(w: nat, before: Node, after: Node, h: nat, i: nat, v: Option<Value>)
    requires w > 0 && Shaped(w, before, h) && Shaped(w, after, h)
  {
    forall j: nat :: j < Span(w, h + 1) ==> At(w, after, h, j) == if j == i then v else At(w, before, h, j)
  }

  ghost predicate SlotUpdated(w: nat, before: Link, after: Link, h: nat, i: nat, v: Option<Value>)
    requires w > 0 && ShapedSlot(w, before, h) && ShapedSlot(w, after, h)
  {
    forall r: nat :: r < Span(w, h) ==> SlotAt(w, after, h, r) == if r == i then v else SlotAt(w, before, h, r)
  }

  /** Changing one slot changes the node in just that place. */
  lemma PutSlot(w: nat, n: Node, h: nat, i: nat, link: Link, v: Option<Value>)
    requires w > 0 && h > 0 && Shaped(w, n, h) && i < Span(w, h + 1) && ShapedSlot(w, link, h)
    requires Slot(Span(w, h), i) < w && ShapedSlot(w, n.links[Slot(Span(w, h), i)], h)
    requires SlotUpdated(w, n.links[Slot(Span(w, h), i)], link, h, Rest(Span(w, h), i), v)
    ensures var n' := Links(n.links[Slot(Span(w, h), i) := link]);
            Shaped(w, n', h) && Updated(w, n, n', h, i, v)
  {
    var s := Span(w, h);
    var n' := Links(n.links[Slot(s, i) := link]);
    SpanPositive(w, h);
    forall j: nat | j < Span(w, h + 1) ensures At(w, n', h, j) == if j == i then v else At(w, n, h, j) {
      Splits(w, s, i);
      Splits(w, s, j);
      AtSlot(w, n, h, Slot(s, j), Rest(s, j));
      AtSlot(w, n', h, Slot(s, j), Rest(s, j));
    }
  }

  method NodeGet(bitWidth: nat, n: Node, h: nat, i: nat) returns (r: Option<Value>)
    requires Shaped(Pow2(bitWidth), n, h) && i < Span(Pow2(bitWidth), h + 1) && i <= MAX_INDEX
    ensures r == At(Pow2(bitWidth), n, h, i)
    decreases h
  {
    match n {
      case Leaf(vals) =>
        SpanOne(Pow2(bitWidth));
        return vals[i];
      case Links(links) =>
        SaturationIsHarmless(bitWidth, h, i);
        SlotOf(Pow2(bitWidth), n, h, i);
        var nfh := NodesForHeight(bitWidth, h);
        var link := links[i / nfh];
        if link.Absent? {
          return None;
        }
        r := NodeGet(bitWidth, link.node, h - 1, i % nfh);
    }
  }

  method NodeSet(bitWidth: nat, n: Node, h: nat, i: nat, v: Value) returns (r: Node, prev: Option<Value>)
    requires Shaped(Pow2(bitWidth), n, h) && Coherent(n) && i < Span(Pow2(bitWidth), h + 1) && i <= MAX_INDEX
    ensures ShapedChild(Pow2(bitWidth), r, h) && Coherent(r)
    ensures Updated(Pow2(bitWidth), n, r, h, i, Some(v)) && prev == At(Pow2(bitWidth), n, h, i)
    ensures h > 0 ==> (forall k :: 0 <= k < Pow2(bitWidth) && !n.links[k].Absent? ==> !r.links[k].Absent?)
    ensures h > 0 ==> Slot(Span(Pow2(bitWidth), h), i) < Pow2(bitWidth) && !r.links[Slot(Span(Pow2(bitWidth), h), i)].Absent?
    decreases h
  {
    ghost var w := Pow2(bitWidth);
    if h == 0 {
      SpanOne(w);
      prev := n.vals[i];
      r := Leaf(n.vals[i := Some(v)]);
      assert r.vals[i].Some?;
      return;
    }
    SaturationIsHarmless(bitWidth, h, i);
    SlotOf(w, n, h, i);
    var nfh := NodesForHeight(bitWidth, h);
    var idx := i / nfh;
    var child;
    if n.links[idx].Absent? {
      child := NewNode(Pow2(bitWidth), h - 1);
      NewNodeEmpty(w, h - 1);
    } else {
      child := n.links[idx].node;
      if n.links[idx].ByCid? {
        PlainCoherent(child);
      }
    }
    var child';
    child', prev := NodeSet(bitWidth, child, h - 1, i % nfh, v);
    SetSlot(w, n.links[idx], child, child', h, h - 1, i % nfh, Some(v));
    PutSlot(w, n, h, i, Dirty(child'), Some(v));
    r := Links(n.links[idx := Dirty(child')]);
    assert !r.links[idx].Absent?;
  }

  /** A slot is updated as the node below it is. */
  lemma SetSlot(w: nat, link: Link, child: Node, child': Node, h: nat, g: nat, i: nat, v: Option<Value>)
    requires w > 0 && h == g + 1 && ShapedSlot(w, link, h) && i < Span(w, h)
    requires Shaped(w, child, g) && ShapedChild(w, child', g) && Updated(w, child, child', g, i, v)
    requires !link.Absent? ==> child == link.node
    requires link.Absent? ==> forall r: nat :: r < Span(w, h) ==> At(w, child, g, r).None?
    ensures SlotUpdated(w, link, Dirty(child'), h, i, v)
    ensures At(w, child, g, i) == SlotAt(w, link, h, i)
  {
  }

  method NodeDelete(bitWidth: nat, n: Node, h: nat, i: nat) returns (r: Node, deleted: Option<Value>)
    requires Shaped(Pow2(bitWidth), n, h) && Coherent(n) && i < Span(Pow2(bitWidth), h + 1) && i <= MAX_INDEX
    ensures Shaped(Pow2(bitWidth), r, h) && Coherent(r)
    ensures Updated(Pow2(bitWidth), n, r, h, i, None) && deleted == At(Pow2(bitWidth), n, h, i)
    ensures deleted.None? ==> r == n
    decreases h
  {
    ghost var w := Pow2(bitWidth);
    match n {
      case Leaf(vals) =>
        SpanOne(w);
        return Leaf(vals[i := None]), vals[i];
      case Links(links) =>
        SaturationIsHarmless(bitWidth, h, i);
        SlotOf(w, n, h, i);
        var nfh := NodesForHeight(bitWidth, h);
        var idx := i / nfh;
        if links[idx].Absent? {
          return n, None;
        }
        var child := links[idx].node;
        if links[idx].ByCid? {
          PlainCoherent(child);
        }
        var child';
        child', deleted := NodeDelete(bitWidth, child, h - 1, i % nfh);
        if deleted.None? {
          return n, None;
        }
        var link := if Empty(child') then Absent else Dirty(child');
        DeleteSlot(w, links[idx], child', link, h, h - 1, i % nfh);
        PutSlot(w, n, h, i, link, None);
        r := Links(links[idx := link]);
    }
  }

  lemma DeleteSlot(w: nat, link: Link, child': Node, link': Link, h: nat, g: nat, i: nat)
    requires w > 0 && h == g + 1 && ShapedSlot(w, link, h) && !link.Absent? && i < Span(w, h)
    requires Shaped(w, child', g) && Updated(w, link.node, child', g, i, None)
    requires link' == if Empty(child') then Absent else Dirty(child')
    ensures ShapedSlot(w, link', h) && SlotUpdated(w, link, link', h, i, None)
  {
    if Empty(child') {
      EmptyHasNone(w, child', g);
      forall r: nat | r < Span(w, h) && r != i ensures SlotAt(w, link, h, r).None? {
        assert At(w, child', g, r) == At(w, link.node, g, r);
      }
    }
  }

  /** Only the first slot is taken. */
  predicate CanCollapse(n: Node) {
    && n.Links? && |n.links| > 0 && !n.links[0].Absent?
    && forall k :: 1 <= k < |n.links| ==> n.links[k].Absent?
  }

  /** A new root above the old one, or one with collapsed links, holds the same. */
  lemma RaiseKeeps(w: nat, n: Node, h: nat, top: Node)
    requires w > 0 && ShapedChild(w, n, h) && CanCollapse(top) && top.links[0].node == n && |top.links| == w
    ensures Shaped(w, top, h + 1)
    ensures forall i: nat :: Find(w, top, h + 1, i) == Find(w, n, h, i)
  {
    var s := Span(w, h + 1);
    SpanMonotone(w, h + 1, h + 2);
    forall i: nat ensures Find(w, top, h + 1, i) == Find(w, n, h, i) {
      if i < Span(w, h + 2) {
        SlotOf(w, top, h + 1, i);
        SpanPositive(w, h + 1);
        SlotRest(s, i);
        if Slot(s, i) == 0 {
          assert Rest(s, i) == i;
        } else {
          TimesMonotone(1, Slot(s, i), s);
        }
      }
    }
  }

  lemma EmptyFinds(w: nat, n: Node, h: nat)
    requires w > 0 && Shaped(w, n, h) && Empty(n)
    ensures forall i: nat :: Find(w, n, h, i).None?
  {
    EmptyHasNone(w, n, h);
  }

  /** Replaces every dirty link by the CID of the node below it. */
  method NodeFlush(n: Node) returns (r: Node)
    requires Coherent(n)
    ensures r == Plain(n)
    decreases n, 1
  {
    match n {
      case Leaf(_) =>
        return n;
      case Links(links) =>
        var done: seq<Link> := [];
        while |done| < |links|
          invariant |done| <= |links|
          invariant forall k :: 0 <= k < |done| ==> done[k] == PlainLink(links[k])
        {
          var link := links[|done|];
          if link.Dirty? {
            var child := NodeFlush(link.node);
            link := ByCid(child);
          }
          done := done + [link];
        }
        assert done == Plain(n).links;
        r := Links(done);
    }
  }

  // ---------------------------------------------------------------- the AMT

  /** What the CID of a flushed AMT is the digest of. */
  datatype RootCid = RootCid(bitWidth: nat, height: nat, count: nat, node: Node)

  ghost function Entry(m: map<nat, Value>, i: nat): Option<Value> {
    if i in m then Some(m[i]) else None
  }

  ghost predicate Represents(w: nat, n: Node, h: nat, m: map<nat, Value>)
    requires w > 0 && Shaped(w, n, h)
  {
    forall i: nat :: Find(w, n, h, i) == Entry(m, i)
  }

  class Amt {
    const bitWidth: nat
    var root: Node
    var height: nat
    var count: nat
    var flushedCid: Option<RootCid>
    /** The array. */
    ghost var m: map<nat, Value>

    ghost predicate Valid()
      reads this
    {
      && bitWidth >= 1
      && Canonical(Pow2(bitWidth), root, height) && Coherent(root)
      && Represents(Pow2(bitWidth), root, height, m)
      && (forall i :: i in m ==> i <= MAX_INDEX)
      && count == |m|
      && (flushedCid.Some? ==> flushedCid.value == RootCid(bitWidth, height, count, Plain(root)))
    }

    constructor (bitWidth: nat)
      requires bitWidth >= 1
      ensures Valid() && m == map[] && this.bitWidth == bitWidth
    {
      NewNodeEmpty(Pow2(bitWidth), 0);
      EmptyFinds(Pow2(bitWidth), NewNode(Pow2(bitWidth), 0), 0);
      this.bitWidth, root, height, count, flushedCid := bitWidth, NewNode(Pow2(bitWidth), 0), 0, 0, None;
      m := map[];
    }

    method Get(i: nat) returns (r: Result<Option<Value>, IpldError>)
      requires Valid()
      ensures r == if i > MAX_INDEX then Err(OutOfRange) else Ok(Entry(m, i))
    {
      if i > MAX_INDEX {
        return Err(OutOfRange);
      }
      SaturationIsHarmless(bitWidth, height + 1, i);
      assert Find(Pow2(bitWidth), root, height, i) == Entry(m, i);
      if i >= NodesForHeight(bitWidth, height + 1) {
        return Ok(None);
      }
      var v := NodeGet(bitWidth, root, height, i);
      return Ok(v);
    }

    /** Puts a new root above the old one; an empty root is replaced. */
    method Raise()
      requires bitWidth >= 1 && Shaped(Pow2(bitWidth), root, height) && Coherent(root)
      requires Represents(Pow2(bitWidth), root, height, m)
      modifies this`root, this`height
      ensures Shaped(Pow2(bitWidth), root, height) && Coherent(root) && Represents(Pow2(bitWidth), root, height, m)
      ensures height == old(height) + 1
    {
      ghost var w := Pow2(bitWidth);
      if !Empty(root) {
        var links := [Dirty(root)] + seq(Pow2(bitWidth) - 1, k => Absent);
        RaiseKeeps(w, root, height, Links(links));
        root := Links(links);
      } else {
        EmptyFinds(w, root, height);
        root := NewNode(Pow2(bitWidth), height + 1);
        NewNodeEmpty(w, height + 1);
        EmptyFinds(w, root, height + 1);
      }
      height := height + 1;
    }

    /** Raises the root until the index is in range. */
    method Grow(i: nat)
      requires Valid() && i <= MAX_INDEX
      modifies this`root, this`height
      ensures Shaped(Pow2(bitWidth), root, height) && Coherent(root) && Represents(Pow2(bitWidth), root, height, m)
      ensures i < Span(Pow2(bitWidth), height + 1)
      ensures (root == old(root) && height == old(height)) || (height > 0 && i >= Span(Pow2(bitWidth), height))
    {
      ghost var w := Pow2(bitWidth);
      SaturationIsHarmless(bitWidth, height + 1, i);
      while i >= NodesForHeight(bitWidth, height + 1)
        invariant Shaped(w, root, height) && Coherent(root) && Represents(w, root, height, m)
        invariant (root == old(root) && height == old(height)) || (height > 0 && i >= Span(w, height))
        invariant i >= NodesForHeight(bitWidth, height + 1) <==> i >= Span(w, height + 1)
        decreases 64 - height
      {
        StillRoom(bitWidth, height + 1, i);
        Raise();
        SaturationIsHarmless(bitWidth, height + 1, i);
      }
    }

    method Set(i: nat, v: Value) returns (r: Result<(), IpldError>)
      requires Valid()
      modifies this
      ensures Valid()
      ensures r == if i > MAX_INDEX then Err(OutOfRange) else Ok(())
      ensures m == if i > MAX_INDEX then old(m) else old(m)[i := v]
    {
      if i > MAX_INDEX {
        return Err(OutOfRange);
      }
      Grow(i);
      var node, prev := NodeSet(bitWidth, root, height, i, v);
      SetRepresents(Pow2(bitWidth), root, node, height, i, v, m);
      if prev.None? {
        count := count + 1;
      }
      root := node;
      m := m[i := v];
      flushedCid := None;
      if height > 0 {
        SlotPositive(Pow2(bitWidth), height, i);
      }
      return Ok(());
    }

    method Delete(i: nat) returns (r: Result<Option<Value>, IpldError>)
      requires Valid()
      modifies this
      ensures Valid()
      ensures r == if i > MAX_INDEX then Err(OutOfRange) else Ok(Entry(old(m), i))
      ensures m == old(m) - {i}
    {
      if i > MAX_INDEX {
        assert m == m - {i};
        return Err(OutOfRange);
      }
      SaturationIsHarmless(bitWidth, height + 1, i);
      assert Find(Pow2(bitWidth), root, height, i) == Entry(m, i);
      if i >= NodesForHeight(bitWidth, height + 1) {
        assert m == m - {i};
        return Ok(None);
      }
      var node, deleted := NodeDelete(bitWidth, root, height, i);
      if deleted.None? {
        assert m == m - {i};
        return Ok(None);
      }
      DeleteRepresents(Pow2(bitWidth), root, node, height, i, m);
      flushedCid := None;
      count := count - 1;
      m := m - {i};
      root := node;
      Lower();
      return Ok(deleted);
    }

    /** Removes roots that only have their first link. */
    method Lower()
      requires bitWidth >= 1 && Shaped(Pow2(bitWidth), root, height) && Coherent(root)
      requires Represents(Pow2(bitWidth), root, height, m)
      modifies this`root, this`height
      ensures Canonical(Pow2(bitWidth), root, height) && Coherent(root) && Represents(Pow2(bitWidth), root, height, m)
    {
      ghost var w := Pow2(bitWidth);
      if Empty(root) {
        EmptyFinds(w, root, height);
        root := NewNode(Pow2(bitWidth), 0);
        height := 0;
        NewNodeEmpty(w, 0);
        EmptyFinds(w, root, 0);
      } else {
        while CanCollapse(root) && height > 0
          invariant Shaped(w, root, height) && Coherent(root) && Represents(w, root, height, m) && !Empty(root)
          decreases height
        {
          var child := root.links[0].node;
          RaiseKeeps(w, child, height - 1, root);
          if root.links[0].ByCid? {
            PlainCoherent(child);
          }
          root := child;
          height := height - 1;
        }
      }
    }

    method Flush() returns (cid: RootCid)
      requires Valid()
      modifies this`root, this`flushedCid
      ensures Valid() && cid == RootCid(bitWidth, height, count, Plain(old(root)))
    {
      if flushedCid.Some? {
        return flushedCid.value;
      }
      var node := NodeFlush(root);
      PlainKeeps(Pow2(bitWidth), root, height);
      PlainTwice(root);
      PlainCoherent(node);
      root := node;
      cid := RootCid(bitWidth, height, count, node);
      flushedCid := Some(cid);
    }
  }

  /** The growth loop goes on only while the capacity is below the saturation point. */
  lemma StillRoom(bitWidth: nat, h: nat, i: nat)
    requires bitWidth >= 1 && i <= MAX_INDEX && i >= NodesForHeight(bitWidth, h)
    ensures h < 64
  {
    assert bitWidth * h >= h;
  }

  lemma SetRepresents(w: nat, n: Node, n': Node, h: nat, i: nat, v: Value, m: map<nat, Value>)
    requires w > 0 && Shaped(w, n, h) && Shaped(w, n', h) && i < Span(w, h + 1)
    requires Updated(w, n, n', h, i, Some(v)) && Represents(w, n, h, m)
    ensures Represents(w, n', h, m[i := v]) && At(w, n, h, i) == Entry(m, i)
  {
    forall j: nat ensures Find(w, n', h, j) == Entry(m[i := v], j) {
      assert Find(w, n, h, j) == Entry(m, j);
    }
    assert Find(w, n, h, i) == Entry(m, i);
  }

  lemma DeleteRepresents(w: nat, n: Node, n': Node, h: nat, i: nat, m: map<nat, Value>)
    requires w > 0 && Shaped(w, n, h) && Shaped(w, n', h) && i < Span(w, h + 1)
    requires Updated(w, n, n', h, i, None) && Represents(w, n, h, m) && i in m
    ensures Represents(w, n', h, m - {i}) && |m - {i}| == |m| - 1
  {
    forall j: nat ensures Find(w, n', h, j) == Entry(m - {i}, j) {
      assert Find(w, n, h, j) == Entry(m, j);
    }
    assert m.Keys == (m - {i}).Keys + {i};
    assert |m| == |m.Keys| && |m - {i}| == |(m - {i}).Keys|;
  }

  lemma SlotPositive(w: nat, h: nat, i: nat)
    requires w > 0
    ensures i >= Span(w, h) ==> Slot(Span(w, h), i) >= 1
  {
    SpanPositive(w, h);
  }

  lemma {:induction false} PlainTwice(n: Node)
    ensures Plain(Plain(n)) == Plain(n)
  {
    if n.Links? {
      forall k | 0 <= k < |n.links| ensures PlainLink(PlainLink(n.links[k])) == PlainLink(n.links[k]) {
        if !n.links[k].Absent? {
          PlainTwice(n.links[k].node);
        }
      }
      assert Plain(Plain(n)).links == Plain(n).links;
    }
  }

  // ---------------------------------------------------------------- whole runs

  datatype Op = SetOp(i: nat, v: Value) | DeleteOp(i: nat) | FlushOp

  ghost function Apply(m: map<nat, Value>, op: Op): map<nat, Value> {
    match op
    case SetOp(i, v) => if i > MAX_INDEX then m else m[i := v]
    case DeleteOp(i) => m - {i}
    case FlushOp => m
  }

  ghost function ApplyAll(m: map<nat, Value>, ops: seq<Op>): map<nat, Value>
    decreases |ops|
  {
    if ops == [] then m else Apply(ApplyAll(m, ops[..|ops| - 1]), ops[|ops| - 1])
  }

  /** After any operations the AMT is the canonical tree of the array that they make. */
  method Replay(bitWidth: nat, ops: seq<Op>) returns (amt: Amt)
    requires bitWidth >= 1
    ensures fresh(amt) && amt.Valid() && amt.bitWidth == bitWidth && amt.m == ApplyAll(map[], ops)
  {
    amt := new Amt(bitWidth);
    var n := 0;
    assert ops[..0] == [];
    while n < |ops|
      invariant n <= |ops| && fresh(amt) && amt.Valid() && amt.bitWidth == bitWidth
      invariant amt.m == ApplyAll(map[], ops[..n])
    {
      assert ops[..n + 1][..n] == ops[..n];
      Perform(amt, ops[n]);
      n := n + 1;
    }
    assert ops[..n] == ops;
  }

  method Perform(amt: Amt, op: Op)
    requires amt.Valid()
    modifies amt
    ensures amt.Valid() && amt.m == Apply(old(amt.m), op)
  {
    match op {
      case SetOp(i, v) => var _ := amt.Set(i, v);
      case DeleteOp(i) => var _ := amt.Delete(i);
      case FlushOp => var _ := amt.Flush();
    }
  }

  /** Two AMTs that hold the same array have the same root CID, whatever their histories. */
  lemma SameArraySameCid(bitWidth: nat, m: map<nat, Value>, a: Node, ha: nat, b: Node, hb: nat)
    requires Canonical(Pow2(bitWidth), a, ha) && Represents(Pow2(bitWidth), a, ha, m)
    requires Canonical(Pow2(bitWidth), b, hb) && Represents(Pow2(bitWidth), b, hb, m)
    ensures RootCid(bitWidth, ha, |m|, Plain(a)) == RootCid(bitWidth, hb, |m|, Plain(b))
  {
    forall i: nat ensures Find(Pow2(bitWidth), a, ha, i) == Find(Pow2(bitWidth), b, hb, i) {
      assert Find(Pow2(bitWidth), a, ha, i) == Entry(m, i);
    }
    CanonicalUnique(Pow2(bitWidth), a, ha, b, hb);
  }

  /** The height is the least under which the largest index fits. */
  lemma HeightIsLeast(w: nat, n: Node, h: nat, m: map<nat, Value>)
    requires w > 0 && Canonical(w, n, h) && Represents(w, n, h, m)
    ensures forall i :: i in m ==> i < Span(w, h + 1)
    ensures h > 0 ==> exists i :: i in m && i >= Span(w, h)
  {
    forall i | i in m ensures i < Span(w, h + 1) {
      assert Find(w, n, h, i) == Entry(m, i);
    }
    if h > 0 {
      var i := HeightNeeded(w, n, h);
      assert Find(w, n, h, i) == Entry(m, i);
      assert i in m && i >= Span(w, h);
    }
  }
}
