/** The form of an AMT (`ipld/amt`): a trie over the digits of an index in base `w`, the width of a
    node. */
module AmtForm {
  import opened Common
  import opened BitStrings

  type Value(==, !new)

  /** What a link node has in a slot. A link by CID stands for the node that the CID is the digest of. */
  datatype Link = Absent | ByCid(node: Node) | Dirty(node: Node)

  datatype Node = Leaf(vals: seq<Option<Value>>) | Links(links: seq<Link>)

  const MAX_INDEX: nat := 0xffff_ffff_ffff_fffe

  // ---------------------------------------------------------------- arithmetic

  // Slots and rests are defined by repeated addition and subtraction; `DivIsSlot` ties them to the
  // division that the code uses.

  function Times(k: nat, s: nat): nat {
    if k == 0 then 0 else Times(k - 1, s) + s
  }

  function Slot(s: nat, i: nat): nat {
    if s == 0 || i < s then 0 else 1 + Slot(s, i - s)
  }

  function Rest(s: nat, i: nat): nat {
    if s == 0 || i < s then i else Rest(s, i - s)
  }

  /** How many indices a slot of a node at height `h` covers: `w` to the power of `h`. */
  function Span(w: nat, h: nat): nat {
    if h == 0 then 1 else Times(w, Span(w, h - 1))
  }

  /** `nodes_for_height`, which saturates. */
  function NodesForHeight(bitWidth: nat, height: nat): nat {
    if bitWidth * height >= 64 then U64_MAX else Pow2(bitWidth * height)
  }

  lemma {:induction false} TimesIs(k: nat, s: nat)
    ensures Times(k, s) == k * s
  {
    if k > 0 {
      TimesIs(k - 1, s);
      assert k * s == (k - 1) * s + s;
    }
  }

  /** An index splits into a slot and a rest. */
  lemma {:induction false} Splits(w: nat, s: nat, i: nat)
    requires s > 0 && i < Times(w, s)
    ensures Slot(s, i) < w && Rest(s, i) < s && i == Times(Slot(s, i), s) + Rest(s, i)
    decreases i
  {
    if i >= s {
      Splits(w - 1, s, i - s);
    }
  }

  lemma {:induction false} Joins(w: nat, s: nat, k: nat, r: nat)
    requires k < w && r < s
    ensures Times(k, s) + r < Times(w, s)
    ensures Slot(s, Times(k, s) + r) == k && Rest(s, Times(k, s) + r) == r
  {
    if k > 0 {
      Joins(w - 1, s, k - 1, r);
    }
  }

  lemma {:induction false} TimesMonotone(a: nat, b: nat, s: nat)
    requires a <= b
    ensures Times(a, s) <= Times(b, s)
  {
    if a < b {
      TimesMonotone(a, b - 1, s);
    }
  }

  lemma {:induction false} SpanPositive(w: nat, h: nat)
    requires w > 0
    ensures Span(w, h) > 0
  {
    if h > 0 {
      SpanPositive(w, h - 1);
      TimesMonotone(1, w, Span(w, h - 1));
    }
  }

  lemma {:induction false} SpanMonotone(w: nat, a: nat, b: nat)
    requires w > 0 && a <= b
    ensures Span(w, a) <= Span(w, b)
  {
    if a < b {
      SpanMonotone(w, a, b - 1);
      TimesMonotone(1, w, Span(w, b - 1));
    }
  }

  lemma {:induction false} SpanOne(w: nat)
    ensures Span(w, 1) == w
  {
    TimesIs(w, 1);
    assert Span(w, 0) == 1;
  }

  lemma {:induction false} SlotRest(s: nat, i: nat)
    requires s > 0
    ensures Rest(s, i) < s && i == Times(Slot(s, i), s) + Rest(s, i)
    decreases i
  {
    if i >= s {
      SlotRest(s, i - s);
    }
  }

  lemma DivIsSlot(s: nat, i: nat)
    requires s > 0
    ensures i / s == Slot(s, i) && i % s == Rest(s, i)
  {
    SlotRest(s, i);
    TimesIs(Slot(s, i), s);
    DivUnique(i, s, Slot(s, i), Rest(s, i));
  }

  lemma {:induction false} SpanIsPower(bitWidth: nat, h: nat)
    ensures Span(Pow2(bitWidth), h) == Pow2(bitWidth * h)
  {
    if h > 0 {
      SpanIsPower(bitWidth, h - 1);
      assert bitWidth * h == bitWidth + bitWidth * (h - 1);
      Pow2Add(bitWidth, bitWidth * (h - 1));
      TimesIs(Pow2(bitWidth), Pow2(bitWidth * (h - 1)));
    }
  }

  lemma Pow64()
    ensures Pow2(64) == U64_MAX + 1
  {
    Pow2Table();
    Pow2Add(8, 8);
    Pow2Add(16, 16);
    Pow2Add(32, 32);
  }

  lemma PowCap(n: nat)
    ensures n >= 64 ==> Pow2(n) > U64_MAX
    ensures n < 64 ==> Pow2(n) <= U64_MAX
  {
    Pow64();
    if n >= 64 {
      Pow2Monotone(64, n);
    } else {
      Pow2Monotone(n + 1, 64);
    }
  }

  /** For every index that an AMT can hold, saturation changes nothing. */
  lemma SaturationIsHarmless(bitWidth: nat, h: nat, i: nat)
    requires i <= MAX_INDEX
    ensures var n, s := NodesForHeight(bitWidth, h), Span(Pow2(bitWidth), h);
            && n > 0 && n == Min(s, U64_MAX) && (i >= n <==> i >= s)
            && i / n == Slot(s, i) && i % n == Rest(s, i)
  {
    SpanIsPower(bitWidth, h);
    PowCap(bitWidth * h);
    DivIsSlot(NodesForHeight(bitWidth, h), i);
  }

  // ---------------------------------------------------------------- shape and contents

  predicate Empty(n: Node) {
    match n
    case Leaf(vals) => forall k :: 0 <= k < |vals| ==> vals[k].None?
    case Links(links) => forall k :: 0 <= k < |links| ==> links[k].Absent?
  }

  /** Values at height 0, links above; a link leads to a node that is not empty. */
  ghost predicate Shaped(w: nat, n: Node, h: nat)
    decreases h
  {
    if h == 0 then n.Leaf? && |n.vals| == w
    else
      && n.Links? && |n.links| == w
      && forall k :: 0 <= k < w && !n.links[k].Absent? ==>
           Shaped(w, n.links[k].node, h - 1) && !Empty(n.links[k].node)
  }

  ghost predicate ShapedChild(w: nat, n: Node, h: nat) {
    Shaped(w, n, h) && !Empty(n)
  }

  /** The value at an index, relative to the node. */
  ghost function At(w: nat, n: Node, h: nat, i: nat): Option<Value>
    requires w > 0 && Shaped(w, n, h) && i < Span(w, h + 1)
    decreases h
  {
    if h == 0 then SpanOne(w); n.vals[i]
    else
      SpanPositive(w, h);
      Splits(w, Span(w, h), i);
      var link := n.links[Slot(Span(w, h), i)];
      if link.Absent? then None else At(w, link.node, h - 1, Rest(Span(w, h), i))
  }

  /** The value at any index. */
  ghost function Find(w: nat, n: Node, h: nat, i: nat): Option<Value>
    requires w > 0 && Shaped(w, n, h)
  {
    if i < Span(w, h + 1) then At(w, n, h, i) else None
  }

  /** A root is as low as it can be: something is out of the reach of its first link. */
  ghost predicate Canonical(w: nat, n: Node, h: nat) {
    && Shaped(w, n, h)
    && (h > 0 ==> exists k :: 1 <= k < w && !n.links[k].Absent?)
  }

  /** The node with all links as links by CID. */
  function Plain(n: Node): Node {
    match n
    case Leaf(_) => n
    case Links(links) => Links(seq(|links|, k requires 0 <= k < |links| => PlainLink(links[k])))
  }

  function PlainLink(l: Link): Link {
    if l.Absent? then Absent else ByCid(Plain(l.node))
  }

  // ---------------------------------------------------------------- one tree per contents

  /** A node that is not empty holds something. */
  lemma {:induction false} HoldsSomething(w: nat, n: Node, h: nat) returns (i: nat)
    requires w > 0 && ShapedChild(w, n, h)
    ensures i < Span(w, h + 1) && At(w, n, h, i).Some?
    decreases h
  {
    if h == 0 {
      i :| 0 <= i < |n.vals| && n.vals[i].Some?;
      SpanOne(w);
    } else {
      var k :| 0 <= k < |n.links| && !n.links[k].Absent?;
      var r := HoldsSomething(w, n.links[k].node, h - 1);
      Joins(w, Span(w, h), k, r);
      i := Times(k, Span(w, h)) + r;
    }
  }

  ghost predicate ShapedSlot(w: nat, l: Link, h: nat) {
    h > 0 && (!l.Absent? ==> ShapedChild(w, l.node, h - 1))
  }

  /** The value at an index below a slot. */
  ghost function SlotAt(w: nat, l: Link, h: nat, r: nat): Option<Value>
    requires w > 0 && ShapedSlot(w, l, h) && r < Span(w, h)
  {
    if l.Absent? then None else At(w, l.node, h - 1, r)
  }

  lemma AtSlot(w: nat, n: Node, h: nat, k: nat, r: nat)
    requires w > 0 && h > 0 && Shaped(w, n, h) && k < w && r < Span(w, h)
    ensures Times(k, Span(w, h)) + r < Span(w, h + 1)
    ensures ShapedSlot(w, n.links[k], h)
    ensures At(w, n, h, Times(k, Span(w, h)) + r) == SlotAt(w, n.links[k], h, r)
  {
    Joins(w, Span(w, h), k, r);
  }

  lemma SlotHolds(w: nat, l: Link, h: nat)
    requires w > 0 && ShapedSlot(w, l, h)
    ensures l.Absent? <==> forall r: nat :: r < Span(w, h) ==> SlotAt(w, l, h, r).None?
  {
    if !l.Absent? {
      var r := HoldsSomething(w, l.node, h - 1);
      assert SlotAt(w, l, h, r).Some?;
    }
  }

  ghost predicate SameAt(w: nat, a: Node, b: Node, h: nat)
    requires w > 0 && Shaped(w, a, h) && Shaped(w, b, h)
  {
    forall i: nat :: i < Span(w, h + 1) ==> At(w, a, h, i) == At(w, b, h, i)
  }

  ghost predicate SameSlot(w: nat, a: Link, b: Link, h: nat)
    requires w > 0 && ShapedSlot(w, a, h) && ShapedSlot(w, b, h)
  {
    forall r: nat :: r < Span(w, h) ==> SlotAt(w, a, h, r) == SlotAt(w, b, h, r)
  }

  lemma SlotsSame(w: nat, a: Node, b: Node, h: nat, k: nat)
    requires w > 0 && h > 0 && Shaped(w, a, h) && Shaped(w, b, h) && k < w
    requires SameAt(w, a, b, h)
    ensures ShapedSlot(w, a.links[k], h) && ShapedSlot(w, b.links[k], h)
    ensures SameSlot(w, a.links[k], b.links[k], h)
  {
    forall r: nat | r < Span(w, h) ensures SlotAt(w, a.links[k], h, r) == SlotAt(w, b.links[k], h, r) {
      AtSlot(w, a, h, k, r);
      AtSlot(w, b, h, k, r);
    }
  }

  lemma ChildrenSame(w: nat, a: Link, b: Link, h: nat, g: nat)
    requires w > 0 && h == g + 1 && ShapedSlot(w, a, h) && ShapedSlot(w, b, h) && SameSlot(w, a, b, h)
    ensures a.Absent? <==> b.Absent?
    ensures !a.Absent? ==> SameAt(w, a.node, b.node, g)
  {
    SlotHolds(w, a, h);
    SlotHolds(w, b, h);
    if !a.Absent? && !b.Absent? {
      forall r: nat | r < Span(w, h) ensures At(w, a.node, g, r) == At(w, b.node, g, r) {
        assert SlotAt(w, a, h, r) == SlotAt(w, b, h, r);
      }
    }
  }

  /** Nodes of the same height with the same contents are the same, whatever their history. */
  lemma {:induction false} ShapeUnique(w: nat, a: Node, b: Node, h: nat)
    requires w > 0 && Shaped(w, a, h) && Shaped(w, b, h) && SameAt(w, a, b, h)
    ensures Plain(a) == Plain(b)
    decreases h
  {
    if h == 0 {
      SpanOne(w);
      forall k | 0 <= k < w ensures a.vals[k] == b.vals[k] {
        assert At(w, a, 0, k) == At(w, b, 0, k);
      }
      assert a.vals == b.vals;
    } else {
      forall k | 0 <= k < w ensures PlainLink(a.links[k]) == PlainLink(b.links[k]) {
        SlotsSame(w, a, b, h, k);
        ChildrenSame(w, a.links[k], b.links[k], h, h - 1);
        if !a.links[k].Absent? {
          ShapeUnique(w, a.links[k].node, b.links[k].node, h - 1);
        }
      }
      assert Plain(a).links == Plain(b).links;
    }
  }

  /** Reads a slot. */
  lemma SlotOf(w: nat, n: Node, h: nat, i: nat)
    requires w > 0 && h > 0 && Shaped(w, n, h) && i < Span(w, h + 1)
    ensures Slot(Span(w, h), i) < w && Rest(Span(w, h), i) < Span(w, h)
    ensures ShapedSlot(w, n.links[Slot(Span(w, h), i)], h)
    ensures At(w, n, h, i) == SlotAt(w, n.links[Slot(Span(w, h), i)], h, Rest(Span(w, h), i))
  {
    SpanPositive(w, h);
    Splits(w, Span(w, h), i);
  }

  lemma {:induction false} PlainKeeps(w: nat, n: Node, h: nat)
    requires w > 0 && Shaped(w, n, h)
    ensures Shaped(w, Plain(n), h) && (Empty(Plain(n)) <==> Empty(n))
    ensures h > 0 ==> forall k :: 0 <= k < w ==> (Plain(n).links[k].Absent? <==> n.links[k].Absent?)
    ensures SameAt(w, n, Plain(n), h)
    decreases h
  {
    if h > 0 {
      forall k | 0 <= k < w && !n.links[k].Absent?
        ensures Shaped(w, Plain(n.links[k].node), h - 1) && !Empty(Plain(n.links[k].node))
      {
        PlainKeeps(w, n.links[k].node, h - 1);
      }
      assert forall k :: 0 <= k < w ==> (Plain(n).links[k].Absent? <==> n.links[k].Absent?);
      assert Empty(Plain(n)) <==> Empty(n);
      assert Shaped(w, Plain(n), h);
      forall i: nat | i < Span(w, h + 1) ensures At(w, n, h, i) == At(w, Plain(n), h, i) {
        SlotOf(w, n, h, i);
        SlotOf(w, Plain(n), h, i);
        var k := Slot(Span(w, h), i);
        if !n.links[k].Absent? {
          PlainKeeps(w, n.links[k].node, h - 1);
          assert Plain(n).links[k] == ByCid(Plain(n.links[k].node));
          assert At(w, n.links[k].node, h - 1, Rest(Span(w, h), i)) == At(w, Plain(n.links[k].node), h - 1, Rest(Span(w, h), i));
        }
      }
    }
  }

  /** Nodes with the same CID hold the same. */
  lemma SameCidSameAt(w: nat, a: Node, b: Node, h: nat)
    requires w > 0 && Shaped(w, a, h) && Shaped(w, b, h) && Plain(a) == Plain(b)
    ensures SameAt(w, a, b, h)
  {
    PlainKeeps(w, a, h);
    PlainKeeps(w, b, h);
    forall i: nat | i < Span(w, h + 1) ensures At(w, a, h, i) == At(w, b, h, i) {
      assert At(w, a, h, i) == At(w, Plain(a), h, i) && At(w, b, h, i) == At(w, Plain(b), h, i);
    }
  }

  /** A tree that is higher than zero needs its height. */
  lemma HeightNeeded(w: nat, n: Node, h: nat) returns (i: nat)
    requires w > 0 && h > 0 && Canonical(w, n, h)
    ensures Span(w, h) <= i < Span(w, h + 1) && At(w, n, h, i).Some?
  {
    var k :| 1 <= k < w && !n.links[k].Absent?;
    var r := HoldsSomething(w, n.links[k].node, h - 1);
    AtSlot(w, n, h, k, r);
    i := Times(k, Span(w, h)) + r;
    TimesMonotone(1, k, Span(w, h));
  }

  lemma TallerHoldsMore(w: nat, n: Node, h: nat, lower: nat) returns (i: nat)
    requires w > 0 && h > lower && Canonical(w, n, h)
    ensures i >= Span(w, lower + 1) && Find(w, n, h, i).Some?
  {
    i := HeightNeeded(w, n, h);
    SpanMonotone(w, lower + 1, h);
  }

  /** Two canonical trees with the same contents are the same tree: the CID of an AMT is a function of
      what it holds. */
  lemma CanonicalUnique(w: nat, a: Node, ha: nat, b: Node, hb: nat)
    requires w > 0 && Canonical(w, a, ha) && Canonical(w, b, hb)
    requires forall i: nat :: Find(w, a, ha, i) == Find(w, b, hb, i)
    ensures ha == hb && Plain(a) == Plain(b)
  {
    if ha > hb {
      var i := TallerHoldsMore(w, a, ha, hb);
    } else if hb > ha {
      var i := TallerHoldsMore(w, b, hb, ha);
    } else {
      forall i: nat | i < Span(w, ha + 1) ensures At(w, a, ha, i) == At(w, b, ha, i) {
        assert Find(w, a, ha, i) == Find(w, b, hb, i);
      }
      ShapeUnique(w, a, b, ha);
    }
  }
}
