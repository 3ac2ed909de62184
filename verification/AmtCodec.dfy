/** How AMT nodes are written and read (`ipld/amt/src/node.rs`): a bitmap of the occupied slots, least
    significant bit first, and what is in them. */
module AmtCodec {
  import opened Common
  import opened BitStrings
  import opened AmtForm

  // ---------------------------------------------------------------- bits of a byte

  /** `x & (1 << k) != 0`. */
  predicate TestBit(x: nat, k: nat) {
    if k == 0 then x % 2 == 1 else TestBit(x / 2, k - 1)
  }

  /** `x | (1 << k)`. */
  function SetBit(x: nat, k: nat): nat {
    if k == 0 then 2 * (x / 2) + 1 else 2 * SetBit(x / 2, k - 1) + x % 2
  }

  lemma {:induction false} SetBitTests(x: nat, k: nat, j: nat)
    ensures TestBit(SetBit(x, k), j) <==> j == k || TestBit(x, j)
  {
    if k > 0 && j > 0 {
      SetBitTests(x / 2, k - 1, j - 1);
    }
  }

  lemma Halves(x: nat, p: nat)
    requires x < 2 * p
    ensures x / 2 < p && 2 * (x / 2) + 1 < 2 * p
  {
  }

  lemma Doubles(y: nat, b: nat, p: nat)
    requires y < p && b < 2
    ensures 2 * y + b < 2 * p
  {
  }

  lemma {:induction false} SetBitFits(x: nat, k: nat, n: nat)
    requires x < Pow2(n) && k < n
    ensures SetBit(x, k) < Pow2(n)
  {
    Halves(x, Pow2(n - 1));
    if k > 0 {
      SetBitFits(x / 2, k - 1, n - 1);
      Doubles(SetBit(x / 2, k - 1), x % 2, Pow2(n - 1));
    }
  }

  lemma {:induction false} ZeroHasNoBits(k: nat)
    ensures !TestBit(0, k)
  {
    if k > 0 {
      ZeroHasNoBits(k - 1);
    }
  }

  /** Bit `j` of the bitmap. */
  predicate BitAt(bmap: seq<Byte>, j: nat)
    requires j < 8 * |bmap|
  {
    TestBit(bmap[j / 8], j % 8)
  }

  // ---------------------------------------------------------------- slots

  /** What is in the occupied slots, in order. */
  ghost function Packed<T>(slots: seq<Option<T>>): seq<T>
    decreases |slots|
  {
    if slots == [] then []
    else
      var n := |slots| - 1;
      Packed(slots[..n]) + (if slots[n].Some? then [slots[n].value] else [])
  }

  /** The bitmap has exactly the bits of the occupied slots among the first `n`. */
  ghost predicate Marks<T>(bmap: seq<Byte>, slots: seq<Option<T>>, n: nat)
    requires n <= |slots| <= 8 * |bmap|
  {
    forall j :: 0 <= j < |slots| ==> (BitAt(bmap, j) <==> j < n && slots[j].Some?)
  }

  function BmapBytes(bitWidth: nat): nat {
    if bitWidth <= 3 then 1 else Pow2(bitWidth - 3)
  }

  lemma BmapCovers(bitWidth: nat)
    ensures Pow2(bitWidth) <= 8 * BmapBytes(bitWidth)
    ensures (Pow2(bitWidth) - 1) / 8 + 1 == BmapBytes(bitWidth)
  {
    if bitWidth <= 3 {
      SmallWidth(bitWidth);
      OneByte(Pow2(bitWidth));
    } else {
      LargeWidth(bitWidth, bitWidth - 3);
    }
  }

  lemma SmallWidth(n: nat)
    requires n <= 3
    ensures 1 <= Pow2(n) <= 8
  {
    if n < 3 {
      Pow2Monotone(n, 3);
    }
    Pow2Table();
  }

  lemma LargeWidth(bitWidth: nat, n: nat)
    requires bitWidth == n + 3
    ensures Pow2(bitWidth) == 8 * Pow2(n) && (Pow2(bitWidth) - 1) / 8 + 1 == Pow2(n)
  {
    EightTimes(n);
    DivEight(Pow2(n));
  }

  lemma OneByte(p: nat)
    requires 1 <= p <= 8
    ensures (p - 1) / 8 + 1 == 1
  {
  }

  lemma EightTimes(n: nat)
    ensures Pow2(n + 3) == 8 * Pow2(n)
  {
    assert Pow2(n + 1) == 2 * Pow2(n);
    assert Pow2(n + 2) == 2 * Pow2(n + 1);
  }

  lemma DivEight(q: nat)
    requires q >= 1
    ensures (8 * q - 1) / 8 + 1 == q
  {
  }

  lemma MarkOne<T>(bmap: seq<Byte>, slots: seq<Option<T>>, i: nat)
    requires i < |slots| <= 8 * |bmap| && Marks(bmap, slots, i)
    ensures SetBit(bmap[i / 8], i % 8) < 256
    ensures Marks(if slots[i].Some? then bmap[i / 8 := SetBit(bmap[i / 8], i % 8)] else bmap, slots, i + 1)
  {
    Pow2Table();
    SetBitFits(bmap[i / 8], i % 8, 8);
    if slots[i].Some? {
      var after := bmap[i / 8 := SetBit(bmap[i / 8], i % 8)];
      forall j | 0 <= j < |slots| ensures BitAt(after, j) <==> j < i + 1 && slots[j].Some? {
        assert BitAt(bmap, j) <==> j < i && slots[j].Some?;
        if j / 8 == i / 8 {
          SetBitTests(bmap[i / 8], i % 8, j % 8);
        }
      }
    }
  }

  /** Writes slots: the bitmap, and what is in them in order. */
  method Collapse<T>(slots: seq<Option<T>>) returns (bmap: seq<Byte>, items: seq<T>)
    ensures |bmap| == (if slots == [] then 0 else (|slots| - 1) / 8) + 1
    ensures |slots| <= 8 * |bmap| && Marks(bmap, slots, |slots|) && items == Packed(slots)
  {
    var size := if |slots| == 0 then 0 else |slots| - 1;
    bmap := seq(size / 8 + 1, _ => 0);
    items := [];
    forall j | 0 <= j < |slots| ensures !BitAt(bmap, j) {
      assert bmap[j / 8] == 0;
      ZeroHasNoBits(j % 8);
    }
    for i := 0 to |slots|
      invariant |bmap| == size / 8 + 1 && |slots| <= 8 * |bmap|
      invariant Marks(bmap, slots, i) && items == Packed(slots[..i])
    {
      assert slots[..i + 1][..i] == slots[..i];
      MarkOne(bmap, slots, i);
      if slots[i].Some? {
        items := items + [slots[i].value];
        bmap := bmap[i / 8 := SetBit(bmap[i / 8], i % 8)];
      }
    }
    assert slots[..|slots|] == slots;
  }

  /** How many of the first `n` bits are set. */
  ghost function Count(bits: seq<bool>, n: nat): nat
    requires n <= |bits|
  {
    if n == 0 then 0 else Count(bits, n - 1) + (if bits[n - 1] then 1 else 0)
  }

  lemma {:induction false} CountGrows(bits: seq<bool>, i: nat, n: nat)
    requires i <= n <= |bits|
    ensures Count(bits, i) <= Count(bits, n)
  {
    if i < n {
      CountGrows(bits, i, n - 1);
    }
  }

  function BitsOfMap(bmap: seq<Byte>, n: nat): (bits: seq<bool>)
    requires n <= 8 * |bmap|
    ensures |bits| == n && forall j :: 0 <= j < n ==> (bits[j] <==> BitAt(bmap, j))
  {
    seq(n, j requires 0 <= j < n => BitAt(bmap, j))
  }

  lemma PackedNext<T>(slots: seq<Option<T>>, s: Option<T>)
    ensures Packed(slots + [s]) == Packed(slots) + (if s.Some? then [s.value] else [])
  {
    assert (slots + [s])[..|slots|] == slots;
  }

  /** The loop over the slots: a set bit takes the next item. */
  method ExpandBits<T>(bits: seq<bool>, items: seq<T>) returns (r: Result<seq<Option<T>>, IpldError>)
    ensures r.Ok? <==> Count(bits, |bits|) == |items|
    ensures r.Ok? ==> |r.value| == |bits| && Packed(r.value) == items
    ensures r.Ok? ==> forall j :: 0 <= j < |bits| ==> (bits[j] <==> r.value[j].Some?)
  {
    var slots: seq<Option<T>> := [];
    var next := 0;
    while |slots| < |bits|
      invariant |slots| <= |bits| && next == Count(bits, |slots|) <= |items|
      invariant forall j :: 0 <= j < |slots| ==> (bits[j] <==> slots[j].Some?)
      invariant Packed(slots) == items[..next]
    {
      var i := |slots|;
      CountGrows(bits, i + 1, |bits|);
      if bits[i] {
        if next >= |items| {
          return Err(Malformed);
        }
        PackedNext(slots, Some(items[next]));
        slots := slots + [Some(items[next])];
        next := next + 1;
      } else {
        PackedNext(slots, None);
        slots := slots + [None];
      }
    }
    if next < |items| {
      return Err(Malformed);
    }
    assert items[..next] == items;
    return Ok(slots);
  }

  ghost predicate Countable(bitWidth: nat, bmap: seq<Byte>, n: nat) {
    && |bmap| == BmapBytes(bitWidth) && Pow2(bitWidth) <= 8 * |bmap|
    && Count(BitsOfMap(bmap, Pow2(bitWidth)), Pow2(bitWidth)) == n
  }

  /** Reads slots back. It works exactly if the bitmap is as long as it has to be and has as many bits
      set as there are items; then the slots are those that are written as the bitmap and the items. */
  method Expand<T>(bitWidth: nat, bmap: seq<Byte>, items: seq<T>) returns (r: Result<seq<Option<T>>, IpldError>)
    ensures r.Ok? <==> Countable(bitWidth, bmap, |items|)
    ensures r.Ok? ==> |r.value| == Pow2(bitWidth) && Marks(bmap, r.value, |r.value|) && Packed(r.value) == items
  {
    BmapCovers(bitWidth);
    if BmapBytes(bitWidth) != |bmap| {
      return Err(Malformed);
    }
    r := ExpandBits(BitsOfMap(bmap, Pow2(bitWidth)), items);
  }

  /** Slots are determined by the bitmap and the items. */
  lemma {:induction false} PackedUnique<T>(a: seq<Option<T>>, b: seq<Option<T>>)
    requires |a| == |b| && Packed(a) == Packed(b)
    requires forall j :: 0 <= j < |a| ==> (a[j].Some? <==> b[j].Some?)
    ensures a == b
    decreases |a|
  {
    if a != [] {
      var n := |a| - 1;
      var pa, pb := Packed(a[..n]), Packed(b[..n]);
      if a[n].Some? {
        assert (pa + [a[n].value])[|pa|] == (pb + [b[n].value])[|pb|];
        assert (pa + [a[n].value])[..|pa|] == pa && (pb + [b[n].value])[..|pb|] == pb;
      } else {
        assert pa + [] == pa && pb + [] == pb;
      }
      PackedUnique(a[..n], b[..n]);
      assert a == a[..n] + [a[n]] && b == b[..n] + [b[n]];
    }
  }

  lemma {:induction false} CountIsPacked<T>(bits: seq<bool>, slots: seq<Option<T>>, n: nat)
    requires n <= |slots| == |bits| && forall j :: 0 <= j < |bits| ==> (bits[j] <==> slots[j].Some?)
    ensures Count(bits, n) == |Packed(slots[..n])|
  {
    if n > 0 {
      CountIsPacked(bits, slots, n - 1);
      assert slots[..n][..n - 1] == slots[..n - 1];
    }
  }

  // ---------------------------------------------------------------- nodes

  datatype CollapsedNode = CollapsedNode(bmap: seq<Byte>, links: seq<Node>, values: seq<Value>)

  function LinkSlot(l: Link): Option<Node> {
    if l.Absent? then None else Some(l.node)
  }

  function SlotLink(s: Option<Node>): Link {
    if s.None? then Absent else ByCid(s.value)
  }

  /** A node whose links are all by CID is written as it is; one with changes below it is not written. */
  method WriteNode(n: Node) returns (r: Result<CollapsedNode, IpldError>)
    ensures r.Ok? <==> n.Leaf? || forall k :: 0 <= k < |n.links| ==> !n.links[k].Dirty?
    ensures r.Ok? && n.Leaf? ==> r.value.links == [] && r.value.values == Packed(n.vals)
                                 && |n.vals| <= 8 * |r.value.bmap| && Marks(r.value.bmap, n.vals, |n.vals|)
    ensures r.Ok? && n.Links? ==>
              var slots := seq(|n.links|, k requires 0 <= k < |n.links| => LinkSlot(n.links[k]));
              && r.value.values == [] && r.value.links == Packed(slots)
              && |slots| <= 8 * |r.value.bmap| && Marks(r.value.bmap, slots, |slots|)
    ensures r.Ok? ==> var size := if n.Leaf? then |n.vals| else |n.links|;
                      |r.value.bmap| == (if size == 0 then 0 else (size - 1) / 8) + 1
  {
    match n {
      case Leaf(vals) =>
        var bmap, items := Collapse(vals);
        return Ok(CollapsedNode(bmap, [], items));
      case Links(links) =>
        if exists k :: 0 <= k < |links| && links[k].Dirty? {
          return Err(Malformed);
        }
        var slots := seq(|links|, k requires 0 <= k < |links| => LinkSlot(links[k]));
        var bmap, items := Collapse(slots);
        return Ok(CollapsedNode(bmap, items, []));
    }
  }

  /** The bitmap has the right length, and as many bits set as there are links or values. */
  ghost predicate Readable(bitWidth: nat, c: CollapsedNode) {
    (c.links == [] || c.values == []) && Countable(bitWidth, c.bmap, |c.links| + |c.values|)
  }

  /** `CollapsedNode::expand`: whether it is a link node is told by its having links. */
  method ReadNode(bitWidth: nat, c: CollapsedNode) returns (r: Result<Node, IpldError>)
    ensures c.links != [] && c.values != [] ==> r.Err?
    ensures r.Ok? ==> |c.bmap| == BmapBytes(bitWidth) && Pow2(bitWidth) <= 8 * |c.bmap|
    ensures r.Ok? && c.links == [] ==> r.value.Leaf? && |r.value.vals| == Pow2(bitWidth)
                                       && Marks(c.bmap, r.value.vals, |r.value.vals|) && Packed(r.value.vals) == c.values
    ensures r.Ok? && c.links != [] ==>
              && r.value.Links? && |r.value.links| == Pow2(bitWidth)
              && (forall k :: 0 <= k < |r.value.links| ==> !r.value.links[k].Dirty?)
              && var slots := seq(|r.value.links|, k requires 0 <= k < |r.value.links| => LinkSlot(r.value.links[k]));
                 Marks(c.bmap, slots, |slots|) && Packed(slots) == c.links
    ensures Readable(bitWidth, c) ==> r.Ok?
  {
    if c.links != [] && c.values != [] {
      return Err(Malformed);
    }
    if c.links != [] {
      var slots := Expand(bitWidth, c.bmap, c.links);
      if slots.Err? {
        return Err(slots.error);
      }
      var links := seq(|slots.value|, k requires 0 <= k < |slots.value| => SlotLink(slots.value[k]));
      assert seq(|links|, k requires 0 <= k < |links| => LinkSlot(links[k])) == slots.value;
      return Ok(Links(links));
    }
    var slots := Expand(bitWidth, c.bmap, c.values);
    if slots.Err? {
      return Err(slots.error);
    }
    return Ok(Leaf(slots.value));
  }

  /** A node that is written and read is the same node, unless it is a link node without links: that
      one comes back as a leaf. */
  method RoundTrip(bitWidth: nat, n: Node) returns (r: Result<Node, IpldError>)
    requires Plain(n) == n && (if n.Leaf? then |n.vals| else |n.links|) == Pow2(bitWidth)
    ensures r.Ok?
    ensures r.value == n <==> n.Leaf? || !Empty(n)
  {
    var written := WriteFlushed(n);
    BmapCovers(bitWidth);
    ghost var slots := if n.Links? then seq(|n.links|, k requires 0 <= k < |n.links| => LinkSlot(n.links[k])) else [];
    if n.Leaf? {
      CountAll(written.bmap, n.vals);
    } else {
      CountAll(written.bmap, slots);
      PackedEmpty(slots);
      assert forall k :: 0 <= k < |slots| ==> (slots[k].None? <==> n.links[k].Absent?);
      assert Empty(n) ==> written.links == [];
      assert written.links == [] ==> Empty(n) by {
        if written.links == [] {
          forall k | 0 <= k < |n.links| ensures n.links[k].Absent? {
            assert slots[k].None?;
          }
        }
      }
    }
    assert Readable(bitWidth, written);
    r := ReadNode(bitWidth, written);
    if n.Leaf? {
      PackedUnique(r.value.vals, n.vals);
    } else if written.links != [] {
      LinksBack(n, r.value);
    }
  }

  lemma CountAll<T>(bmap: seq<Byte>, slots: seq<Option<T>>)
    requires |slots| <= 8 * |bmap| && Marks(bmap, slots, |slots|)
    ensures Count(BitsOfMap(bmap, |slots|), |slots|) == |Packed(slots)|
  {
    CountIsPacked(BitsOfMap(bmap, |slots|), slots, |slots|);
    assert slots[..|slots|] == slots;
  }

  method WriteFlushed(n: Node) returns (c: CollapsedNode)
    requires Plain(n) == n
    ensures n.Leaf? ==> c.links == [] && c.values == Packed(n.vals)
                        && |n.vals| <= 8 * |c.bmap| && Marks(c.bmap, n.vals, |n.vals|)
    ensures n.Links? ==>
              var slots := seq(|n.links|, k requires 0 <= k < |n.links| => LinkSlot(n.links[k]));
              && c.values == [] && c.links == Packed(slots)
              && |slots| <= 8 * |c.bmap| && Marks(c.bmap, slots, |slots|)
    ensures var size := if n.Leaf? then |n.vals| else |n.links|;
            |c.bmap| == (if size == 0 then 0 else (size - 1) / 8) + 1
  {
    assert n.Links? ==> forall k :: 0 <= k < |n.links| ==> n.links[k] == PlainLink(n.links[k]) by {
      if n.Links? {
        forall k | 0 <= k < |n.links| ensures n.links[k] == PlainLink(n.links[k]) {
          assert Plain(n).links[k] == PlainLink(n.links[k]);
        }
      }
    }
    var r := WriteNode(n);
    c := r.value;
  }

  lemma {:induction false} PackedEmpty<T>(slots: seq<Option<T>>)
    ensures Packed(slots) == [] <==> forall k :: 0 <= k < |slots| ==> slots[k].None?
    decreases |slots|
  {
    if slots != [] {
      var n := |slots| - 1;
      PackedEmpty(slots[..n]);
      assert forall k :: 0 <= k < n ==> slots[..n][k] == slots[k];
    }
  }

  lemma LinksBack(n: Node, back: Node)
    requires n.Links? && Plain(n) == n && back.Links? && |back.links| == |n.links|
    requires forall k :: 0 <= k < |back.links| ==> !back.links[k].Dirty?
    requires var a := seq(|n.links|, k requires 0 <= k < |n.links| => LinkSlot(n.links[k]));
             var b := seq(|back.links|, k requires 0 <= k < |back.links| => LinkSlot(back.links[k]));
             && Packed(a) == Packed(b) && forall j :: 0 <= j < |a| ==> (a[j].Some? <==> b[j].Some?)
    ensures back == n
  {
    var a := seq(|n.links|, k requires 0 <= k < |n.links| => LinkSlot(n.links[k]));
    var b := seq(|back.links|, k requires 0 <= k < |back.links| => LinkSlot(back.links[k]));
    PackedUnique(a, b);
    forall k | 0 <= k < |n.links| ensures n.links[k] == back.links[k] {
      assert Plain(n).links[k] == PlainLink(n.links[k]);
      assert a[k] == b[k];
    }
    assert n.links == back.links;
  }
}
