/** The structural diff of two AMTs (`ipld/amt/src/diff.rs`). */
module AmtDiff {
  import opened Common
  import opened BitStrings
  import opened AmtForm
  import opened AmtIter
  import opened Amt

  datatype Change = Change(key: nat, before: Option<Value>, after: Option<Value>)

  /** One side of a comparison: a node, or nothing. */
  datatype Side = Nothing | Tree(node: Node, h: nat)

  ghost predicate SideOk(w: nat, s: Side) {
    w > 0 && (s.Tree? ==> Shaped(w, s.node, s.h))
  }

  ghost function Val(w: nat, s: Side, j: nat): Option<Value>
    requires SideOk(w, s)
  {
    if s.Nothing? then None else Find(w, s.node, s.h, j)
  }

  // ---------------------------------------------------------------- what a diff has to say

  /** A change is listed exactly if there is one. */
  ghost predicate Reports(changes: seq<Change>, i: nat, before: Option<Value>, after: Option<Value>) {
    if before != after then Change(i, before, after) in changes
    else forall k :: 0 <= k < |changes| ==> changes[k].key != i
  }

  ghost predicate InOrder(changes: seq<Change>, low: nat, high: nat) {
    && (forall i, j :: 0 <= i < j < |changes| ==> changes[i].key < changes[j].key)
    && (forall i :: 0 <= i < |changes| ==> low <= changes[i].key < high)
  }

  /** The changes are those between the two sides at indices from `low` to `high`. */
  ghost predicate Covers(w: nat, changes: seq<Change>, base: nat, low: nat, high: nat, prev: Side, curr: Side)
    requires SideOk(w, prev) && SideOk(w, curr)
  {
    && InOrder(changes, base + low, base + high)
    && forall j: nat :: low <= j < high ==> Reports(changes, base + j, Val(w, prev, j), Val(w, curr, j))
  }

  lemma ReportsConcat(a: seq<Change>, b: seq<Change>, low: nat, mid: nat, high: nat, i: nat,
                      before: Option<Value>, after: Option<Value>)
    requires InOrder(a, low, mid) && InOrder(b, mid, high)
    requires if i < mid then Reports(a, i, before, after) else Reports(b, i, before, after)
    ensures Reports(a + b, i, before, after)
  {
    if before == after {
      forall k | 0 <= k < |a + b| ensures (a + b)[k].key != i {
        if k >= |a| {
          assert (a + b)[k] == b[k - |a|];
        }
      }
    }
  }

  lemma CoversConcat(w: nat, a: seq<Change>, b: seq<Change>, base: nat, low: nat, mid: nat, high: nat, prev: Side, curr: Side)
    requires SideOk(w, prev) && SideOk(w, curr) && low <= mid <= high
    requires Covers(w, a, base, low, mid, prev, curr) && Covers(w, b, base, mid, high, prev, curr)
    ensures Covers(w, a + b, base, low, high, prev, curr)
  {
    forall j: nat | low <= j < high ensures Reports(a + b, base + j, Val(w, prev, j), Val(w, curr, j)) {
      ReportsConcat(a, b, base + low, base + mid, base + high, base + j, Val(w, prev, j), Val(w, curr, j));
    }
  }

  /** What `part` has at an index is what `whole` has, `at` further on. */
  ghost predicate Part(w: nat, part: Side, whole: Side, at: nat, s: nat)
    requires SideOk(w, part) && SideOk(w, whole)
  {
    forall r: nat :: r < s ==> Val(w, part, r) == Val(w, whole, at + r)
  }

  /** Changes below a slot are changes of the node. */
  lemma CoversShift(w: nat, changes: seq<Change>, base: nat, at: nat, s: nat, p: Side, c: Side, prev: Side, curr: Side)
    requires SideOk(w, p) && SideOk(w, c) && SideOk(w, prev) && SideOk(w, curr)
    requires Covers(w, changes, base + at, 0, s, p, c) && Part(w, p, prev, at, s) && Part(w, c, curr, at, s)
    ensures Covers(w, changes, base, at, at + s, prev, curr)
  {
    forall j: nat | at <= j < at + s ensures Reports(changes, base + j, Val(w, prev, j), Val(w, curr, j)) {
      var r := j - at;
      assert Val(w, p, r) == Val(w, prev, at + r) && Val(w, c, r) == Val(w, curr, at + r);
      assert Reports(changes, base + at + r, Val(w, p, r), Val(w, c, r));
    }
  }

  ghost function SlotSide(l: Link, g: nat): Side {
    if l.Absent? then Nothing else Tree(l.node, g)
  }

  /** What a node has at a slot is what lies below the slot. */
  lemma SlotVals(w: nat, n: Node, h: nat, k: nat, side: Side)
    requires w > 0 && h > 0 && Shaped(w, n, h) && k < w && side == SlotSide(n.links[k], h - 1)
    ensures SideOk(w, side) && Part(w, side, Tree(n, h), Times(k, Span(w, h)), Span(w, h))
  {
    assert ShapedSlot(w, n.links[k], h);
    forall r: nat | r < Span(w, h) ensures Val(w, side, r) == Val(w, Tree(n, h), Times(k, Span(w, h)) + r) {
      SlotVal(w, n, h, k, side, r);
    }
  }

  lemma SlotVal(w: nat, n: Node, h: nat, k: nat, side: Side, r: nat)
    requires w > 0 && h > 0 && Shaped(w, n, h) && k < w && side == SlotSide(n.links[k], h - 1)
    requires SideOk(w, side) && r < Span(w, h)
    ensures Val(w, side, r) == Val(w, Tree(n, h), Times(k, Span(w, h)) + r)
  {
    AtSlot(w, n, h, k, r);
    if !n.links[k].Absent? {
      FindIn(w, n.links[k].node, h - 1, r);
    }
    FindIn(w, n, h, Times(k, Span(w, h)) + r);
  }

  lemma FindIn(w: nat, n: Node, h: nat, i: nat)
    requires w > 0 && Shaped(w, n, h) && i < Span(w, h + 1)
    ensures Find(w, n, h, i) == At(w, n, h, i)
  {
  }

  /** A lower tree has nothing beyond the first slot of a higher one. */
  lemma LowerVals(w: nat, n: Node, low: nat, h: nat, k: nat)
    requires w > 0 && Shaped(w, n, low) && low < h
    ensures Part(w, if k == 0 then Tree(n, low) else Nothing, Tree(n, low), Times(k, Span(w, h)), Span(w, h))
  {
    if k == 0 {
      assert Times(0, Span(w, h)) == 0;
      SamePart(w, Tree(n, low), Span(w, h));
    } else {
      SpanMonotone(w, low + 1, h);
      TimesMonotone(1, k, Span(w, h));
      assert Times(1, Span(w, h)) == Span(w, h);
      NothingBeyond(w, n, low, Times(k, Span(w, h)), Span(w, h));
    }
  }

  lemma SamePart(w: nat, side: Side, s: nat)
    requires SideOk(w, side)
    ensures Part(w, side, side, 0, s)
  {
    forall r: nat | r < s ensures Val(w, side, r) == Val(w, side, 0 + r) {
    }
  }

  lemma NothingBeyond(w: nat, n: Node, low: nat, at: nat, s: nat)
    requires w > 0 && Shaped(w, n, low) && at >= Span(w, low + 1)
    ensures Part(w, Nothing, Tree(n, low), at, s)
  {
  }

  // ---------------------------------------------------------------- range of indices

  /** All indices that the side holds, counted from `base`, are indices of an AMT. */
  ghost predicate Fits(w: nat, s: Side, base: nat)
    requires SideOk(w, s)
  {
    forall j: nat :: Val(w, s, j).Some? ==> base + j <= MAX_INDEX
  }

  /** The offset of a slot that holds something does not overflow, and saturation does not touch it. */
  lemma SlotFits(bitWidth: nat, n: Node, h: nat, base: nat, k: nat)
    requires h > 0 && Shaped(Pow2(bitWidth), n, h) && k < Pow2(bitWidth) && !n.links[k].Absent?
    requires Fits(Pow2(bitWidth), Tree(n, h), base)
    ensures SideOk(Pow2(bitWidth), Tree(n.links[k].node, h - 1))
    ensures Fits(Pow2(bitWidth), Tree(n.links[k].node, h - 1), base + Times(k, Span(Pow2(bitWidth), h)))
    ensures base + Times(k, Span(Pow2(bitWidth), h)) <= MAX_INDEX
    ensures NodesForHeight(bitWidth, h) * k == Times(k, Span(Pow2(bitWidth), h))
  {
    var w := Pow2(bitWidth);
    var child := Tree(n.links[k].node, h - 1);
    SlotVals(w, n, h, k, child);
    forall j: nat | Val(w, child, j).Some? ensures base + Times(k, Span(w, h)) + j <= MAX_INDEX {
      assert j < Span(w, h);
      assert Val(w, child, j) == Val(w, Tree(n, h), Times(k, Span(w, h)) + j);
    }
    var r := HoldsSomething(w, n.links[k].node, h - 1);
    assert Val(w, child, r).Some?;
    SaturationIsHarmless(bitWidth, h, 0);
    TimesIs(k, NodesForHeight(bitWidth, h));
    if k > 0 {
      TimesMonotone(1, k, Span(w, h));
    }
  }

  lemma FitsAll(w: nat, n: Node, h: nat, base: nat)
    requires w > 0 && Shaped(w, n, h) && Fits(w, Tree(n, h), base)
    ensures forall j: nat :: j < Span(w, h + 1) && At(w, n, h, j).Some? ==> base + j <= MAX_INDEX
  {
    forall j: nat | j < Span(w, h + 1) && At(w, n, h, j).Some? ensures base + j <= MAX_INDEX {
      assert Val(w, Tree(n, h), j).Some?;
    }
  }

  // ---------------------------------------------------------------- one-sided diffs

  function ChangeOf(added: bool, item: Item): Change {
    if added then Change(item.0, None, Some(item.1)) else Change(item.0, Some(item.1), None)
  }

  /** `add_all` and `remove_all`: everything in the node has come, or gone. */
  method OneSided(added: bool, bitWidth: nat, n: Node, h: nat, base: nat) returns (changes: seq<Change>)
    requires Shaped(Pow2(bitWidth), n, h) && base <= MAX_INDEX && Fits(Pow2(bitWidth), Tree(n, h), base)
    ensures Covers(Pow2(bitWidth), changes, base, 0, Span(Pow2(bitWidth), h + 1),
                   if added then Nothing else Tree(n, h), if added then Tree(n, h) else Nothing)
  {
    ghost var w := Pow2(bitWidth);
    FitsAll(w, n, h, base);
    var items := CollectAll(n, bitWidth, h, base);
    changes := [];
    while |changes| < |items|
      invariant |changes| <= |items|
      invariant forall i :: 0 <= i < |changes| ==> changes[i] == ChangeOf(added, items[i])
    {
      changes := changes + [ChangeOf(added, items[|changes|])];
    }
    OneSidedCovers(w, n, h, base, items, added, changes);
  }

  lemma OneSidedCovers(w: nat, n: Node, h: nat, base: nat, items: seq<Item>, added: bool, changes: seq<Change>)
    requires w > 0 && Shaped(w, n, h)
    requires Ascending(items) && Within(items, base, base + Span(w, h + 1))
    requires forall j: nat :: j < Span(w, h + 1) ==> Listed(items, base + j, At(w, n, h, j))
    requires |changes| == |items| && forall i :: 0 <= i < |changes| ==> changes[i] == ChangeOf(added, items[i])
    ensures Covers(w, changes, base, 0, Span(w, h + 1),
                   if added then Nothing else Tree(n, h), if added then Tree(n, h) else Nothing)
  {
    forall j: nat | j < Span(w, h + 1)
      ensures Reports(changes, base + j, if added then None else At(w, n, h, j), if added then At(w, n, h, j) else None)
    {
      assert Listed(items, base + j, At(w, n, h, j));
      var v := At(w, n, h, j);
      if v.Some? {
        var i :| 0 <= i < |items| && items[i] == (base + j, v.value);
        assert changes[i] == ChangeOf(added, (base + j, v.value));
      }
    }
  }

  // ---------------------------------------------------------------- two-sided diffs

  /** `diff_leaves`. */
  method DiffLeaves(w: nat, prev: Node, curr: Node, base: nat) returns (changes: seq<Change>)
    requires w > 0 && Shaped(w, prev, 0) && Shaped(w, curr, 0)
    ensures Covers(w, changes, base, 0, Span(w, 1), Tree(prev, 0), Tree(curr, 0))
  {
    SpanOne(w);
    changes := [];
    var i := 0;
    while i < |prev.vals|
      invariant i <= w && Covers(w, changes, base, 0, i, Tree(prev, 0), Tree(curr, 0))
    {
      var one := if prev.vals[i] == curr.vals[i] then [] else [Change(base + i, prev.vals[i], curr.vals[i])];
      OneValue(w, prev, curr, base, i, one);
      CoversConcat(w, changes, one, base, 0, i, i + 1, Tree(prev, 0), Tree(curr, 0));
      changes := changes + one;
      i := i + 1;
    }
  }

  lemma OneValue(w: nat, prev: Node, curr: Node, base: nat, i: nat, one: seq<Change>)
    requires w > 0 && Shaped(w, prev, 0) && Shaped(w, curr, 0) && i < w
    requires one == if prev.vals[i] == curr.vals[i] then [] else [Change(base + i, prev.vals[i], curr.vals[i])]
    ensures Covers(w, one, base, i, i + 1, Tree(prev, 0), Tree(curr, 0))
  {
    SpanOne(w);
    assert Val(w, Tree(prev, 0), i) == prev.vals[i] && Val(w, Tree(curr, 0), i) == curr.vals[i];
  }

  /** The links at slot 0 lead from height `h` down to height `low`. */
  ghost predicate Spine(w: nat, n: Node, h: nat, low: nat)
    requires w > 0 && Shaped(w, n, h)
  {
    h <= low || (!n.links[0].Absent? && Spine(w, n.links[0].node, h - 1, low))
  }

  /** The part of a lower tree that the diff gets to see. */
  ghost function Seen(w: nat, n: Node, h: nat, lower: Node, low: nat): Side
    requires w > 0 && Shaped(w, n, h)
  {
    if Spine(w, n, h, low) then Tree(lower, low) else Nothing
  }

  function Max(a: nat, b: nat): nat {
    if a < b then b else a
  }

  /** `diff_node`. Of the lower tree it sees everything if the higher one has a spine, and nothing
      otherwise; what it sees it reports exactly. */
  method DiffNode(bitWidth: nat, prev: Node, hp: nat, curr: Node, hc: nat, base: nat) returns (changes: seq<Change>)
    requires Shaped(Pow2(bitWidth), prev, hp) && Shaped(Pow2(bitWidth), curr, hc) && base <= MAX_INDEX
    requires Fits(Pow2(bitWidth), Tree(prev, hp), base) && Fits(Pow2(bitWidth), Tree(curr, hc), base)
    ensures Covers(Pow2(bitWidth), changes, base, 0, Span(Pow2(bitWidth), Max(hp, hc) + 1),
                   Seen(Pow2(bitWidth), curr, hc, prev, hp), Seen(Pow2(bitWidth), prev, hp, curr, hc))
    decreases hp + hc, 1
  {
    if hp == 0 && hc == 0 {
      changes := DiffLeaves(Pow2(bitWidth), prev, curr, base);
    } else if hc > hp {
      changes := DiffHigher(true, bitWidth, curr, hc, prev, hp, base);
    } else if hc < hp {
      changes := DiffHigher(false, bitWidth, prev, hp, curr, hc, base);
    } else {
      changes := DiffLinks(bitWidth, prev, curr, hp, base);
    }
  }

  /** The loop over the links of the higher tree: `added` tells whether it is the current one. */
  method DiffHigher(added: bool, bitWidth: nat, n: Node, h: nat, lower: Node, low: nat, base: nat)
    returns (changes: seq<Change>)
    requires Shaped(Pow2(bitWidth), n, h) && Shaped(Pow2(bitWidth), lower, low) && low < h && base <= MAX_INDEX
    requires Fits(Pow2(bitWidth), Tree(n, h), base) && Fits(Pow2(bitWidth), Tree(lower, low), base)
    ensures var seen := Seen(Pow2(bitWidth), n, h, lower, low);
            Covers(Pow2(bitWidth), changes, base, 0, Span(Pow2(bitWidth), h + 1),
                   if added then seen else Tree(n, h), if added then Tree(n, h) else seen)
    decreases low + h, 0
  {
    ghost var w, s := Pow2(bitWidth), Span(Pow2(bitWidth), h);
    ghost var seen := Seen(w, n, h, lower, low);
    ghost var p, c := if added then seen else Tree(n, h), if added then Tree(n, h) else seen;
    changes := [];
    var k := 0;
    while k < |n.links|
      invariant k <= w && Covers(w, changes, base, 0, Times(k, s), p, c)
    {
      var sub := HigherSlot(added, bitWidth, n, h, lower, low, base, k);
      CoversConcat(w, changes, sub, base, 0, Times(k, s), Times(k + 1, s), p, c);
      changes := changes + sub;
      k := k + 1;
    }
  }

  /** What is seen of the lower tree lies under the first slot, and is what its child has it seen. */
  lemma LowerSeen(w: nat, n: Node, h: nat, lower: Node, low: nat, k: nat)
    requires w > 0 && low < h && Shaped(w, n, h) && Shaped(w, lower, low) && k < w
    ensures var seen := Seen(w, n, h, lower, low);
            && SideOk(w, seen)
            && Part(w, if k == 0 then seen else Nothing, seen, Times(k, Span(w, h)), Span(w, h))
            && (k == 0 ==> seen == if n.links[0].Absent? then Nothing else Seen(w, n.links[0].node, h - 1, lower, low))
  {
    LowerVals(w, lower, low, h, k);
  }

  method HigherSlot(added: bool, bitWidth: nat, n: Node, h: nat, lower: Node, low: nat, base: nat, k: nat)
    returns (changes: seq<Change>)
    requires Shaped(Pow2(bitWidth), n, h) && Shaped(Pow2(bitWidth), lower, low) && low < h && base <= MAX_INDEX
    requires Fits(Pow2(bitWidth), Tree(n, h), base) && Fits(Pow2(bitWidth), Tree(lower, low), base)
    requires k < Pow2(bitWidth)
    ensures var seen := Seen(Pow2(bitWidth), n, h, lower, low);
            Covers(Pow2(bitWidth), changes, base, Times(k, Span(Pow2(bitWidth), h)), Times(k + 1, Span(Pow2(bitWidth), h)),
                   if added then seen else Tree(n, h), if added then Tree(n, h) else seen)
    decreases low + h - 1, 4
  {
    changes := HigherBelow(added, bitWidth, n, h, lower, low, base, k);
    ghost var w, s := Pow2(bitWidth), Span(Pow2(bitWidth), h);
    ghost var seen := Seen(w, n, h, lower, low);
    ghost var slot := SlotSide(n.links[k], h - 1);
    ghost var below := if k == 0 then seen else Nothing;
    SlotVals(w, n, h, k, slot);
    LowerSeen(w, n, h, lower, low, k);
    assert Times(k + 1, s) == Times(k, s) + s;
    CoversShift(w, changes, base, Times(k, s), s, if added then below else slot, if added then slot else below,
                if added then seen else Tree(n, h), if added then Tree(n, h) else seen);
  }

  /** What lies under slot `k` of the higher node, and of the lower tree if that is the first slot. */
  method HigherBelow(added: bool, bitWidth: nat, n: Node, h: nat, lower: Node, low: nat, base: nat, k: nat)
    returns (changes: seq<Change>)
    requires Shaped(Pow2(bitWidth), n, h) && Shaped(Pow2(bitWidth), lower, low) && low < h && base <= MAX_INDEX
    requires Fits(Pow2(bitWidth), Tree(n, h), base) && Fits(Pow2(bitWidth), Tree(lower, low), base)
    requires k < Pow2(bitWidth)
    ensures var below := if k == 0 then Seen(Pow2(bitWidth), n, h, lower, low) else Nothing;
            var slot := SlotSide(n.links[k], h - 1);
            && SideOk(Pow2(bitWidth), below) && SideOk(Pow2(bitWidth), slot)
            && Covers(Pow2(bitWidth), changes, base + Times(k, Span(Pow2(bitWidth), h)), 0, Span(Pow2(bitWidth), h),
                      if added then below else slot, if added then slot else below)
    decreases low + h - 1, 3
  {
    LowerSeen(Pow2(bitWidth), n, h, lower, low, k);
    if n.links[k].Absent? {
      changes := [];
    } else {
      SlotFits(bitWidth, n, h, base, k);
      changes := HigherChild(added, bitWidth, n.links[k].node, h - 1, lower, low, base + NodesForHeight(bitWidth, h) * k, k == 0);
    }
  }

  /** A child of the higher node, compared with the lower node if it is the first. */
  method HigherChild(added: bool, bitWidth: nat, child: Node, g: nat, lower: Node, low: nat, offset: nat, first: bool)
    returns (changes: seq<Change>)
    requires Shaped(Pow2(bitWidth), child, g) && Shaped(Pow2(bitWidth), lower, low) && low <= g && offset <= MAX_INDEX
    requires Fits(Pow2(bitWidth), Tree(child, g), offset) && (first ==> Fits(Pow2(bitWidth), Tree(lower, low), offset))
    ensures var below := if first then Seen(Pow2(bitWidth), child, g, lower, low) else Nothing;
            Covers(Pow2(bitWidth), changes, offset, 0, Span(Pow2(bitWidth), g + 1),
                   if added then below else Tree(child, g), if added then Tree(child, g) else below)
    decreases low + g, 2
  {
    if first {
      if added {
        changes := DiffNode(bitWidth, lower, low, child, g, offset);
      } else {
        changes := DiffNode(bitWidth, child, g, lower, low, offset);
      }
    } else {
      changes := OneSided(added, bitWidth, child, g, offset);
    }
  }

  /** The loop over the links of two nodes of the same height. */
  method DiffLinks(bitWidth: nat, prev: Node, curr: Node, h: nat, base: nat) returns (changes: seq<Change>)
    requires h > 0 && Shaped(Pow2(bitWidth), prev, h) && Shaped(Pow2(bitWidth), curr, h) && base <= MAX_INDEX
    requires Fits(Pow2(bitWidth), Tree(prev, h), base) && Fits(Pow2(bitWidth), Tree(curr, h), base)
    ensures Covers(Pow2(bitWidth), changes, base, 0, Span(Pow2(bitWidth), h + 1), Tree(prev, h), Tree(curr, h))
    decreases h + h, 0
  {
    ghost var w, s := Pow2(bitWidth), Span(Pow2(bitWidth), h);
    changes := [];
    var k := 0;
    while k < |prev.links|
      invariant k <= w && Covers(w, changes, base, 0, Times(k, s), Tree(prev, h), Tree(curr, h))
    {
      SlotVals(w, prev, h, k, SlotSide(prev.links[k], h - 1));
      SlotVals(w, curr, h, k, SlotSide(curr.links[k], h - 1));
      var sub := DiffSlot(bitWidth, prev, curr, h, base, k);
      CoversShift(w, sub, base, Times(k, s), s, SlotSide(prev.links[k], h - 1), SlotSide(curr.links[k], h - 1),
                  Tree(prev, h), Tree(curr, h));
      CoversConcat(w, changes, sub, base, 0, Times(k, s), Times(k + 1, s), Tree(prev, h), Tree(curr, h));
      changes := changes + sub;
      k := k + 1;
    }
  }

  /** One slot of two nodes: links with the same CID are passed over. */
  method DiffSlot(bitWidth: nat, prev: Node, curr: Node, h: nat, base: nat, k: nat) returns (changes: seq<Change>)
    requires h > 0 && Shaped(Pow2(bitWidth), prev, h) && Shaped(Pow2(bitWidth), curr, h) && base <= MAX_INDEX
    requires Fits(Pow2(bitWidth), Tree(prev, h), base) && Fits(Pow2(bitWidth), Tree(curr, h), base)
    requires k < Pow2(bitWidth)
    ensures SideOk(Pow2(bitWidth), SlotSide(prev.links[k], h - 1)) && SideOk(Pow2(bitWidth), SlotSide(curr.links[k], h - 1))
    ensures Covers(Pow2(bitWidth), changes, base + Times(k, Span(Pow2(bitWidth), h)), 0, Span(Pow2(bitWidth), h),
                   SlotSide(prev.links[k], h - 1), SlotSide(curr.links[k], h - 1))
    decreases h + h - 1, 2
  {
    var p, c := prev.links[k], curr.links[k];
    if !p.Absent? {
      SlotFits(bitWidth, prev, h, base, k);
    }
    if !c.Absent? {
      SlotFits(bitWidth, curr, h, base, k);
    }
    if p.Absent? && c.Absent? {
      return [];
    }
    var offset := base + NodesForHeight(bitWidth, h) * k;
    if c.Absent? {
      changes := OneSided(false, bitWidth, p.node, h - 1, offset);
    } else if p.Absent? {
      changes := OneSided(true, bitWidth, c.node, h - 1, offset);
    } else if p.ByCid? && c.ByCid? && Plain(p.node) == Plain(c.node) {
      SameCidNoChange(Pow2(bitWidth), p.node, c.node, h - 1, offset);
      changes := [];
    } else {
      changes := DiffNode(bitWidth, p.node, h - 1, c.node, h - 1, offset);
    }
  }

  lemma SameCidNoChange(w: nat, a: Node, b: Node, h: nat, base: nat)
    requires w > 0 && Shaped(w, a, h) && Shaped(w, b, h) && Plain(a) == Plain(b)
    ensures Covers(w, [], base, 0, Span(w, h + 1), Tree(a, h), Tree(b, h))
  {
    SameCidSameAt(w, a, b, h);
    forall j: nat | j < Span(w, h + 1) ensures Val(w, Tree(a, h), j) == Val(w, Tree(b, h), j) {
      assert At(w, a, h, j) == At(w, b, h, j);
    }
  }

  // ---------------------------------------------------------------- the diff of two arrays

  ghost predicate Exact(changes: seq<Change>, prev: map<nat, Value>, curr: map<nat, Value>) {
    && (forall i, j :: 0 <= i < j < |changes| ==> changes[i].key < changes[j].key)
    && forall i: nat :: Reports(changes, i, Entry(prev, i), Entry(curr, i))
  }

  /** The array has an entry that fits under height `h`. */
  ghost predicate ReachesDown(w: nat, m: map<nat, Value>, h: nat) {
    exists i :: i in m && i < Span(w, h + 1)
  }

  /** The condition on two arrays, of trees of the given heights, under which their diff is exact. */
  ghost predicate Diffable(w: nat, prev: map<nat, Value>, hp: nat, curr: map<nat, Value>, hc: nat) {
    || prev == map[] || curr == map[]
    || ((hc > hp ==> ReachesDown(w, curr, hp)) && (hp > hc ==> ReachesDown(w, prev, hc)))
  }

  ghost predicate HoldsUnder(w: nat, n: Node, h: nat, s: nat)
    requires w > 0 && Shaped(w, n, h)
  {
    exists j: nat :: j < s && Find(w, n, h, j).Some?
  }

  /** A tree has a spine exactly if it holds something under the lower height. */
  lemma {:induction false} SpineHolds(w: nat, n: Node, h: nat, low: nat)
    requires w > 0 && ShapedChild(w, n, h) && h >= low
    ensures Spine(w, n, h, low) <==> HoldsUnder(w, n, h, Span(w, low + 1))
    decreases h
  {
    if h == low {
      var j := HoldsSomething(w, n, h);
      assert Find(w, n, h, j).Some?;
    } else {
      SpanMonotone(w, low + 1, h);
      FirstSlot(w, n, h, Span(w, low + 1));
      if !n.links[0].Absent? {
        SpineHolds(w, n.links[0].node, h - 1, low);
      }
    }
  }

  lemma FirstSlot(w: nat, n: Node, h: nat, s: nat)
    requires w > 0 && h > 0 && Shaped(w, n, h) && s <= Span(w, h)
    ensures !n.links[0].Absent? ==> Shaped(w, n.links[0].node, h - 1)
    ensures HoldsUnder(w, n, h, s) <==> (!n.links[0].Absent? && HoldsUnder(w, n.links[0].node, h - 1, s))
  {
    var side := SlotSide(n.links[0], h - 1);
    assert Times(0, Span(w, h)) == 0;
    SlotVals(w, n, h, 0, side);
    if HoldsUnder(w, n, h, s) {
      var j: nat :| j < s && Find(w, n, h, j).Some?;
      assert Val(w, side, j) == Val(w, Tree(n, h), 0 + j);
      assert Find(w, n.links[0].node, h - 1, j).Some?;
    }
    if !n.links[0].Absent? && HoldsUnder(w, n.links[0].node, h - 1, s) {
      var j: nat :| j < s && Find(w, n.links[0].node, h - 1, j).Some?;
      assert Val(w, side, j) == Val(w, Tree(n, h), 0 + j);
      assert Find(w, n, h, j).Some?;
    }
  }

  /** The same in terms of the array. */
  lemma SpineReaches(w: nat, n: Node, h: nat, m: map<nat, Value>, low: nat)
    requires w > 0 && Shaped(w, n, h) && Represents(w, n, h, m) && m != map[] && h > low
    ensures Spine(w, n, h, low) <==> ReachesDown(w, m, low)
  {
    NotEmpty(w, n, h, m);
    SpineHolds(w, n, h, low);
    if j: nat :| j < Span(w, low + 1) && Find(w, n, h, j).Some? {
      assert Find(w, n, h, j) == Entry(m, j);
      assert j in m;
    }
    if i :| i in m && i < Span(w, low + 1) {
      assert Find(w, n, h, i) == Entry(m, i);
    }
  }

  lemma NotEmpty(w: nat, n: Node, h: nat, m: map<nat, Value>)
    requires w > 0 && Shaped(w, n, h) && Represents(w, n, h, m)
    ensures m != map[] ==> !Empty(n)
  {
    if m != map[] {
      var i :| i in m;
      assert Find(w, n, h, i) == Entry(m, i);
      if Empty(n) {
        EmptyFinds(w, n, h);
      }
    }
  }

  lemma FitsArray(w: nat, n: Node, h: nat, m: map<nat, Value>)
    requires w > 0 && Shaped(w, n, h) && Represents(w, n, h, m) && (forall i :: i in m ==> i <= MAX_INDEX)
    ensures Fits(w, Tree(n, h), 0)
  {
    forall j: nat | Val(w, Tree(n, h), j).Some? ensures j <= MAX_INDEX {
      assert Find(w, n, h, j) == Entry(m, j);
    }
  }

  /** What a side holds, as an array. */
  ghost predicate SideIs(w: nat, s: Side, m: map<nat, Value>)
    requires SideOk(w, s)
  {
    forall j: nat :: Val(w, s, j) == Entry(m, j)
  }

  /** Changes between two sides are exact for their arrays. */
  lemma CoversIsExact(w: nat, changes: seq<Change>, high: nat, p: Side, c: Side, prev: map<nat, Value>, curr: map<nat, Value>)
    requires SideOk(w, p) && SideOk(w, c) && Covers(w, changes, 0, 0, high, p, c)
    requires SideIs(w, p, prev) && SideIs(w, c, curr)
    requires forall i :: i in prev || i in curr ==> i < high
    ensures Exact(changes, prev, curr)
  {
    forall i: nat ensures Reports(changes, i, Entry(prev, i), Entry(curr, i)) {
      if i < high {
        assert Reports(changes, 0 + i, Val(w, p, i), Val(w, c, i));
        assert Val(w, p, i) == Entry(prev, i) && Val(w, c, i) == Entry(curr, i);
      }
    }
  }

  lemma NotBoth(changes: seq<Change>, i: nat, before: Option<Value>, after: Option<Value>)
    requires Reports(changes, i, None, None) && before != after
    ensures !Reports(changes, i, before, after)
  {
  }

  /** If the diff does not see one of two arrays that share no low index, it is wrong. */
  lemma UnseenRemovalIsInexact(changes: seq<Change>, prev: map<nat, Value>, curr: map<nat, Value>, i: nat)
    requires Exact(changes, map[], curr) && i in prev && i !in curr
    ensures !Exact(changes, prev, curr)
  {
    assert Reports(changes, i, Entry(map[], i), Entry(curr, i));
    assert Exact(changes, prev, curr) ==> Reports(changes, i, Entry(prev, i), Entry(curr, i));
    NotBoth(changes, i, Entry(prev, i), None);
  }

  lemma UnseenAdditionIsInexact(changes: seq<Change>, prev: map<nat, Value>, curr: map<nat, Value>, i: nat)
    requires Exact(changes, prev, map[]) && i in curr && i !in prev
    ensures !Exact(changes, prev, curr)
  {
    assert Reports(changes, i, Entry(prev, i), Entry(map[], i));
    assert Exact(changes, prev, curr) ==> Reports(changes, i, Entry(prev, i), Entry(curr, i));
    NotBoth(changes, i, None, Entry(curr, i));
  }

  lemma SeenSide(w: nat, n: Node, h: nat, lower: Node, low: nat, m: map<nat, Value>)
    requires w > 0 && Shaped(w, n, h) && Shaped(w, lower, low) && Represents(w, lower, low, m)
    ensures SideIs(w, Seen(w, n, h, lower, low), if Spine(w, n, h, low) then m else map[])
  {
    if Spine(w, n, h, low) {
      forall j: nat ensures Val(w, Tree(lower, low), j) == Entry(m, j) {
        assert Find(w, lower, low, j) == Entry(m, j);
      }
    }
  }

  /** The diff of two AMTs lists exactly the changes, in ascending order and without no-ops, if and
      only if the higher one has an entry that would fit under the height of the lower one, or one of
      them is empty. */
  method Diff(prev: Amt, curr: Amt) returns (r: Result<seq<Change>, IpldError>)
    requires prev.Valid() && curr.Valid()
    ensures r.Ok? <==> prev.bitWidth == curr.bitWidth
    ensures r.Ok? ==> (Exact(r.value, prev.m, curr.m) <==>
                       Diffable(Pow2(prev.bitWidth), prev.m, prev.height, curr.m, curr.height))
  {
    if prev.bitWidth != curr.bitWidth {
      return Err(Malformed);
    }
    ghost var w := Pow2(prev.bitWidth);
    FitsArray(w, prev.root, prev.height, prev.m);
    FitsArray(w, curr.root, curr.height, curr.m);
    HeightIsLeast(w, prev.root, prev.height, prev.m);
    HeightIsLeast(w, curr.root, curr.height, curr.m);
    var changes;
    if prev.count == 0 && curr.count != 0 {
      changes := OneSided(true, curr.bitWidth, curr.root, curr.height, 0);
      SeenSide(w, curr.root, curr.height, curr.root, curr.height, curr.m);
      CoversIsExact(w, changes, Span(w, curr.height + 1), Nothing, Tree(curr.root, curr.height), prev.m, curr.m);
    } else if prev.count != 0 && curr.count == 0 {
      changes := OneSided(false, prev.bitWidth, prev.root, prev.height, 0);
      SeenSide(w, prev.root, prev.height, prev.root, prev.height, prev.m);
      CoversIsExact(w, changes, Span(w, prev.height + 1), Tree(prev.root, prev.height), Nothing, prev.m, curr.m);
    } else {
      changes := DiffNode(prev.bitWidth, prev.root, prev.height, curr.root, curr.height, 0);
      DiffIff(w, changes, prev.root, prev.height, prev.m, curr.root, curr.height, curr.m);
    }
    return Ok(changes);
  }

  lemma DiffIff(w: nat, changes: seq<Change>, prev: Node, hp: nat, pm: map<nat, Value>, curr: Node, hc: nat, cm: map<nat, Value>)
    requires w > 0 && Canonical(w, prev, hp) && Canonical(w, curr, hc)
    requires Represents(w, prev, hp, pm) && Represents(w, curr, hc, cm) && (pm == map[] <==> cm == map[])
    requires Covers(w, changes, 0, 0, Span(w, Max(hp, hc) + 1), Seen(w, curr, hc, prev, hp), Seen(w, prev, hp, curr, hc))
    ensures Exact(changes, pm, cm) <==> Diffable(w, pm, hp, cm, hc)
  {
    var sp, sc := Spine(w, curr, hc, hp), Spine(w, prev, hp, hc);
    SeenSide(w, curr, hc, prev, hp, pm);
    SeenSide(w, prev, hp, curr, hc, cm);
    HeightIsLeast(w, prev, hp, pm);
    HeightIsLeast(w, curr, hc, cm);
    SpanMonotone(w, hp + 1, Max(hp, hc) + 1);
    SpanMonotone(w, hc + 1, Max(hp, hc) + 1);
    CoversIsExact(w, changes, Span(w, Max(hp, hc) + 1), Seen(w, curr, hc, prev, hp), Seen(w, prev, hp, curr, hc),
                  if sp then pm else map[], if sc then cm else map[]);
    if pm != map[] {
      if hc > hp {
        SpineReaches(w, curr, hc, cm, hp);
        if !sp {
          var i :| i in pm;
          UnseenRemovalIsInexact(changes, pm, cm, i);
        }
      } else if hp > hc {
        SpineReaches(w, prev, hp, pm, hc);
        if !sc {
          var i :| i in cm;
          UnseenAdditionIsInexact(changes, pm, cm, i);
        }
      }
    } else {
      EmptyIsLow(w, prev, hp);
      EmptyIsLow(w, curr, hc);
    }
  }

  lemma EmptyIsLow(w: nat, n: Node, h: nat)
    requires w > 0 && Canonical(w, n, h) && Represents(w, n, h, map[])
    ensures h == 0
  {
    HeightIsLeast(w, n, h, map[]);
  }

  // ---------------------------------------------------------------- what an exact diff is good for

  ghost function Patch(m: map<nat, Value>, changes: seq<Change>): map<nat, Value>
    decreases |changes|
  {
    if changes == [] then m
    else
      var c := changes[|changes| - 1];
      var m' := Patch(m, changes[..|changes| - 1]);
      if c.after.Some? then m'[c.key := c.after.value] else m' - {c.key}
  }

  lemma {:induction false} PatchAt(m: map<nat, Value>, changes: seq<Change>, i: nat, before: Option<Value>, after: Option<Value>)
    requires forall a, b :: 0 <= a < b < |changes| ==> changes[a].key < changes[b].key
    requires before == Entry(m, i)
    requires (exists k :: 0 <= k < |changes| && changes[k] == Change(i, before, after)) ||
             (before == after && forall k :: 0 <= k < |changes| ==> changes[k].key != i)
    ensures Entry(Patch(m, changes), i) == after
    decreases |changes|
  {
    if changes != [] {
      var n := |changes| - 1;
      var less := changes[..n];
      if changes[n].key != i {
        if k :| 0 <= k < |changes| && changes[k] == Change(i, before, after) {
          assert less[k] == Change(i, before, after);
        }
        PatchAt(m, less, i, before, after);
      }
    }
  }

  /** Applying an exact diff to the old array gives the new one. */
  lemma PatchGivesNew(changes: seq<Change>, prev: map<nat, Value>, curr: map<nat, Value>)
    requires Exact(changes, prev, curr)
    ensures Patch(prev, changes) == curr
  {
    var out := Patch(prev, changes);
    forall i: nat ensures Entry(out, i) == Entry(curr, i) {
      assert Reports(changes, i, Entry(prev, i), Entry(curr, i));
      PatchAt(prev, changes, i, Entry(prev, i), Entry(curr, i));
    }
    forall i ensures i in out <==> i in curr {
      assert Entry(out, i) == Entry(curr, i);
    }
    forall i | i in out ensures out[i] == curr[i] {
      assert Entry(out, i) == Entry(curr, i);
    }
  }

  /** Two entries at the edge of a lower tree: the heights differ, and the higher tree has nothing low. */
  lemma MovedOutOfReach(n: Node, h: nat, n': Node, h': nat, v: Value)
    requires Canonical(2, n, h) && Represents(2, n, h, map[0 := v])
    requires Canonical(2, n', h') && Represents(2, n', h', map[2 := v])
    ensures !Diffable(2, map[0 := v], h, map[2 := v], h')
  {
    SpanOne(2);
    HeightIsLeast(2, n, h, map[0 := v]);
    HeightIsLeast(2, n', h', map[2 := v]);
    SpanPositive(2, h);
    assert h == 0;
    assert 2 in map[2 := v];
    assert 0 in map[0 := v] && h' > 0;
  }

  /** Nodes of two slots: an array's only entry moves from index 0 to index 2, and the diff of the two
      arrays, built from nothing, misses that. */
  method MovedEntryIsMissed(v: Value) returns (changes: seq<Change>)
    ensures !Exact(changes, map[0 := v], map[2 := v])
  {
    var prev := new Amt(1);
    var done := prev.Set(0, v);
    var curr := new Amt(1);
    done := curr.Set(2, v);
    assert Pow2(1) == 2 && prev.m == map[0 := v] && curr.m == map[2 := v];
    MovedOutOfReach(prev.root, prev.height, curr.root, curr.height, v);
    var r := Diff(prev, curr);
    changes := r.value;
  }
}
