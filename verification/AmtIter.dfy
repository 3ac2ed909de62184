/** Iterating over an AMT with an explicit stack and a running key (`ipld/amt/src/iter.rs`). */
module AmtIter {
  import opened Common
  import opened BitStrings
  import opened AmtForm
  import Amt

  type Item = (nat, Value)

  // ---------------------------------------------------------------- what there is to iterate over

  /** The pairs of a node from slot `k` on, in order; `base` is the index of its first slot. */
  ghost function Items(w: nat, n: Node, h: nat, base: nat, k: nat): seq<Item>
    requires w > 0 && Shaped(w, n, h)
    decreases h, if k < w then w - k else 0
  {
    if k >= w then [] else SlotItems(w, n, h, base, k) + Items(w, n, h, base, k + 1)
  }

  ghost function SlotItems(w: nat, n: Node, h: nat, base: nat, k: nat): seq<Item>
    requires w > 0 && Shaped(w, n, h) && k < w
    decreases h, 0
  {
    if h == 0 then (if n.vals[k].None? then [] else [(base + k, n.vals[k].value)])
    else if n.links[k].Absent? then []
    else Items(w, n.links[k].node, h - 1, base + Times(k, Span(w, h)), 0)
  }

  ghost predicate Ascending(s: seq<Item>) {
    forall i, j :: 0 <= i < j < |s| ==> s[i].0 < s[j].0
  }

  ghost predicate Within(s: seq<Item>, low: nat, high: nat) {
    forall i :: 0 <= i < |s| ==> low <= s[i].0 < high
  }

  lemma Concat(a: seq<Item>, b: seq<Item>, low: nat, mid: nat, high: nat)
    requires Ascending(a) && Ascending(b) && Within(a, low, mid) && Within(b, mid, high) && low <= mid <= high
    ensures Ascending(a + b) && Within(a + b, low, high)
  {
  }

  lemma TimesOne(k: nat)
    ensures Times(k, 1) == k
  {
    TimesIs(k, 1);
  }

  /** Items come in ascending order and lie where their slots lie. */
  lemma {:induction false} ItemsOrdered(w: nat, n: Node, h: nat, base: nat, k: nat)
    requires w > 0 && Shaped(w, n, h) && k <= w
    ensures Ascending(Items(w, n, h, base, k))
    ensures Times(k, Span(w, h)) <= Span(w, h + 1)
    ensures Within(Items(w, n, h, base, k), base + Times(k, Span(w, h)), base + Span(w, h + 1))
    decreases h, w - k
  {
    if k < w {
      var s := Span(w, h);
      ItemsOrdered(w, n, h, base, k + 1);
      if h == 0 {
        TimesOne(k);
        TimesOne(k + 1);
      } else if !n.links[k].Absent? {
        ItemsOrdered(w, n.links[k].node, h - 1, base + Times(k, s), 0);
      }
      Concat(SlotItems(w, n, h, base, k), Items(w, n, h, base, k + 1),
             base + Times(k, s), base + Times(k + 1, s), base + Span(w, h + 1));
    }
  }

  ghost predicate Listed(s: seq<Item>, i: nat, v: Option<Value>) {
    if v.Some? then (i, v.value) in s else forall k :: 0 <= k < |s| ==> s[k].0 != i
  }

  /** Below a slot is what the slot lists, and nothing that lies elsewhere. */
  lemma {:induction false} ItemsExact(w: nat, n: Node, h: nat, base: nat, j: nat)
    requires w > 0 && Shaped(w, n, h) && j < Span(w, h + 1)
    ensures Listed(Items(w, n, h, base, 0), base + j, At(w, n, h, j))
    decreases h, 1
  {
    var s := Span(w, h);
    SpanPositive(w, h);
    Splits(w, s, j);
    var k := Slot(s, j);
    if h == 0 {
      TimesOne(k);
    } else if !n.links[k].Absent? {
      ItemsExact(w, n.links[k].node, h - 1, base + Times(k, s), Rest(s, j));
    }
    assert Listed(SlotItems(w, n, h, base, k), base + j, At(w, n, h, j));
    ListedFrom(w, n, h, base, j, k, 0);
  }

  /** If the slot of `j` lists it rightly, so does everything from an earlier slot on. */
  lemma {:induction false} ListedFrom(w: nat, n: Node, h: nat, base: nat, j: nat, k: nat, from: nat)
    requires w > 0 && Shaped(w, n, h) && from <= k < w
    requires Times(k, Span(w, h)) <= j < Times(k + 1, Span(w, h))
    requires j < Span(w, h + 1) && Listed(SlotItems(w, n, h, base, k), base + j, At(w, n, h, j))
    ensures Listed(Items(w, n, h, base, from), base + j, At(w, n, h, j))
    decreases k - from
  {
    if from < k {
      ListedFrom(w, n, h, base, j, k, from + 1);
      SlotWithin(w, n, h, base, from);
      TimesMonotone(from + 1, k, Span(w, h));
    } else {
      ItemsOrdered(w, n, h, base, k + 1);
    }
  }

  lemma SlotWithin(w: nat, n: Node, h: nat, base: nat, k: nat)
    requires w > 0 && Shaped(w, n, h) && k < w
    ensures Within(SlotItems(w, n, h, base, k), base + Times(k, Span(w, h)), base + Times(k + 1, Span(w, h)))
  {
    if h == 0 {
      TimesOne(k);
      TimesOne(k + 1);
    } else if !n.links[k].Absent? {
      ItemsOrdered(w, n.links[k].node, h - 1, base + Times(k, Span(w, h)), 0);
    }
  }

  // ---------------------------------------------------------------- the stack

  /** The nodes on the way down, each with the slot to look at next. */
  datatype Stack = Bottom | Push(below: Stack, node: Node, idx: nat)

  function Depth(s: Stack): nat {
    if s.Bottom? then 0 else Depth(s.below) + 1
  }

  /** The tree that is iterated over: its width, the height of its root and the index it starts at. */
  datatype Walk = Walk(w: nat, height: nat, offset: nat)

  /** Each node is one level below the one under it on the stack, which is past the slot that led there. */
  ghost predicate StackOk(t: Walk, s: Stack) {
    && t.w > 0
    && (s.Push? ==>
          && StackOk(t, s.below) && Depth(s.below) <= t.height
          && Shaped(t.w, s.node, t.height - Depth(s.below)) && s.idx <= t.w
          && (s.below.Push? ==> s.below.idx >= 1))
  }

  ghost function Height(t: Walk, s: Stack): nat
    requires StackOk(t, s) && s.Push?
  {
    t.height - Depth(s.below)
  }

  /** The index of the first slot of the node that lies on `below`. */
  ghost function Base(t: Walk, below: Stack): nat
    requires StackOk(t, below)
  {
    if below.Bottom? then t.offset
    else Base(t, below.below) + (if below.idx == 0 then 0 else Times(below.idx - 1, Span(t.w, Height(t, below))))
  }

  /** The true index of the slot that comes next. */
  ghost function NextKey(t: Walk, s: Stack): nat
    requires StackOk(t, s) && s.Push?
  {
    Base(t, s.below) + Times(s.idx, Span(t.w, Height(t, s)))
  }

  /** What is left to yield. */
  ghost function Left(t: Walk, s: Stack): seq<Item>
    requires StackOk(t, s)
  {
    if s.Bottom? then [] else Items(t.w, s.node, Height(t, s), Base(t, s.below), s.idx) + Left(t, s.below)
  }

  /** How many turns the iterator needs for the rest of a node, and for the stack. */
  ghost function Turns(w: nat, n: Node, h: nat, k: nat): (r: nat)
    requires w > 0 && Shaped(w, n, h)
    ensures r > 0
    decreases h, if k < w then w - k else 0
  {
    if k >= w then 1
    else
      1 + (if h == 0 || n.links[k].Absent? then 0 else Turns(w, n.links[k].node, h - 1, 0)) + Turns(w, n, h, k + 1)
  }

  ghost function Work(t: Walk, s: Stack): nat
    requires StackOk(t, s)
  {
    if s.Bottom? then 0 else Turns(t.w, s.node, Height(t, s), s.idx) + Work(t, s.below)
  }

  lemma SeqAssociates(a: seq<Item>, b: seq<Item>, c: seq<Item>)
    ensures (a + b) + c == a + (b + c) && [] + a == a == a + []
  {
  }

  lemma StartStack(t: Walk, n: Node)
    requires t.w > 0 && Shaped(t.w, n, t.height)
    ensures var s := Push(Bottom, n, 0);
            StackOk(t, s) && NextKey(t, s) == t.offset && Left(t, s) == Items(t.w, n, t.height, t.offset, 0)
  {
    SeqAssociates(Items(t.w, n, t.height, t.offset, 0), [], []);
    assert Times(0, Span(t.w, t.height)) == 0;
  }

  lemma PassWork(t: Walk, s: Stack)
    requires StackOk(t, s) && s.Push? && s.idx < t.w
    ensures StackOk(t, s.(idx := s.idx + 1))
    ensures Work(t, s) == Work(t, s.(idx := s.idx + 1)) + 1
                          + (if Height(t, s) == 0 || s.node.links[s.idx].Absent? then 0
                             else Turns(t.w, s.node.links[s.idx].node, Height(t, s) - 1, 0))
  {
  }

  /** Passing a slot of a leaf, or an empty slot. */
  lemma PassSlot(t: Walk, s: Stack)
    requires StackOk(t, s) && s.Push? && s.idx < t.w
    ensures var s' := s.(idx := s.idx + 1);
            && StackOk(t, s')
            && NextKey(t, s') == NextKey(t, s) + Span(t.w, Height(t, s))
            && Left(t, s) == SlotItems(t.w, s.node, Height(t, s), Base(t, s.below), s.idx) + Left(t, s')
            && Work(t, s) == Work(t, s') + 1 + (if Height(t, s) == 0 || s.node.links[s.idx].Absent? then 0
                                                else Turns(t.w, s.node.links[s.idx].node, Height(t, s) - 1, 0))
  {
    PassWork(t, s);
    var h, b := Height(t, s), Base(t, s.below);
    SeqAssociates(SlotItems(t.w, s.node, h, b, s.idx), Items(t.w, s.node, h, b, s.idx + 1), Left(t, s.below));
  }

  /** Entering the node below a slot. */
  lemma EnterSlot(t: Walk, s: Stack)
    requires StackOk(t, s) && s.Push? && s.idx < t.w && Height(t, s) > 0 && !s.node.links[s.idx].Absent?
    ensures var s' := Push(s.(idx := s.idx + 1), s.node.links[s.idx].node, 0);
            && StackOk(t, s') && NextKey(t, s') == NextKey(t, s)
            && Left(t, s') == Left(t, s) && Work(t, s') < Work(t, s)
  {
    PassSlot(t, s);
    var s1 := s.(idx := s.idx + 1);
    assert Base(t, s1) == NextKey(t, s);
    assert Times(0, Span(t.w, Height(t, s) - 1)) == 0;
  }

  /** The slot after a node is where the node under it on the stack goes on. */
  lemma BelowIsLater(t: Walk, s: Stack)
    requires StackOk(t, s) && s.Push? && s.below.Push?
    ensures NextKey(t, s.below) == Base(t, s.below) + Span(t.w, Height(t, s) + 1)
    ensures NextKey(t, s.below) >= NextKey(t, s)
    ensures s.idx == t.w ==> NextKey(t, s.below) == NextKey(t, s)
  {
    var b := s.below;
    assert Times(b.idx, Span(t.w, Height(t, b))) == Times(b.idx - 1, Span(t.w, Height(t, b))) + Span(t.w, Height(t, b));
    TimesMonotone(s.idx, t.w, Span(t.w, Height(t, s)));
  }

  /** Leaving a node that is done. */
  lemma LeaveNode(t: Walk, s: Stack)
    requires StackOk(t, s) && s.Push? && s.idx >= t.w
    ensures s.below.Push? ==> NextKey(t, s.below) == NextKey(t, s)
    ensures Left(t, s.below) == Left(t, s) && Work(t, s.below) < Work(t, s)
  {
    SeqAssociates(Left(t, s.below), [], []);
    if s.below.Push? {
      BelowIsLater(t, s);
    }
  }

  ghost predicate From(s: seq<Item>, low: nat) {
    forall i :: 0 <= i < |s| ==> s[i].0 >= low
  }

  /** Nothing that is left comes before the next slot. */
  lemma {:induction false} LeftComesLater(t: Walk, s: Stack)
    requires StackOk(t, s) && s.Push?
    ensures From(Left(t, s), NextKey(t, s))
  {
    ItemsOrdered(t.w, s.node, Height(t, s), Base(t, s.below), s.idx);
    if s.below.Push? {
      BelowIsLater(t, s);
      LeftComesLater(t, s.below);
    }
  }

  ghost predicate InRange(s: seq<Item>) {
    forall i :: 0 <= i < |s| ==> s[i].0 <= MAX_INDEX
  }

  /** Nothing is left to yield, or what is left would be yielded under keys beyond the largest. */
  ghost predicate Done(s: seq<Item>, drift: nat) {
    s == [] || s[0].0 + drift > MAX_INDEX
  }

  lemma LateIsDone(s: seq<Item>, low: nat, drift: nat)
    requires From(s, low) && low + drift > MAX_INDEX
    ensures Done(s, drift)
  {
  }

  /** Beyond the largest index nothing is yielded, so a node can be left early. */
  lemma LeaveEarly(t: Walk, s: Stack, drift: nat)
    requires StackOk(t, s) && s.Push? && NextKey(t, s) + drift > MAX_INDEX
    ensures Done(Left(t, s), drift) && Work(t, s.below) < Work(t, s)
    ensures s.below.Push? ==> NextKey(t, s.below) + drift > MAX_INDEX
  {
    LeftComesLater(t, s);
    LateIsDone(Left(t, s), NextKey(t, s), drift);
    if s.below.Push? {
      BelowIsLater(t, s);
    }
  }

  // ---------------------------------------------------------------- the iterator

  class Iter {
    const bitWidth: nat
    const height: nat
    ghost const offset: nat
    /** By how much the running key is ahead of the true index. It never changes. */
    ghost const drift: nat
    var stack: Stack
    var key: nat

    ghost function Tree(): Walk {
      Walk(Pow2(bitWidth), height, offset)
    }

    ghost function Rest(): seq<Item>
      requires StackOk(Tree(), stack)
      reads this
    {
      Left(Tree(), stack)
    }

    /** The running key is the true index of the next slot plus the drift, or the largest 64-bit number
        if that is beyond it. */
    ghost predicate Valid()
      reads this
    {
      && StackOk(Tree(), stack)
      && (stack.Push? ==> key == Min(NextKey(Tree(), stack) + drift, U64_MAX))
    }

    constructor (n: Node, bitWidth: nat, height: nat, offset: nat)
      requires Shaped(Pow2(bitWidth), n, height) && offset <= MAX_INDEX
      ensures Valid() && Rest() == Items(Pow2(bitWidth), n, height, offset, 0) && drift == 0
    {
      this.bitWidth, this.height, this.offset, drift := bitWidth, height, offset, 0;
      stack, key := Push(Bottom, n, 0), offset;
      StartStack(Walk(Pow2(bitWidth), height, offset), n);
    }

    /** An iterator that goes on from a stack and a key. */
    constructor At(bitWidth: nat, height: nat, stack: Stack, key: nat, ghost drift: nat)
      requires StackOk(Walk(Pow2(bitWidth), height, 0), stack)
      requires stack.Push? ==> key == Min(NextKey(Walk(Pow2(bitWidth), height, 0), stack) + drift, U64_MAX)
      ensures Valid() && Rest() == Left(Walk(Pow2(bitWidth), height, 0), stack) && this.drift == drift
    {
      this.bitWidth, this.height, this.offset, this.drift := bitWidth, height, 0, drift;
      this.stack, this.key := stack, key;
    }

    /** Yields the next pair, under its index plus the drift, until none is left. */
    method Next() returns (r: Option<Item>)
      requires Valid()
      modifies this
      ensures Valid()
      ensures r.None? <==> Done(old(Rest()), drift)
      ensures r.Some? ==> old(Rest()) == [(r.value.0 - drift, r.value.1)] + Rest() && drift <= r.value.0 <= MAX_INDEX
    {
      r := None;
      while key <= MAX_INDEX
        invariant Valid() && r.None?
        invariant Rest() == old(Rest()) || (key > MAX_INDEX && Done(old(Rest()), drift))
        decreases Work(Tree(), stack)
      {
        if stack.Bottom? {
          return None;
        }
        if stack.node.Leaf? {
          r := ScanLeaf();
          if r.Some? {
            return;
          }
        } else {
          ScanLink();
        }
      }
      if stack.Push? {
        LeaveEarly(Tree(), stack, drift);
      }
    }

    /** The inner loop over the values of a leaf. */
    method ScanLeaf() returns (r: Option<Item>)
      requires Valid() && stack.Push? && stack.node.Leaf? && key <= MAX_INDEX
      modifies this
      ensures Valid()
      ensures r.None? ==> Work(Tree(), stack) < old(Work(Tree(), stack))
      ensures r.None? ==> Rest() == old(Rest()) || (key > MAX_INDEX && Done(old(Rest()), drift))
      ensures r.Some? ==> drift <= r.value.0 <= MAX_INDEX && old(Rest()) == [(r.value.0 - drift, r.value.1)] + Rest()
    {
      while stack.idx < |stack.node.vals| && key <= MAX_INDEX
        invariant stack.Push? && stack.node.Leaf?
        invariant Valid() && Rest() == old(Rest()) && Work(Tree(), stack) <= old(Work(Tree(), stack))
        decreases |stack.node.vals| - stack.idx
      {
        var v := TakeValue();
        if v.Some? {
          return Some((key - 1, v.value));
        }
      }
      LeaveLeaf();
      return None;
    }

    /** Leaves a leaf at its end, or because the keys are used up. */
    method LeaveLeaf()
      requires Valid() && stack.Push? && stack.node.Leaf? && (stack.idx >= |stack.node.vals| || key > MAX_INDEX)
      modifies this
      ensures Valid() && key == old(key) && Work(Tree(), stack) < old(Work(Tree(), stack))
      ensures Rest() == old(Rest()) || (key > MAX_INDEX && Done(old(Rest()), drift))
    {
      if stack.idx >= |stack.node.vals| {
        LeaveNode(Tree(), stack);
      } else {
        LeaveEarly(Tree(), stack, drift);
      }
      stack := stack.below;
    }

    /** One slot of a leaf. */
    method TakeValue() returns (v: Option<Value>)
      requires Valid() && stack.Push? && stack.node.Leaf? && stack.idx < |stack.node.vals| && key <= MAX_INDEX
      modifies this
      ensures Valid() && stack == old(stack).(idx := old(stack).idx + 1) && key == old(key) + 1 > drift
      ensures Work(Tree(), stack) <= old(Work(Tree(), stack))
      ensures old(Rest()) == if v.Some? then [(key - 1 - drift, v.value)] + Rest() else Rest()
    {
      v := stack.node.vals[stack.idx];
      PassValue(Tree(), stack, key, drift);
      stack := stack.(idx := stack.idx + 1);
      key := key + 1;
    }

    /** One slot of a link node. */
    method ScanLink()
      requires Valid() && stack.Push? && stack.node.Links? && key <= MAX_INDEX
      modifies this
      ensures Valid() && Rest() == old(Rest()) && Work(Tree(), stack) < old(Work(Tree(), stack))
    {
      if stack.idx >= |stack.node.links| {
        LeaveNode(Tree(), stack);
        stack := stack.below;
      } else if !stack.node.links[stack.idx].Absent? {
        EnterSlot(Tree(), stack);
        stack := Push(stack.(idx := stack.idx + 1), stack.node.links[stack.idx].node, 0);
      } else {
        SkipLink();
      }
    }

    /** Passes a missing sub-tree: the key moves on by its span. */
    method SkipLink()
      requires Valid() && stack.Push? && stack.node.Links? && key <= MAX_INDEX
      requires stack.idx < |stack.node.links| && stack.node.links[stack.idx].Absent?
      modifies this
      ensures Valid() && Rest() == old(Rest()) && Work(Tree(), stack) < old(Work(Tree(), stack))
    {
      PassSlot(Tree(), stack);
      SaturationIsHarmless(bitWidth, Height(Tree(), stack), 0);
      SeqAssociates(Left(Tree(), stack.(idx := stack.idx + 1)), [], []);
      key := Min(key + NodesForHeight(bitWidth, height - Depth(stack) + 1), U64_MAX);
      stack := stack.(idx := stack.idx + 1);
    }
  }

  /** Passing a value, or the lack of one. */
  lemma PassValue(t: Walk, s: Stack, key: nat, drift: nat)
    requires StackOk(t, s) && s.Push? && s.node.Leaf? && s.idx < t.w && key == NextKey(t, s) + drift
    ensures var s' := s.(idx := s.idx + 1);
            && StackOk(t, s') && NextKey(t, s') + drift == key + 1
            && Work(t, s') <= Work(t, s)
            && Left(t, s) == (if s.node.vals[s.idx].Some? then [(key - drift, s.node.vals[s.idx].value)] + Left(t, s') else Left(t, s'))
  {
    PassSlot(t, s);
    TimesOne(s.idx);
    SeqAssociates(Left(t, s.(idx := s.idx + 1)), [], []);
  }

  /** The pairs of a tree, collected by the iterator: all of them and nothing else, in ascending order. */
  method CollectAll(n: Node, bitWidth: nat, height: nat, offset: nat) returns (items: seq<Item>)
    requires Shaped(Pow2(bitWidth), n, height) && offset <= MAX_INDEX
    requires forall j: nat :: j < Span(Pow2(bitWidth), height + 1) && At(Pow2(bitWidth), n, height, j).Some? ==>
               offset + j <= MAX_INDEX
    ensures items == Items(Pow2(bitWidth), n, height, offset, 0)
    ensures Ascending(items) && Within(items, offset, offset + Span(Pow2(bitWidth), height + 1))
    ensures forall j: nat :: j < Span(Pow2(bitWidth), height + 1) ==>
              Listed(items, offset + j, At(Pow2(bitWidth), n, height, j))
  {
    ghost var w := Pow2(bitWidth);
    ghost var all := Items(w, n, height, offset, 0);
    ItemsOrdered(w, n, height, offset, 0);
    assert Times(0, Span(w, height)) == 0;
    forall j: nat | j < Span(w, height + 1) ensures Listed(all, offset + j, At(w, n, height, j)) {
      ItemsExact(w, n, height, offset, j);
    }
    AllInRange(w, n, height, offset, all);
    var iter := new Iter(n, bitWidth, height, offset);
    items := Drain(iter);
    ExactIff(all, 0, items);
  }

  lemma AllInRange(w: nat, n: Node, h: nat, base: nat, items: seq<Item>)
    requires w > 0 && Shaped(w, n, h) && items == Items(w, n, h, base, 0)
    requires Within(items, base, base + Span(w, h + 1))
    requires forall j: nat :: j < Span(w, h + 1) ==> Listed(items, base + j, At(w, n, h, j))
    requires forall j: nat :: j < Span(w, h + 1) && At(w, n, h, j).Some? ==> base + j <= MAX_INDEX
    ensures InRange(items)
  {
    forall i | 0 <= i < |items| ensures items[i].0 <= MAX_INDEX {
      var j := items[i].0 - base;
      assert Listed(items, base + j, At(w, n, h, j));
    }
  }

  // ---------------------------------------------------------------- draining an iterator

  /** `items` is what an iterator with this drift yields of `all`. */
  ghost predicate Yielded(all: seq<Item>, drift: nat, items: seq<Item>) {
    Shifted(all, drift, items) && Done(all[|items|..], drift)
  }

  ghost predicate Shifted(all: seq<Item>, drift: nat, items: seq<Item>) {
    |items| <= |all| && forall i :: 0 <= i < |items| ==> items[i] == (all[i].0 + drift, all[i].1)
  }

  method Drain(iter: Iter) returns (items: seq<Item>)
    requires iter.Valid()
    modifies iter
    ensures Yielded(old(iter.Rest()), iter.drift, items)
  {
    ghost var all := iter.Rest();
    items := [];
    assert all[0..] == all;
    while true
      invariant iter.Valid() && Shifted(all, iter.drift, items) && iter.Rest() == all[|items|..]
      decreases |iter.Rest()|
    {
      var item := iter.Next();
      if item.None? {
        break;
      }
      DropFirst(all, |items|, (item.value.0 - iter.drift, item.value.1), iter.Rest());
      items := items + [item.value];
    }
  }

  lemma DropFirst(all: seq<Item>, k: nat, x: Item, rest: seq<Item>)
    requires k <= |all| && all[k..] == [x] + rest
    ensures k < |all| && all[k] == x && all[k + 1..] == rest
  {
    assert |all[k..]| == 1 + |rest|;
    assert all[k..][0] == x && all[k..][1..] == rest;
  }

  /** What is yielded is what there is, exactly if there is no drift or there is nothing. */
  lemma ExactIff(all: seq<Item>, drift: nat, items: seq<Item>)
    requires Yielded(all, drift, items) && InRange(all)
    ensures items == all <==> drift == 0 || all == []
  {
    assert |items| > 0 ==> items[0].0 == all[0].0 + drift;
    if drift == 0 {
      NoneDropped(all, |items|);
      forall i | 0 <= i < |items| ensures items[i] == all[i] {
      }
    }
  }

  lemma NoneDropped(all: seq<Item>, k: nat)
    requires InRange(all) && k <= |all| && Done(all[k..], 0)
    ensures k == |all|
  {
    if k < |all| {
      FirstLeft(all, k);
    }
  }

  lemma FirstLeft(all: seq<Item>, k: nat)
    requires InRange(all) && k < |all|
    ensures all[k..][0].0 <= MAX_INDEX
  {
    assert all[k..][0] == all[k];
  }

  // ---------------------------------------------------------------- starting at an index

  /** By how much `iter_from` misses the index of the slot that it starts at: the start's position inside
      the first sub-tree on its path that is not there. */
  ghost function Drift(w: nat, n: Node, h: nat, i: nat): nat
    requires w > 0 && Shaped(w, n, h) && i < Span(w, h + 1)
    decreases h
  {
    if h == 0 then 0
    else
      SpanPositive(w, h);
      Splits(w, Span(w, h), i);
      var link := n.links[Slot(Span(w, h), i)];
      if link.Absent? then AmtForm.Rest(Span(w, h), i) else Drift(w, link.node, h - 1, AmtForm.Rest(Span(w, h), i))
  }

  /** The items before a slot. */
  lemma {:induction false} ItemsBefore(w: nat, n: Node, h: nat, base: nat, k: nat) returns (head: seq<Item>)
    requires w > 0 && Shaped(w, n, h) && k <= w
    ensures Items(w, n, h, base, 0) == head + Items(w, n, h, base, k)
    ensures Below(head, base + Times(k, Span(w, h)))
    decreases k
  {
    if k == 0 {
      head := [];
      SeqAssociates(Items(w, n, h, base, 0), [], []);
    } else {
      var less := ItemsBefore(w, n, h, base, k - 1);
      head := less + SlotItems(w, n, h, base, k - 1);
      BeforeNext(w, n, h, base, k - 1, less);
    }
  }

  lemma BeforeNext(w: nat, n: Node, h: nat, base: nat, k: nat, less: seq<Item>)
    requires w > 0 && Shaped(w, n, h) && k < w && Below(less, base + Times(k, Span(w, h)))
    ensures less + Items(w, n, h, base, k) == (less + SlotItems(w, n, h, base, k)) + Items(w, n, h, base, k + 1)
    ensures Below(less + SlotItems(w, n, h, base, k), base + Times(k + 1, Span(w, h)))
  {
    SeqAssociates(less, SlotItems(w, n, h, base, k), Items(w, n, h, base, k + 1));
    SlotBelow(w, n, h, base, k);
    TimesMonotone(k, k + 1, Span(w, h));
    BelowJoin(less, SlotItems(w, n, h, base, k), base + Times(k, Span(w, h)), base + Times(k + 1, Span(w, h)));
  }

  lemma SlotBelow(w: nat, n: Node, h: nat, base: nat, k: nat)
    requires w > 0 && Shaped(w, n, h) && k < w
    ensures Below(SlotItems(w, n, h, base, k), base + Times(k + 1, Span(w, h)))
  {
    SlotWithin(w, n, h, base, k);
  }

  lemma BelowJoin(a: seq<Item>, b: seq<Item>, low: nat, high: nat)
    requires Below(a, low) && Below(b, high) && low <= high
    ensures Below(a + b, high)
  {
  }

  ghost predicate Below(s: seq<Item>, high: nat) {
    forall i :: 0 <= i < |s| ==> s[i].0 < high
  }

  /** Where the walk down to a start has got to: the nodes passed are on the stack, all that comes
      before the start so far is in `head`, and the start lies below `node`. */
  ghost predicate Descending(t: Walk, all: seq<Item>, start: nat, head: seq<Item>, stack: Stack, node: Node, h: nat,
                             offset: nat)
  {
    && StackOk(t, stack) && Depth(stack) + h == t.height && Shaped(t.w, node, h)
    && (stack.Push? ==> stack.idx >= 1)
    && Base(t, stack) == offset <= start < offset + Span(t.w, h + 1)
    && all == head + (Items(t.w, node, h, offset, 0) + Left(t, stack))
    && Below(head, offset) && From(Left(t, stack), offset + Span(t.w, h + 1))
  }

  /** Where the walk ends: what is left comes from the start on, and the key is ahead by the drift. */
  ghost predicate Found(t: Walk, all: seq<Item>, start: nat, head: seq<Item>, stack: Stack, drift: nat) {
    && StackOk(t, stack) && stack.Push? && NextKey(t, stack) + drift == start
    && all == head + Left(t, stack) && Below(head, start) && From(Left(t, stack), start)
  }

  /** The slot under which the start lies. */
  lemma StartSlot(t: Walk, all: seq<Item>, start: nat, head: seq<Item>, stack: Stack, node: Node, h: nat, offset: nat, idx: nat)
    requires Descending(t, all, start, head, stack, node, h, offset) && idx == Slot(Span(t.w, h), start - offset)
    ensures Span(t.w, h) > 0 && idx < t.w
    ensures start == offset + Times(idx, Span(t.w, h)) + AmtForm.Rest(Span(t.w, h), start - offset)
    ensures AmtForm.Rest(Span(t.w, h), start - offset) < Span(t.w, h)
  {
    SpanPositive(t.w, h);
    Splits(t.w, Span(t.w, h), start - offset);
  }

  /** Going down through a link. */
  lemma GoDown(t: Walk, all: seq<Item>, start: nat, head: seq<Item>, stack: Stack, node: Node, h: nat, offset: nat, idx: nat)
    returns (head': seq<Item>)
    requires Descending(t, all, start, head, stack, node, h, offset) && idx == Slot(Span(t.w, h), start - offset)
    requires h > 0 && idx < t.w && !node.links[idx].Absent?
    ensures Descending(t, all, start, head', Push(stack, node, idx + 1), node.links[idx].node, h - 1,
                       offset + Times(idx, Span(t.w, h)))
  {
    StartSlot(t, all, start, head, stack, node, h, offset, idx);
    var before := ItemsBefore(t.w, node, h, offset, idx);
    head' := head + before;
    BelowJoin(head, before, offset, offset + Times(idx, Span(t.w, h)));
    PushedLink(t, stack, node, h, idx);
    var rest := Items(t.w, node, h, offset, idx + 1);
    var child := Items(t.w, node.links[idx].node, h - 1, offset + Times(idx, Span(t.w, h)), 0);
    assert Items(t.w, node, h, offset, idx) == child + rest;
    assert all == head + ((before + (child + rest)) + Left(t, stack));
    Regroup(head, before, child, rest, Left(t, stack));
    LaterSlots(t, node, h, offset, idx, Left(t, stack));
  }

  /** A link node on the stack, past the slot that is gone into. */
  lemma PushedLink(t: Walk, stack: Stack, node: Node, h: nat, idx: nat)
    requires StackOk(t, stack) && Depth(stack) + h == t.height && Shaped(t.w, node, h) && idx < t.w
    requires stack.Push? ==> stack.idx >= 1
    ensures var s := Push(stack, node, idx + 1);
            && StackOk(t, s) && Height(t, s) == h && Depth(s) == Depth(stack) + 1
            && Base(t, s) == Base(t, stack) + Times(idx, Span(t.w, h))
            && Left(t, s) == Items(t.w, node, h, Base(t, stack), idx + 1) + Left(t, stack)
  {
  }

  lemma LaterSlots(t: Walk, node: Node, h: nat, offset: nat, idx: nat, left: seq<Item>)
    requires t.w > 0 && Shaped(t.w, node, h) && idx < t.w && From(left, offset + Span(t.w, h + 1))
    ensures From(Items(t.w, node, h, offset, idx + 1) + left, offset + Times(idx + 1, Span(t.w, h)))
    ensures Times(idx + 1, Span(t.w, h)) == Times(idx, Span(t.w, h)) + Span(t.w, h)
  {
    ItemsOrdered(t.w, node, h, offset, idx + 1);
  }

  lemma Regroup(a: seq<Item>, b: seq<Item>, c: seq<Item>, d: seq<Item>, e: seq<Item>)
    ensures a + ((b + (c + d)) + e) == (a + b) + (c + (d + e))
  {
  }

  /** Stopping at a slot of a leaf, or at one that is empty. */
  lemma StopHere(t: Walk, all: seq<Item>, start: nat, head: seq<Item>, stack: Stack, node: Node, h: nat, offset: nat, idx: nat)
    returns (head': seq<Item>)
    requires Descending(t, all, start, head, stack, node, h, offset) && idx == Slot(Span(t.w, h), start - offset)
    requires idx < t.w && (h == 0 || node.links[idx].Absent?)
    ensures Found(t, all, start, head', Push(stack, node, idx), AmtForm.Rest(Span(t.w, h), start - offset))
  {
    StartSlot(t, all, start, head, stack, node, h, offset, idx);
    var before := ItemsBefore(t.w, node, h, offset, idx);
    head' := head + before;
    BelowJoin(head, before, offset, offset + Times(idx, Span(t.w, h)));
    var here := Items(t.w, node, h, offset, idx);
    HereComesLater(t.w, node, h, offset, idx, start);
    FourParts(head, before, here, Left(t, stack));
    FromJoin(here, Left(t, stack), start);
  }

  lemma FourParts(a: seq<Item>, b: seq<Item>, c: seq<Item>, d: seq<Item>)
    ensures a + ((b + c) + d) == (a + b) + (c + d)
  {
  }

  lemma FromJoin(a: seq<Item>, b: seq<Item>, low: nat)
    requires From(a, low) && From(b, low)
    ensures From(a + b, low)
  {
  }

  lemma HereComesLater(w: nat, n: Node, h: nat, base: nat, k: nat, start: nat)
    requires w > 0 && Shaped(w, n, h) && k < w && (h == 0 || n.links[k].Absent?)
    requires base + Times(k, Span(w, h)) <= start < base + Times(k + 1, Span(w, h))
    ensures From(Items(w, n, h, base, k), start)
  {
    if h == 0 {
      TimesOne(k);
      ItemsOrdered(w, n, h, base, k);
    } else {
      SeqAssociates(Items(w, n, h, base, k + 1), [], []);
      ItemsOrdered(w, n, h, base, k + 1);
    }
  }

  /** `iter_from`: what is left to yield is what has the start's index or a later one. The running key
      begins at the start, which is ahead of the slot it stands for by the drift. */
  method IterFrom(n: Node, bitWidth: nat, height: nat, start: nat) returns (iter: Iter, ghost head: seq<Item>)
    requires Shaped(Pow2(bitWidth), n, height) && start <= U64_MAX
    requires InRange(Items(Pow2(bitWidth), n, height, 0, 0))
    ensures fresh(iter) && iter.Valid()
    ensures Items(Pow2(bitWidth), n, height, 0, 0) == head + iter.Rest()
    ensures Below(head, start) && From(iter.Rest(), start)
    ensures 0 < start < Span(Pow2(bitWidth), height + 1) && start <= MAX_INDEX ==>
              iter.drift == Drift(Pow2(bitWidth), n, height, start)
    ensures start == 0 ==> iter.drift == 0
  {
    ghost var w := Pow2(bitWidth);
    ghost var all := Items(w, n, height, 0, 0);
    SeqAssociates(all, [], []);
    if start == 0 {
      iter := new Iter(n, bitWidth, height, 0);
      return iter, [];
    }
    BeyondOrWithin(bitWidth, n, height, start);
    if start >= NodesForHeight(bitWidth, height + 1) {
      iter := new Iter.At(bitWidth, height, Bottom, start, 0);
      return iter, all;
    }
    var stack;
    ghost var drift;
    stack, head, drift := WalkDown(n, bitWidth, height, start);
    iter := new Iter.At(bitWidth, height, stack, start, drift);
  }

  /** A start beyond the capacity is after everything; any other is an index. */
  lemma BeyondOrWithin(bitWidth: nat, n: Node, height: nat, start: nat)
    requires Shaped(Pow2(bitWidth), n, height) && start <= U64_MAX && InRange(Items(Pow2(bitWidth), n, height, 0, 0))
    ensures start >= NodesForHeight(bitWidth, height + 1) ==> Below(Items(Pow2(bitWidth), n, height, 0, 0), start)
    ensures start < NodesForHeight(bitWidth, height + 1) ==> start <= MAX_INDEX && start < Span(Pow2(bitWidth), height + 1)
    ensures start <= MAX_INDEX && start < Span(Pow2(bitWidth), height + 1) ==> start < NodesForHeight(bitWidth, height + 1)
  {
    SaturationIsHarmless(bitWidth, height + 1, 0);
    ItemsOrdered(Pow2(bitWidth), n, height, 0, 0);
    if start <= MAX_INDEX {
      SaturationIsHarmless(bitWidth, height + 1, start);
    }
  }

  /** The loop down to the start. */
  method WalkDown(n: Node, bitWidth: nat, height: nat, start: nat)
    returns (stack: Stack, ghost head: seq<Item>, ghost drift: nat)
    requires Shaped(Pow2(bitWidth), n, height) && start < Span(Pow2(bitWidth), height + 1) && start <= MAX_INDEX
    ensures Found(Walk(Pow2(bitWidth), height, 0), Items(Pow2(bitWidth), n, height, 0, 0), start, head, stack, drift)
    ensures drift == Drift(Pow2(bitWidth), n, height, start)
  {
    ghost var w := Pow2(bitWidth);
    ghost var all := Items(w, n, height, 0, 0);
    ghost var t := Walk(w, height, 0);
    var node, offset: nat := n, 0;
    ghost var h: nat := height;
    stack, head := Bottom, [];
    StartDescent(t, n, start);
    drift := Drift(w, n, height, start);
    while node.Links?
      invariant Descending(t, all, start, head, stack, node, h, offset)
      invariant drift == Drift(w, node, h, start - offset)
      decreases h
    {
      var stopped;
      stopped, stack, node, offset, head := LookDown(bitWidth, height, start, stack, node, offset, all, head, h, drift);
      if stopped {
        return;
      }
      h := h - 1;
    }
    head := StopAtLeaf(t, all, start, head, stack, node, h, offset);
    stack := Push(stack, node, start - offset);
  }

  lemma StartDescent(t: Walk, n: Node, start: nat)
    requires t.w > 0 && t.offset == 0 && Shaped(t.w, n, t.height) && start < Span(t.w, t.height + 1)
    ensures Descending(t, Items(t.w, n, t.height, 0, 0), start, [], Bottom, n, t.height, 0)
  {
    SeqAssociates(Items(t.w, n, t.height, 0, 0), [], []);
  }

  lemma StopAtLeaf(t: Walk, all: seq<Item>, start: nat, head: seq<Item>, stack: Stack, node: Node, h: nat, offset: nat)
    returns (head': seq<Item>)
    requires Descending(t, all, start, head, stack, node, h, offset) && node.Leaf?
    ensures h == 0 && Found(t, all, start, head', Push(stack, node, start - offset), Drift(t.w, node, h, start - offset))
  {
    LeafSlot(start - offset);
    StartSlot(t, all, start, head, stack, node, 0, offset, start - offset);
    head' := StopHere(t, all, start, head, stack, node, 0, offset, start - offset);
  }

  lemma DriftAt(w: nat, n: Node, h: nat, i: nat, idx: nat)
    requires w > 0 && h > 0 && Shaped(w, n, h) && i < Span(w, h + 1) && idx == Slot(Span(w, h), i) < w
    ensures n.links[idx].Absent? ==> Drift(w, n, h, i) == AmtForm.Rest(Span(w, h), i)
    ensures !n.links[idx].Absent? ==> AmtForm.Rest(Span(w, h), i) < Span(w, h) && Shaped(w, n.links[idx].node, h - 1)
                                      && Drift(w, n, h, i) == Drift(w, n.links[idx].node, h - 1, AmtForm.Rest(Span(w, h), i))
  {
    SpanPositive(w, h);
    Splits(w, Span(w, h), i);
  }

  /** One turn of the loop: stops at an empty slot, or goes one level down. */
  method LookDown(bitWidth: nat, height: nat, start: nat, stack: Stack, node: Node, offset: nat,
                  ghost all: seq<Item>, ghost head: seq<Item>, ghost h: nat, ghost drift: nat)
    returns (stopped: bool, stack': Stack, node': Node, offset': nat, ghost head': seq<Item>)
    requires Descending(Walk(Pow2(bitWidth), height, 0), all, start, head, stack, node, h, offset)
    requires start <= MAX_INDEX && node.Links? && drift == Drift(Pow2(bitWidth), node, h, start - offset)
    ensures h > 0
    ensures stopped ==> Found(Walk(Pow2(bitWidth), height, 0), all, start, head', stack', drift)
    ensures !stopped ==> Descending(Walk(Pow2(bitWidth), height, 0), all, start, head', stack', node', h - 1, offset')
                         && drift == Drift(Pow2(bitWidth), node', h - 1, start - offset')
  {
    ghost var t := Walk(Pow2(bitWidth), height, 0);
    var idx := SlotAt(bitWidth, height - Depth(stack), start - offset);
    StartSlot(t, all, start, head, stack, node, h, offset, idx);
    if node.links[idx].Absent? {
      head' := StopEmpty(t, all, start, head, stack, node, h, offset, idx);
      return true, Push(stack, node, idx), node, offset, head';
    }
    stopped := false;
    stack', node', offset', head' := DownOne(bitWidth, height, start, stack, node, offset, idx, all, head, h);
  }

  lemma StopEmpty(t: Walk, all: seq<Item>, start: nat, head: seq<Item>, stack: Stack, node: Node, h: nat, offset: nat, idx: nat)
    returns (head': seq<Item>)
    requires h > 0 && Descending(t, all, start, head, stack, node, h, offset) && idx == Slot(Span(t.w, h), start - offset)
    requires idx < t.w && node.links[idx].Absent?
    ensures Found(t, all, start, head', Push(stack, node, idx), Drift(t.w, node, h, start - offset))
  {
    DriftAt(t.w, node, h, start - offset, idx);
    head' := StopHere(t, all, start, head, stack, node, h, offset, idx);
  }

  /** One level down. */
  method DownOne(bitWidth: nat, height: nat, start: nat, stack: Stack, node: Node, offset: nat, idx: nat,
                 ghost all: seq<Item>, ghost head: seq<Item>, ghost h: nat)
    returns (stack': Stack, node': Node, offset': nat, ghost head': seq<Item>)
    requires h > 0 && start <= MAX_INDEX
    requires Descending(Walk(Pow2(bitWidth), height, 0), all, start, head, stack, node, h, offset)
    requires idx == Slot(Span(Pow2(bitWidth), h), start - offset) < Pow2(bitWidth) && !node.links[idx].Absent?
    ensures Descending(Walk(Pow2(bitWidth), height, 0), all, start, head', stack', node', h - 1, offset')
    ensures Drift(Pow2(bitWidth), node', h - 1, start - offset') == Drift(Pow2(bitWidth), node, h, start - offset)
  {
    var under := OffsetOf(bitWidth, height - Depth(stack), idx, start - offset);
    offset' := offset + under;
    stack', node' := Push(stack, node, idx + 1), node.links[idx].node;
    head' := DownTo(bitWidth, height, start, stack, node, offset, idx, all, head, h, offset');
  }

  lemma DownTo(bitWidth: nat, height: nat, start: nat, stack: Stack, node: Node, offset: nat, idx: nat,
               all: seq<Item>, head: seq<Item>, h: nat, offset': nat)
    returns (head': seq<Item>)
    requires h > 0 && start <= MAX_INDEX
    requires Descending(Walk(Pow2(bitWidth), height, 0), all, start, head, stack, node, h, offset)
    requires idx == Slot(Span(Pow2(bitWidth), h), start - offset) < Pow2(bitWidth) && !node.links[idx].Absent?
    requires offset' == offset + Times(idx, Span(Pow2(bitWidth), h))
    ensures Descending(Walk(Pow2(bitWidth), height, 0), all, start, head', Push(stack, node, idx + 1), node.links[idx].node, h - 1,
                       offset')
    ensures Drift(Pow2(bitWidth), node.links[idx].node, h - 1, start - offset') == Drift(Pow2(bitWidth), node, h, start - offset)
  {
    DownDrift(bitWidth, node, h, start - offset, idx);
    head' := GoDown(Walk(Pow2(bitWidth), height, 0), all, start, head, stack, node, h, offset, idx);
  }

  lemma DownDrift(bitWidth: nat, n: Node, h: nat, i: nat, idx: nat)
    requires h > 0 && Shaped(Pow2(bitWidth), n, h) && i < Span(Pow2(bitWidth), h + 1) && i <= MAX_INDEX
    requires idx == Slot(Span(Pow2(bitWidth), h), i) < Pow2(bitWidth) && !n.links[idx].Absent?
    ensures Times(idx, Span(Pow2(bitWidth), h)) <= i
    ensures i - Times(idx, Span(Pow2(bitWidth), h)) < Span(Pow2(bitWidth), h) && Shaped(Pow2(bitWidth), n.links[idx].node, h - 1)
    ensures Drift(Pow2(bitWidth), n.links[idx].node, h - 1, i - Times(idx, Span(Pow2(bitWidth), h))) == Drift(Pow2(bitWidth), n, h, i)
  {
    DriftAt(Pow2(bitWidth), n, h, i, idx);
    SlotOffset(bitWidth, h, idx, i);
  }

  method SlotAt(bitWidth: nat, h: nat, i: nat) returns (idx: nat)
    requires i <= MAX_INDEX
    ensures idx == Slot(Span(Pow2(bitWidth), h), i)
  {
    SaturationIsHarmless(bitWidth, h, i);
    idx := i / NodesForHeight(bitWidth, h);
  }

  method OffsetOf(bitWidth: nat, h: nat, idx: nat, ghost i: nat) returns (offset: nat)
    requires i <= MAX_INDEX && idx == Slot(Span(Pow2(bitWidth), h), i)
    ensures offset == Times(idx, Span(Pow2(bitWidth), h))
  {
    SlotOffset(bitWidth, h, idx, i);
    offset := idx * NodesForHeight(bitWidth, h);
  }

  /** Saturation does not touch the offset of a slot that an index lies under. */
  lemma SlotOffset(bitWidth: nat, h: nat, idx: nat, i: nat)
    requires i <= MAX_INDEX && idx == Slot(Span(Pow2(bitWidth), h), i)
    ensures idx * NodesForHeight(bitWidth, h) == Times(idx, Span(Pow2(bitWidth), h))
    ensures i - idx * NodesForHeight(bitWidth, h) == AmtForm.Rest(Span(Pow2(bitWidth), h), i)
  {
    var s := Span(Pow2(bitWidth), h);
    SaturationIsHarmless(bitWidth, h, i);
    SlotRest(s, i);
    TimesIs(idx, NodesForHeight(bitWidth, h));
  }

  lemma {:induction false} LeafSlot(i: nat)
    ensures Slot(1, i) == i && AmtForm.Rest(1, i) == 0
  {
    if i > 0 {
      LeafSlot(i - 1);
    }
  }

  /** The items of an ascending list from an index on. */
  ghost function Since(s: seq<Item>, start: nat): seq<Item> {
    if s == [] || s[0].0 >= start then s else Since(s[1..], start)
  }

  lemma {:induction false} SinceIs(head: seq<Item>, rest: seq<Item>, start: nat)
    requires Below(head, start) && From(rest, start)
    ensures Since(head + rest, start) == rest
    decreases |head|
  {
    if head == [] {
      assert head + rest == rest;
    } else {
      assert (head + rest)[1..] == head[1..] + rest;
      SinceIs(head[1..], rest, start);
    }
  }

  /** Iterating from a start yields the entries from there on, under keys that are off by the drift: it
      is exact if and only if the start's path leads to a leaf or its first missing sub-tree begins at
      the start, or there are no such entries. */
  method CollectFrom(n: Node, bitWidth: nat, height: nat, start: nat) returns (items: seq<Item>)
    requires Shaped(Pow2(bitWidth), n, height) && 0 < start < Span(Pow2(bitWidth), height + 1) && start <= MAX_INDEX
    requires InRange(Items(Pow2(bitWidth), n, height, 0, 0))
    ensures var rest, drift := Since(Items(Pow2(bitWidth), n, height, 0, 0), start), Drift(Pow2(bitWidth), n, height, start);
            Yielded(rest, drift, items) && (items == rest <==> drift == 0 || rest == [])
  {
    var iter;
    ghost var head;
    iter, head := IterFrom(n, bitWidth, height, start);
    ghost var rest := iter.Rest();
    SinceIs(head, rest, start);
    items := Drain(iter);
    Tail(head, rest);
    ExactIff(rest, Drift(Pow2(bitWidth), n, height, start), items);
  }

  lemma Tail(head: seq<Item>, rest: seq<Item>)
    ensures InRange(head + rest) ==> InRange(rest)
  {
    assert forall i :: 0 <= i < |rest| ==> rest[i] == (head + rest)[|head| + i];
  }

  /** Nodes of two slots and one entry, at index 3: the sub-tree that index 1 lies in is missing. */
  lemma LoneEntry(n: Node, h: nat, v: Value)
    requires Canonical(2, n, h) && Amt.Represents(2, n, h, map[3 := v])
    ensures h == 1 && 1 < Span(2, 2) && Drift(2, n, 1, 1) == 1
    ensures Items(2, n, 1, 0, 0) == [(3, v)]
  {
    LoneHeight(n, h, v);
    assert Slot(2, 1) == 0 && AmtForm.Rest(2, 1) == 1;
    assert forall i: nat :: i < 2 ==> Find(2, n, 1, i) == Amt.Entry(map[3 := v], i) == None;
    if !n.links[0].Absent? {
      assert ShapedSlot(2, n.links[0], 1);
      var i := HoldsSomething(2, n.links[0].node, 0);
      AtSlot(2, n, 1, 0, i);
    }
    LoneItem(n, v);
  }

  lemma LoneHeight(n: Node, h: nat, v: Value)
    requires Canonical(2, n, h) && Amt.Represents(2, n, h, map[3 := v])
    ensures h == 1 && Span(2, 1) == 2 && Span(2, 2) == 4
  {
    SpanOne(2);
    assert Span(2, 2) == 4;
    Amt.HeightIsLeast(2, n, h, map[3 := v]);
    assert 3 in map[3 := v];
    if h >= 2 {
      SpanMonotone(2, 2, h);
    }
  }

  lemma LoneItem(n: Node, v: Value)
    requires Shaped(2, n, 1) && Span(2, 2) == 4 && Amt.Represents(2, n, 1, map[3 := v])
    ensures Items(2, n, 1, 0, 0) == [(3, v)]
  {
    var items := Items(2, n, 1, 0, 0);
    ItemsOrdered(2, n, 1, 0, 0);
    var m := map[3 := v];
    forall j: nat | j < 4 ensures Listed(items, j, Amt.Entry(m, j)) {
      ItemsExact(2, n, 1, 0, j);
      assert Find(2, n, 1, j) == Amt.Entry(m, j);
    }
    OnlyItem(items, m, v);
  }

  lemma OnlyItem(items: seq<Item>, m: map<nat, Value>, v: Value)
    requires m == map[3 := v] && Ascending(items) && Within(items, 0, 4)
    requires forall j: nat :: j < 4 ==> Listed(items, j, Amt.Entry(m, j))
    ensures items == [(3, v)]
  {
    assert Listed(items, 3, Amt.Entry(m, 3));
    forall k | 0 <= k < |items| ensures items[k].0 == 3 {
      assert Listed(items, items[k].0, Amt.Entry(m, items[k].0));
    }
    if |items| >= 2 {
      FirstTwo(items);
    }
  }

  lemma FirstTwo(items: seq<Item>)
    requires Ascending(items) && |items| >= 2
    ensures items[0].0 < items[1].0
  {
  }

  /** An array whose only entry, set at index 3, is yielded one index too late when iterating from 1. */
  method MisplacedStart(v: Value) returns (items: seq<Item>)
    ensures items == [(4, v)]
  {
    var amt := new Amt.Amt(1);
    var done := amt.Set(3, v);
    assert Pow2(1) == 2 && amt.m == map[3 := v];
    LoneEntry(amt.root, amt.height, v);
    items := CollectFrom(amt.root, amt.bitWidth, amt.height, 1);
    ghost var rest := Since([(3, v)], 1);
    assert rest[0..] == rest == [(3, v)] && !Done(rest, 1);
  }
}
