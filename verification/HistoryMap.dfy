/** A map with an undo history (`fvm/src/history_map.rs`). */
module HistoryMap {
  import opened Common

  /** The map before the recorded changes, undoing them last to first. */
  ghost function Undo<K, V>(m: map<K, V>, changes: seq<(K, Option<V>)>): map<K, V>
    decreases |changes|
  {
    if changes == [] then m
    else
      var (k, v) := changes[|changes| - 1];
      Undo(if v.Some? then m[k := v.value] else m - {k}, changes[..|changes| - 1])
  }

  class HistoryMap<K(==), V(==)> {
    var map_: map<K, V>
    var history: seq<(K, Option<V>)>

    constructor (initial: map<K, V>)
      ensures map_ == initial && history == []
    {
      map_, history := initial, [];
    }

    /** The map as it was when the history was `height` entries long. */
    ghost function At(height: nat): map<K, V>
      requires height <= |history|
      reads this
    {
      Undo(map_, history[height..])
    }

    lemma AtNow()
      ensures At(|history|) == map_
    {
      assert history[|history|..] == [];
    }

    /** Inserts a pair, recording the previous value if it differs. */
    method Insert(k: K, v: V)
      modifies this
      ensures map_ == old(map_)[k := v]
      ensures |history| >= |old(history)|
      ensures forall h :: 0 <= h <= |old(history)| ==> At(h) == old(At(h))
    {
      if k !in map_ {
        history := history + [(k, None)];
        map_ := map_[k := v];
        UndoesLast(old(map_), old(history), map_, history);
      } else if map_[k] != v {
        history := history + [(k, Some(map_[k]))];
        map_ := map_[k := v];
        UndoesLast(old(map_), old(history), map_, history);
      } else {
        assert map_ == map_[k := v];
      }
    }

    method Get(k: K) returns (r: Option<V>)
      ensures r == if k in map_ then Some(map_[k]) else None
    {
      r := if k in map_ then Some(map_[k]) else None;
    }

    /** Looks a key up, inserting `init` when it is absent; `init` may be an error. */
    method GetOrTryInsertWith<E>(k: K, init: Result<V, E>) returns (r: Result<V, E>)
      modifies this
      ensures k in old(map_) ==> r == Ok(old(map_)[k]) && map_ == old(map_) && history == old(history)
      ensures k !in old(map_) ==> r == init
      ensures map_ == if k !in old(map_) && init.Ok? then old(map_)[k := init.value] else old(map_)
      ensures |history| >= |old(history)|
      ensures forall h :: 0 <= h <= |old(history)| ==> At(h) == old(At(h))
    {
      if k in map_ {
        return Ok(map_[k]);
      }
      if init.Ok? {
        history := history + [(k, None)];
        map_ := map_[k := init.value];
        UndoesLast(old(map_), old(history), map_, history);
      }
      return init;
    }

    /** Rolls back to the specified point in history; a point in the future is no change. */
    method Rollback(height: nat)
      modifies this
      ensures |old(history)| <= height ==> map_ == old(map_) && history == old(history)
      ensures height <= |old(history)| ==> map_ == old(At(height)) && history == old(history)[..height]
      ensures height <= |old(history)| ==> forall h :: 0 <= h <= height ==> At(h) == old(At(h))
    {
      if |history| <= height {
        if |history| == height {
          AtNow();
          assert history == history[..height];
        }
        return;
      }
      var i := |history|;
      assert history[height..i] == history[height..];
      while i > height
        invariant height <= i <= |history| && history == old(history)
        invariant Undo(map_, history[height..i]) == old(At(height))
      {
        i := i - 1;
        var (k, v) := history[i];
        assert history[height..i + 1][..i - height] == history[height..i];
        match v {
          case Some(x) => map_ := map_[k := x];
          case None => map_ := map_ - {k};
        }
      }
      assert history[height..i] == [];
      history := history[..height];
      forall h | 0 <= h <= height ensures At(h) == old(At(h)) {
        UndoConcat(old(map_), old(history)[h..height], old(history)[height..]);
        assert old(history)[h..] == old(history)[h..height] + old(history)[height..];
        assert history[h..] == old(history)[h..height];
      }
    }

    /** Discards all undo history. */
    method DiscardHistory()
      modifies this
      ensures map_ == old(map_) && history == []
    {
      history := [];
    }
  }

  lemma {:induction false} UndoConcat<K, V>(m: map<K, V>, a: seq<(K, Option<V>)>, b: seq<(K, Option<V>)>)
    ensures Undo(m, a + b) == Undo(Undo(m, b), a)
    decreases |b|
  {
    if b == [] {
      assert a + b == a;
    } else {
      var n := |b| - 1;
      var (k, v) := b[n];
      assert (a + b)[..|a + b| - 1] == a + b[..n];
      UndoConcat(if v.Some? then m[k := v.value] else m - {k}, a, b[..n]);
    }
  }

  /** A recorded change is undone by its own entry, so no earlier point of the history moves. */
  lemma UndoesLast<K, V>(m: map<K, V>, history: seq<(K, Option<V>)>, m': map<K, V>, history': seq<(K, Option<V>)>)
    requires |history'| == |history| + 1 && history'[..|history|] == history
    requires var (k, v) := history'[|history|];
             (if v.Some? then m'[k := v.value] else m' - {k}) == m
    ensures forall h :: 0 <= h <= |history| ==> Undo(m', history'[h..]) == Undo(m, history[h..])
  {
    forall h | 0 <= h <= |history| ensures Undo(m', history'[h..]) == Undo(m, history[h..]) {
      var tail := history'[h..];
      assert tail[..|tail| - 1] == history[h..];
      assert tail[|tail| - 1] == history'[|history|];
    }
  }
}
