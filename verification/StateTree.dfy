/** The state tree: a write-back cache with nested transactions over the actors HAMT
    (`fvm/src/state_tree.rs`), and the init actor's address map (`fvm/src/init_actor.rs`). The HAMT
    is the map it represents.

    `Tree` is the simple form: a map and a stack of copies of it. The class, with its caches and undo
    logs, is proved to do exactly what the operations on `Tree` do. */
module StateTree {
  import opened Common
  import opened CborGrammar
  import opened Actors
  import opened HistoryMap

  datatype Entry = Entry(dirty: bool, actor: Option<ActorState>)
  datatype Layer = Layer(actorCacheHeight: nat, resolveCacheHeight: nat)
  datatype Snapshot = Snapshot(view: ActorMap, resolved: map<Address, ActorID>)

  function Stored(hamt: ActorMap, id: ActorID): Option<ActorState> {
    if id in hamt then Some(hamt[id]) else None
  }

  /** What a reader finds: the cached entry if there is one, else the stored one. */
  ghost function Found(cache: map<ActorID, Entry>, hamt: ActorMap, id: ActorID): Option<ActorState> {
    if id in cache then cache[id].actor else Stored(hamt, id)
  }

  ghost function ViewOf(cache: map<ActorID, Entry>, hamt: ActorMap): ActorMap {
    map id | id in cache.Keys + hamt.Keys && Found(cache, hamt, id).Some? :: Found(cache, hamt, id).value
  }

  /** A clean cache entry is what is stored. */
  ghost predicate Clean(cache: map<ActorID, Entry>, hamt: ActorMap) {
    forall id :: id in cache && !cache[id].dirty ==> cache[id].actor == Stored(hamt, id)
  }

  // ---------------------------------------------------------------- the simple form

  /** The actors that readers see, the resolutions that are remembered, the blockstore, and what was
      seen and remembered when each open transaction began. */
  datatype Tree = Tree(
    view: ActorMap,
    resolved: map<Address, ActorID>,
    store: Blockstore,
    saved: seq<Snapshot>)

  /** The init actor's state in `view`. */
  function InitIn(codec: InitCodec, view: ActorMap): Option<InitState> {
    if INIT_ACTOR_ID in view then codec.initOf(view[INIT_ACTOR_ID].state) else None
  }

  /** Cached resolutions are those of the init actor. */
  ghost predicate Agrees(codec: InitCodec, s: Snapshot) {
    forall a :: a in s.resolved ==>
      var init := InitIn(codec, s.view);
      init.Some? && a in init.value.addressMap && init.value.addressMap[a] == s.resolved[a]
  }

  /** The init actor's address map only grows. */
  ghost predicate Grows(codec: InitCodec, before: ActorMap, after: ActorMap) {
    var was, now := InitIn(codec, before), InitIn(codec, after);
    was.Some? ==>
      && now.Some?
      && forall a :: a in was.value.addressMap ==>
           a in now.value.addressMap && now.value.addressMap[a] == was.value.addressMap[a]
  }

  /** `InitActorState::load`. */
  function LoadInit(codec: InitCodec, t: Tree): Result<InitState, ExecutionError> {
    if InitIn(codec, t.view).Some? && t.view[INIT_ACTOR_ID].state in t.store
    then Ok(InitIn(codec, t.view).value) else Err(Fatal)
  }

  function Resolved(init: InitState, addr: Address): Option<ActorID> {
    if addr in init.addressMap then Some(init.addressMap[addr]) else None
  }

  /** The ID of an address, as remembered or from the init actor. */
  function Lookup(codec: InitCodec, t: Tree, addr: Address): (Tree, Result<Option<ActorID>, ExecutionError>) {
    if addr.IdAddress? then (t, Ok(Some(addr.id)))
    else if addr in t.resolved then (t, Ok(Some(t.resolved[addr])))
    else
      var init := LoadInit(codec, t);
      if init.Err? then (t, Err(init.error))
      else
        var id := Resolved(init.value, addr);
        (if id.Some? then t.(resolved := t.resolved[addr := id.value]) else t, Ok(id))
  }

  /** The ID that an address has, if any. */
  ghost function IdOf(codec: InitCodec, view: ActorMap, resolved: map<Address, ActorID>, addr: Address): Option<ActorID> {
    if addr.IdAddress? then Some(addr.id)
    else if addr in resolved then Some(resolved[addr])
    else if InitIn(codec, view).Some? then Resolved(InitIn(codec, view).value, addr)
    else None
  }

  /** Every resolution remembered is one that was remembered, or the init actor's. */
  ghost predicate Recalls(codec: InitCodec, view: ActorMap, before: map<Address, ActorID>, after: map<Address, ActorID>) {
    forall a :: a in after ==>
      || (a in before && after[a] == before[a])
      || (InitIn(codec, view).Some? && Resolved(InitIn(codec, view).value, a) == Some(after[a]))
  }

  /** The actors once the init actor has given an address its next ID. */
  ghost function Registered(codec: InitCodec, view: ActorMap, addr: Address): ActorMap
    requires InitIn(codec, view).Some?
  {
    var InitState(addresses, id) := InitIn(codec, view).value;
    view[INIT_ACTOR_ID := view[INIT_ACTOR_ID].(state := codec.initRoot(InitState(addresses[addr := id], id + 1)))]
  }

  ghost predicate Assigned(codec: InitCodec, before: ActorMap, after: ActorMap, addr: Address, id: ActorID) {
    InitIn(codec, before).Some? && id == InitIn(codec, before).value.nextId && after == Registered(codec, before, addr)
  }

  /** Gives a new address the next free ID. */
  function Register(codec: InitCodec, t: Tree, addr: Address): (Tree, Result<ActorID, ExecutionError>) {
    var init := LoadInit(codec, t);
    if init.Err? then (t, Err(init.error))
    else
      var InitState(addresses, id) := init.value;
      var next := InitState(addresses[addr := id], id + 1);
      var view := t.view[INIT_ACTOR_ID := t.view[INIT_ACTOR_ID].(state := codec.initRoot(next))];
      (Tree(view, t.resolved[addr := id], t.store + codec.initBlocks(next), t.saved), Ok(id))
  }

  function Begin(t: Tree): Tree {
    t.(saved := t.saved + [Snapshot(t.view, t.resolved)])
  }

  /** A reverted transaction leaves what was there when it began; blocks stay. */
  function End(t: Tree, revert: bool): (Tree, Result<(), ExecutionError>) {
    if t.saved == [] then (t, Err(Fatal))
    else
      var n := |t.saved| - 1;
      var last := if revert then t.saved[n] else Snapshot(t.view, t.resolved);
      (Tree(last.view, last.resolved, t.store, t.saved[..n]), Ok(()))
  }

  // ---------------------------------------------------------------- resolutions

  /** All resolutions that are remembered, or would be after a rollback, are those of the init actor. */
  ghost predicate ResolvesRight(codec: InitCodec, t: Tree) {
    && Agrees(codec, Snapshot(t.view, t.resolved))
    && forall i :: 0 <= i < |t.saved| ==> Agrees(codec, t.saved[i])
  }

  /** What is looked up is what the init actor's map says now, however it was remembered. */
  lemma LookupIsRight(codec: InitCodec, t: Tree, addr: Address)
    requires ResolvesRight(codec, t)
    ensures ResolvesRight(codec, Lookup(codec, t, addr).0)
    ensures var r := Lookup(codec, t, addr).1;
            !addr.IdAddress? && r.Ok? ==> InitIn(codec, t.view).Some?
                                          && r.value == Resolved(InitIn(codec, t.view).value, addr)
  {
  }

  /** Registering an address that is not in the map yet keeps all resolutions right. */
  lemma RegisterIsRight(codec: InitCodec, t: Tree, addr: Address)
    requires ValidCodec(codec) && ResolvesRight(codec, t)
    requires LoadInit(codec, t).Ok? ==> addr !in LoadInit(codec, t).value.addressMap
    ensures ResolvesRight(codec, Register(codec, t, addr).0)
    ensures var (t', r) := Register(codec, t, addr);
            r.Ok? ==> Lookup(codec, t', addr) == (t', if addr.IdAddress? then Ok(Some(addr.id)) else Ok(Some(r.value)))
  {
  }

  /** So does any change of actors under which the init actor's map only grows. */
  lemma UpdateIsRight(codec: InitCodec, t: Tree, view: ActorMap)
    requires ResolvesRight(codec, t) && Grows(codec, t.view, view)
    ensures ResolvesRight(codec, t.(view := view))
  {
  }

  lemma TransactionIsRight(codec: InitCodec, t: Tree, revert: bool)
    requires ResolvesRight(codec, t)
    ensures ResolvesRight(codec, Begin(t)) && ResolvesRight(codec, End(t, revert).0)
  {
  }

  // ---------------------------------------------------------------- the cached form

  lemma ViewSet(cache: map<ActorID, Entry>, hamt: ActorMap, id: ActorID, e: Entry)
    ensures ViewOf(cache[id := e], hamt) ==
            if e.actor.Some? then ViewOf(cache, hamt)[id := e.actor.value] else ViewOf(cache, hamt) - {id}
    ensures Clean(cache, hamt) && (e.dirty || e.actor == Stored(hamt, id)) ==> Clean(cache[id := e], hamt)
  {
  }

  class StateTree {
    const codec: InitCodec
    const actorCache: HistoryMap<ActorID, Entry>
    const resolveCache: HistoryMap<Address, ActorID>
    var hamt: ActorMap
    var store: Blockstore
    var layers: seq<Layer>
    /** The actors that readers see. */
    ghost var view: ActorMap
    /** What was seen when each open transaction began. */
    ghost var saved: seq<Snapshot>

    ghost function Repr(): set<object> {
      {this, actorCache, resolveCache}
    }

    ghost predicate LayerOk(i: nat)
      requires i < |layers| == |saved|
      reads this, actorCache, resolveCache
    {
      var Layer(a, r) := layers[i];
      && a <= |actorCache.history| && r <= |resolveCache.history|
      && Clean(actorCache.At(a), hamt)
      && saved[i] == Snapshot(ViewOf(actorCache.At(a), hamt), resolveCache.At(r))
      && forall j :: 0 <= j < i ==> layers[j].actorCacheHeight <= a && layers[j].resolveCacheHeight <= r
    }

    ghost predicate Valid()
      reads this, actorCache, resolveCache
    {
      && ValidCodec(codec)
      && Clean(actorCache.map_, hamt)
      && view == ViewOf(actorCache.map_, hamt)
      && |layers| == |saved|
      && forall i :: 0 <= i < |layers| ==> LayerOk(i)
    }

    /** The simple form of this state. */
    ghost function Abs(): Tree
      reads this, resolveCache
    {
      Tree(view, resolveCache.map_, store, saved)
    }

    /** Changes that are recorded in the histories leave every open transaction as it was. */
    twostate lemma LayersKept()
      requires old(|layers| == |saved| && forall i :: 0 <= i < |layers| ==> LayerOk(i))
      requires layers == old(layers) && saved == old(saved) && hamt == old(hamt)
      requires old(|actorCache.history|) <= |actorCache.history|
      requires old(|resolveCache.history|) <= |resolveCache.history|
      requires forall h :: 0 <= h <= old(|actorCache.history|) ==> actorCache.At(h) == old(actorCache.At(h))
      requires forall h :: 0 <= h <= old(|resolveCache.history|) ==> resolveCache.At(h) == old(resolveCache.At(h))
      ensures forall i :: 0 <= i < |layers| ==> LayerOk(i)
    {
      forall i | 0 <= i < |layers| ensures LayerOk(i) {
        assert old(LayerOk(i));
        var Layer(a, r) := layers[i];
        assert actorCache.At(a) == old(actorCache.At(a)) && resolveCache.At(r) == old(resolveCache.At(r));
      }
    }

    constructor (codec: InitCodec, hamt: ActorMap, store: Blockstore)
      requires ValidCodec(codec)
      ensures Valid() && fresh(Repr()) && this.codec == codec && Abs() == Tree(hamt, map[], store, [])
    {
      this.codec, this.hamt, this.store, layers, saved := codec, hamt, store, [], [];
      actorCache := new HistoryMap(map[]);
      resolveCache := new HistoryMap(map[]);
      view := hamt;
    }

    method GetActor(id: ActorID) returns (r: Option<ActorState>)
      requires Valid()
      modifies actorCache
      ensures Valid() && Abs() == old(Abs()) && r == Stored(view, id)
    {
      var entry := Entry(false, Stored(hamt, id));
      var init: Result<Entry, ()> := Ok(entry);
      ViewSet(actorCache.map_, hamt, id, entry);
      var got := actorCache.GetOrTryInsertWith(id, init);
      LayersKept();
      r := got.value.actor;
    }

    method SetActor(id: ActorID, actor: ActorState)
      requires Valid()
      modifies this`view, actorCache
      ensures Valid() && Abs() == old(Abs()).(view := old(view)[id := actor])
    {
      ViewSet(actorCache.map_, hamt, id, Entry(true, Some(actor)));
      actorCache.Insert(id, Entry(true, Some(actor)));
      view := view[id := actor];
      LayersKept();
    }

    method DeleteActor(id: ActorID)
      requires Valid()
      modifies this`view, actorCache
      ensures Valid() && Abs() == old(Abs()).(view := old(view) - {id})
    {
      ViewSet(actorCache.map_, hamt, id, Entry(true, None));
      actorCache.Insert(id, Entry(true, None));
      view := view - {id};
      LayersKept();
    }

    method LoadInitActor() returns (r: Result<(InitState, ActorState), ExecutionError>)
      requires Valid()
      modifies actorCache
      ensures Valid() && Abs() == old(Abs())
      ensures r.Ok? ==> LoadInit(codec, Abs()) == Ok(r.value.0) && r.value.1 == view[INIT_ACTOR_ID]
      ensures r.Err? ==> LoadInit(codec, Abs()) == Err(r.error)
    {
      var actor := GetActor(INIT_ACTOR_ID);
      if actor.None? || actor.value.state !in store || codec.initOf(actor.value.state).None? {
        return Err(Fatal);
      }
      return Ok((codec.initOf(actor.value.state).value, actor.value));
    }

    /** The ID of an address, from the cache or from the init actor. */
    method LookupId(addr: Address) returns (r: Result<Option<ActorID>, ExecutionError>)
      requires Valid()
      modifies actorCache, resolveCache
      ensures Valid() && (Abs(), r) == Lookup(codec, old(Abs()), addr)
    {
      if addr.IdAddress? {
        return Ok(Some(addr.id));
      }
      var cached := resolveCache.Get(addr);
      if cached.Some? {
        return Ok(cached);
      }
      var init := LoadInitActor();
      if init.Err? {
        return Err(init.error);
      }
      var a := Resolved(init.value.0, addr);
      if a.Some? {
        label before:
        resolveCache.Insert(addr, a.value);
        LayersKept@before();
      }
      return Ok(a);
    }

    /** Registers a new address through the init actor, which gives it the next free ID. */
    method RegisterNewAddress(addr: Address) returns (r: Result<ActorID, ExecutionError>)
      requires Valid()
      modifies this`view, this`store, actorCache, resolveCache
      ensures Valid() && (Abs(), r) == Register(codec, old(Abs()), addr)
    {
      var loaded := LoadInitActor();
      if loaded.Err? {
        return Err(loaded.error);
      }
      var (init, actor) := loaded.value;
      var id := init.nextId;
      var next := InitState(init.addressMap[addr := id], id + 1);
      label loading:
      store := store + codec.initBlocks(next);
      LayersKept@loading();
      SetActor(INIT_ACTOR_ID, actor.(state := codec.initRoot(next)));
      label setting:
      resolveCache.Insert(addr, id);
      LayersKept@setting();
      return Ok(id);
    }

    /** Begins a new transaction. Transactions stack. */
    method BeginTransaction()
      requires Valid()
      modifies this`layers, this`saved
      ensures Valid() && Abs() == Begin(old(Abs()))
    {
      actorCache.AtNow();
      resolveCache.AtNow();
      layers := layers + [Layer(|actorCache.history|, |resolveCache.history|)];
      saved := saved + [Snapshot(view, resolveCache.map_)];
      forall i | 0 <= i < |layers| ensures LayerOk(i) {
        if i < |old(layers)| {
          assert old(LayerOk(i));
        } else {
          forall j | 0 <= j < i
            ensures layers[j].actorCacheHeight <= |actorCache.history|
                    && layers[j].resolveCacheHeight <= |resolveCache.history|
          {
            assert old(LayerOk(j));
          }
        }
      }
    }

    /** Ends a transaction: a reverted one leaves what was seen when it began. */
    method EndTransaction(revert: bool) returns (r: Result<(), ExecutionError>)
      requires Valid()
      modifies this`layers, this`saved, this`view, actorCache, resolveCache
      ensures Valid() && (Abs(), r) == End(old(Abs()), revert)
    {
      if layers == [] {
        return Err(Fatal);
      }
      var n := |layers| - 1;
      var layer := layers[n];
      assert LayerOk(n);
      layers := layers[..n];
      saved := saved[..n];
      forall i | 0 <= i < n ensures LayerOk(i) {
        assert old(LayerOk(i));
      }
      if revert {
        RollBack(layer, old(saved)[n]);
      }
      if layers == [] {
        actorCache.DiscardHistory();
        resolveCache.DiscardHistory();
      }
      return Ok(());
    }

    /** Back to a layer above all others; what is seen then is the layer's snapshot. */
    method RollBack(layer: Layer, ghost snap: Snapshot)
      requires Valid()
      requires layer.actorCacheHeight <= |actorCache.history| && layer.resolveCacheHeight <= |resolveCache.history|
      requires Clean(actorCache.At(layer.actorCacheHeight), hamt)
      requires snap == Snapshot(ViewOf(actorCache.At(layer.actorCacheHeight), hamt), resolveCache.At(layer.resolveCacheHeight))
      requires forall i :: 0 <= i < |layers| ==> layers[i].actorCacheHeight <= layer.actorCacheHeight
                                                 && layers[i].resolveCacheHeight <= layer.resolveCacheHeight
      modifies this`view, actorCache, resolveCache
      ensures Valid() && view == snap.view && resolveCache.map_ == snap.resolved
    {
      actorCache.Rollback(layer.actorCacheHeight);
      resolveCache.Rollback(layer.resolveCacheHeight);
      view := snap.view;
      forall i | 0 <= i < |layers| ensures LayerOk(i) {
        assert old(LayerOk(i));
      }
    }

    /** Writes the dirty entries to the HAMT, outside of any transaction. */
    method Flush() returns (r: Result<(), ExecutionError>)
      requires Valid()
      modifies this`hamt, actorCache
      ensures Valid() && Abs() == old(Abs())
      ensures r.Ok? <==> saved == []
      ensures r.Ok? ==> hamt == view
      ensures r.Err? ==> r.error == Fatal && hamt == old(hamt)
    {
      if layers != [] {
        return Err(Fatal);
      }
      var todo := actorCache.map_.Keys;
      while todo != {}
        invariant layers == [] && saved == [] && ValidCodec(codec)
        invariant todo <= actorCache.map_.Keys
        invariant Clean(actorCache.map_, hamt) && view == ViewOf(actorCache.map_, hamt)
        invariant forall id :: id in actorCache.map_ && id !in todo ==> !actorCache.map_[id].dirty
        decreases |todo|
      {
        var id :| id in todo;
        todo := todo - {id};
        if actorCache.map_[id].dirty {
          WriteEntry(id);
        }
      }
      AllClean(actorCache.map_, hamt);
      return Ok(());
    }

    /** Writes one dirty entry, which is clean then. */
    method WriteEntry(id: ActorID)
      requires id in actorCache.map_ && Clean(actorCache.map_, hamt)
      modifies this`hamt, actorCache`map_
      ensures actorCache.map_ == old(actorCache.map_)[id := Entry(false, old(actorCache.map_)[id].actor)]
      ensures Clean(actorCache.map_, hamt) && ViewOf(actorCache.map_, hamt) == old(ViewOf(actorCache.map_, hamt))
    {
      var entry := actorCache.map_[id];
      ghost var cache, stored := actorCache.map_, hamt;
      actorCache.map_ := actorCache.map_[id := Entry(false, entry.actor)];
      match entry.actor {
        case None => hamt := hamt - {id};
        case Some(state) => hamt := hamt[id := state];
      }
      FlushOne(cache, stored, id, hamt);
    }
  }

  lemma FlushOne(cache: map<ActorID, Entry>, hamt: ActorMap, id: ActorID, hamt': ActorMap)
    requires id in cache && Clean(cache, hamt)
    requires hamt' == if cache[id].actor.Some? then hamt[id := cache[id].actor.value] else hamt - {id}
    ensures var cache' := cache[id := Entry(false, cache[id].actor)];
            Clean(cache', hamt') && ViewOf(cache', hamt') == ViewOf(cache, hamt)
  {
  }

  lemma AllClean(cache: map<ActorID, Entry>, hamt: ActorMap)
    requires Clean(cache, hamt) && forall id :: id in cache ==> !cache[id].dirty
    ensures ViewOf(cache, hamt) == hamt
  {
  }
}
