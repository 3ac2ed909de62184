/** Which actors and addresses the message has already paid for
    (`fvm/src/call_manager/state_access_tracker.rs`). `Tracked` is the simple form: the records, and a
    stack of copies of them. */
module AccessTracker {
  import opened Common
  import opened Actors
  import opened HistoryMap

  datatype Access = Read | Updated
  datatype Layer = Layer(addressesHeight: nat, actorsHeight: nat)
  datatype Charged = Charged(actors: map<ActorID, Access>, addresses: map<Address, ()>)

  datatype Tracked = Tracked(now: Charged, saved: seq<Charged>)

  function AccessOf(t: Tracked, id: ActorID): Option<Access> {
    if id in t.now.actors then Some(t.now.actors[id]) else None
  }

  /** Reading does not lower an actor that was already updated. */
  function RecordRead(t: Tracked, id: ActorID): Tracked {
    if id in t.now.actors then t else t.(now := t.now.(actors := t.now.actors[id := Read]))
  }

  function RecordUpdate(t: Tracked, id: ActorID): Tracked {
    t.(now := t.now.(actors := t.now.actors[id := Updated]))
  }

  predicate AddressCharged(t: Tracked, addr: Address) {
    addr.IdAddress? || addr in t.now.addresses
  }

  function RecordLookup(t: Tracked, addr: Address): Tracked {
    if addr.IdAddress? then t else t.(now := t.now.(addresses := t.now.addresses[addr := ()]))
  }

  function Begin(t: Tracked): Tracked {
    Tracked(t.now, t.saved + [t.now])
  }

  /** A reverted transaction forgets its accesses, so they are charged for again. */
  function End(t: Tracked, revert: bool): (Tracked, Result<(), ExecutionError>) {
    if t.saved == [] then (t, Err(Fatal))
    else
      var n := |t.saved| - 1;
      (Tracked(if revert then t.saved[n] else t.now, t.saved[..n]), Ok(()))
  }

  function Preloaded(preload: set<ActorID>): Tracked {
    Tracked(Charged(map id | id in preload :: Updated, map[]), [])
  }

  class StateAccessTracker {
    const actors: HistoryMap<ActorID, Access>
    const addresses: HistoryMap<Address, ()>
    var layers: seq<Layer>
    /** What was charged for when each open transaction began. */
    ghost var saved: seq<Charged>

    ghost function Repr(): set<object> {
      {this, actors, addresses}
    }

    ghost predicate LayerOk(i: nat)
      requires i < |layers| == |saved|
      reads this, actors, addresses
    {
      var Layer(d, a) := layers[i];
      && a <= |actors.history| && d <= |addresses.history|
      && saved[i] == Charged(actors.At(a), addresses.At(d))
      && forall j :: 0 <= j < i ==> layers[j].actorsHeight <= a && layers[j].addressesHeight <= d
    }

    ghost predicate Valid()
      reads this, actors, addresses
    {
      |layers| == |saved| && forall i :: 0 <= i < |layers| ==> LayerOk(i)
    }

    ghost function Abs(): Tracked
      reads this, actors, addresses
    {
      Tracked(Charged(actors.map_, addresses.map_), saved)
    }

    constructor (preload: set<ActorID>)
      ensures Valid() && fresh(Repr()) && Abs() == Preloaded(preload)
    {
      actors := new HistoryMap(map id | id in preload :: Updated);
      addresses := new HistoryMap(map[]);
      layers, saved := [], [];
    }

    twostate lemma LayersKept()
      requires old(Valid()) && layers == old(layers) && saved == old(saved)
      requires old(|actors.history|) <= |actors.history| && old(|addresses.history|) <= |addresses.history|
      requires forall h :: 0 <= h <= old(|actors.history|) ==> actors.At(h) == old(actors.At(h))
      requires forall h :: 0 <= h <= old(|addresses.history|) ==> addresses.At(h) == old(addresses.At(h))
      ensures Valid()
    {
      forall i | 0 <= i < |layers| ensures LayerOk(i) {
        assert old(LayerOk(i));
        var Layer(d, a) := layers[i];
        assert actors.At(a) == old(actors.At(a)) && addresses.At(d) == old(addresses.At(d));
      }
    }

    method BeginTransaction()
      requires Valid()
      modifies this
      ensures Valid() && Abs() == Begin(old(Abs()))
    {
      actors.AtNow();
      addresses.AtNow();
      layers := layers + [Layer(|addresses.history|, |actors.history|)];
      saved := saved + [Charged(actors.map_, addresses.map_)];
      forall i | 0 <= i < |layers| ensures LayerOk(i) {
        if i < |old(layers)| {
          assert old(LayerOk(i));
        } else {
          forall j | 0 <= j < i
            ensures layers[j].actorsHeight <= |actors.history| && layers[j].addressesHeight <= |addresses.history|
          {
            assert old(LayerOk(j));
          }
        }
      }
    }

    method EndTransaction(revert: bool) returns (r: Result<(), ExecutionError>)
      requires Valid()
      modifies Repr()
      ensures Valid() && (Abs(), r) == End(old(Abs()), revert)
    {
      if layers == [] {
        return Err(Fatal);
      }
      var n := |layers| - 1;
      var layer := layers[n];
      assert LayerOk(n);
      layers := layers[..n];
      saved := saved[..n];
      if revert {
        actors.Rollback(layer.actorsHeight);
        addresses.Rollback(layer.addressesHeight);
      }
      forall i | 0 <= i < |layers| ensures LayerOk(i) {
        assert old(LayerOk(i));
      }
      return Ok(());
    }

    method GetActorAccessState(id: ActorID) returns (r: Option<Access>)
      ensures r == AccessOf(Abs(), id)
    {
      r := actors.Get(id);
    }

    method RecordActorRead(id: ActorID)
      requires Valid()
      modifies actors
      ensures Valid() && Abs() == RecordRead(old(Abs()), id)
    {
      var access := actors.Get(id);
      if access.None? {
        actors.Insert(id, Read);
        LayersKept();
      }
    }

    method RecordActorUpdate(id: ActorID)
      requires Valid()
      modifies actors
      ensures Valid() && Abs() == RecordUpdate(old(Abs()), id)
    {
      actors.Insert(id, Updated);
      LayersKept();
    }

    method GetAddressLookupState(addr: Address) returns (charged: bool)
      ensures charged <==> AddressCharged(Abs(), addr)
    {
      var found := addresses.Get(addr);
      charged := addr.IdAddress? || found.Some?;
    }

    method RecordLookupAddress(addr: Address)
      requires Valid()
      modifies addresses
      ensures Valid() && Abs() == RecordLookup(old(Abs()), addr)
    {
      if addr.IdAddress? {
        return;
      }
      addresses.Insert(addr, ());
      LayersKept();
    }
  }
}
