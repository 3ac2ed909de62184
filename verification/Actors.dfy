/** Actors, addresses and balances: the values that the state tree, the call manager and the
    kernel share. */
module Actors {
  import opened Common
  import opened BitStrings
  import opened CborGrammar

  type ActorID = nat
  type TokenAmount = int

  datatype Address =
    | IdAddress(id: ActorID)
    | KeyAddress(key: nat)
    | ActorAddress(hash: nat)
    | DelegatedAddress(namespace: ActorID, sub: nat)

  datatype ActorState = ActorState(
    code: Cid,
    state: Cid,
    sequence: nat,
    balance: TokenAmount,
    delegatedAddress: Option<Address>)

  datatype ErrorNumber =
    | IllegalArgument | IllegalOperation | LimitExceeded | InsufficientFunds
    | NotFound | InvalidHandle | IllegalCid | IllegalCodec | Serialization | Forbidden | ReadOnly

  datatype ExecutionError = OutOfGas | Fatal | Syscall(number: ErrorNumber)

  const INIT_ACTOR_ID: ActorID := 1
  const BURNT_FUNDS_ACTOR_ID: ActorID := 99
  const REWARD_ACTOR_ID: ActorID := 2
  const EAM_ACTOR_ID: ActorID := 10
  const SYSTEM_ACTOR_ID: ActorID := 0

  /** The state of the init actor, and how it lies in the blockstore: `initBlocks` are the blocks
      that writing it puts there, under the CID `initRoot`; `initOf` reads it back. */
  datatype InitState = InitState(addressMap: map<Address, ActorID>, nextId: ActorID)

  datatype InitCodec = InitCodec(
    initRoot: InitState -> Cid,
    initBlocks: InitState -> Blockstore,
    initOf: Cid -> Option<InitState>)

  ghost predicate ValidCodec(c: InitCodec) {
    forall s :: c.initOf(c.initRoot(s)) == Some(s) && c.initRoot(s) in c.initBlocks(s)
  }

  // ---------------------------------------------------------------- balances

  type ActorMap = map<ActorID, ActorState>

  /** The sum of all balances. */
  ghost function Total(m: ActorMap): int {
    if m == map[] then 0
    else
      var id :| id in m;
      m[id].balance + Total(m - {id})
  }

  lemma {:induction false} TotalRemove(m: ActorMap, id: ActorID)
    requires id in m
    ensures Total(m) == m[id].balance + Total(m - {id})
    decreases |m|
  {
    var pick :| pick in m && Total(m) == m[pick].balance + Total(m - {pick});
    if pick != id {
      var rest := m - {pick};
      assert |rest| < |m| by {
        assert m.Keys == rest.Keys + {pick};
        assert |m| == |m.Keys| && |rest| == |rest.Keys|;
      }
      TotalRemove(rest, id);
      TotalRemove(m - {id}, pick) by {
        assert m.Keys == (m - {id}).Keys + {id};
        assert |m| == |m.Keys| && |m - {id}| == |(m - {id}).Keys|;
      }
      assert rest - {id} == (m - {id}) - {pick};
    }
  }

  ghost function BalanceOf(m: ActorMap, id: ActorID): int {
    if id in m then m[id].balance else 0
  }

  lemma TotalUpdate(m: ActorMap, id: ActorID, actor: ActorState)
    ensures Total(m[id := actor]) == Total(m) - BalanceOf(m, id) + actor.balance
    ensures Total(m - {id}) == Total(m) - BalanceOf(m, id)
  {
    var m' := m[id := actor];
    TotalRemove(m', id);
    assert m' - {id} == m - {id};
    if id in m {
      TotalRemove(m, id);
    } else {
      assert m - {id} == m;
    }
  }

  ghost predicate NonNegative(m: ActorMap) {
    forall id :: id in m ==> m[id].balance >= 0
  }
}
