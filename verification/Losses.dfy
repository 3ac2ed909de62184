/** Both ways in which funds can vanish are real: a run for each, from the call of an actor down to its
    end, after which the balances add up to less than before. Each of them breaks one condition of the
    conservation theorem, and only that one. */
module Losses {
  import opened Common
  import opened BitStrings
  import opened CborGrammar
  import opened Actors
  import opened Blocks
  import opened CallManager
  import opened SyscallTrees
  import opened Semantics
  import opened Execution
  import CborScan
  import IpldScan
  import StateTree

  /** A machine in which nothing costs gas and calls can be made, and a store to begin with. */
  ghost predicate Playground(ctx: Context, store: Blockstore) {
    ValidContext(ctx) && Free(ctx.prices) && ctx.maxCallDepth >= 1 && Closed(ctx.wire, store) && ctx.emptyArr in store
  }

  /** The first ID after those of the burnt-funds actor and the others that are there from the start. */
  const FREE: ActorID := 100

  function Holder(ctx: Context, amount: nat): ActorState {
    ActorState(ctx.accountCode, ctx.emptyArr, 0, amount, None)
  }

  /** The init actor, which gives out the ID `next`. */
  function InitActor(ctx: Context, next: ActorID): ActorState {
    ActorState(ctx.accountCode, ctx.codec.initRoot(InitState(map[], next)), 0, 0, None)
  }

  /** The init actor and an actor that holds something. */
  function Two(ctx: Context, next: ActorID, id: ActorID, amount: nat): ActorMap {
    map[INIT_ACTOR_ID := InitActor(ctx, next), id := Holder(ctx, amount)]
  }

  function StoreFor(ctx: Context, store: Blockstore, next: ActorID): Blockstore {
    store + ctx.codec.initBlocks(InitState(map[], next))
  }

  lemma TwoOk(ctx: Context, store: Blockstore, next: ActorID, id: ActorID, amount: nat)
    requires Playground(ctx, store)
    ensures TreeOk(ctx, StateTree.Tree(Two(ctx, next, id, amount), map[], StoreFor(ctx, store, next), []))
    ensures id != INIT_ACTOR_ID ==> StateTree.InitIn(ctx.codec, Two(ctx, next, id, amount)) == Some(InitState(map[], next))
    ensures id != INIT_ACTOR_ID ==> Total(Two(ctx, next, id, amount)) == amount
  {
    var init := InitState(map[], next);
    ClosedUnion(ctx.wire, store, ctx.codec.initBlocks(init));
    assert ctx.codec.initRoot(init) in ctx.codec.initBlocks(init);
    if id != INIT_ACTOR_ID {
      PairTotal(id, InitActor(ctx, next), Holder(ctx, amount));
    }
  }

  lemma PairTotal(id: ActorID, a: ActorState, b: ActorState)
    requires id != INIT_ACTOR_ID
    ensures Total(map[INIT_ACTOR_ID := a, id := b]) == a.balance + b.balance
    ensures Total(map[INIT_ACTOR_ID := a]) == a.balance
  {
    var m: ActorMap := map[];
    TotalUpdate(m, INIT_ACTOR_ID, a);
    TotalUpdate(m[INIT_ACTOR_ID := a], id, b);
    assert m[INIT_ACTOR_ID := a] == map[INIT_ACTOR_ID := a];
    assert m[INIT_ACTOR_ID := a][id := b] == map[INIT_ACTOR_ID := a, id := b];
  }

  /** A call without value, by a call manager of its own. */
  method Play(ctx: Context, tree: StateTree.Tree, from: ActorID, to: Address, entry: Entrypoint, target: Target)
    returns (r: Result<InvocationResult, ExecutionError>, after: ActorMap)
    requires ValidContext(ctx) && ctx.maxCallDepth >= 1 && TreeOk(ctx, tree) && tree.saved == []
    requires EntryCode(entry, target.callee) == OK
    ensures AsTold(ctx.prices, Sequel(ctx, tree.view, tree.resolved, from, to, entry, 0, target), OK, r, after)
  {
    OverlaidStart(ctx.wire, tree.store);
    var cm := new CallManager(ctx, tree, 0, from, IdAddress(from), None, to, {}, tree.store, {});
    ghost var log;
    r, log := TransactCall(cm, from, to, entry, None, 0, None, false, target);
    after := cm.tree.view;
  }

  // ---------------------------------------------------------------- the burnt funds

  function SelfDestruction(): Target {
    Target(Invocation([], Return(NO_DATA_BLOCK_ID)), Invocation([Destruct(true)], Return(NO_DATA_BLOCK_ID)))
  }

  lemma SelfDestructionOnlyBurns(id: ActorID, floor: ActorID)
    ensures TameTarget(Law(false, true, true, floor), SelfDestruction(), Known(id))
    ensures TameTarget(Law(true, true, true, floor), SelfDestruction(), Known(id)) <==> id != BURNT_FUNDS_ACTOR_ID
    ensures TameTarget(Law(true, true, true, floor), SelfDestruction(), Found)
  {
    var inv := SelfDestruction().callee;
    assert inv.calls[0] == Destruct(true);
    assert TameCall(Law(true, true, true, floor), inv.calls[0], Known(id)) <==> id != BURNT_FUNDS_ACTOR_ID;
  }

  /** The burnt-funds actor destroys itself: its balance goes to itself and then away. Nothing but the
      tree is to blame. */
  method DestroyBurntFunds(ctx: Context, store: Blockstore, amount: nat)
    returns (r: Result<InvocationResult, ExecutionError>, before: ActorMap, after: ActorMap)
    requires Playground(ctx, store)
    ensures Success(r) && before == Two(ctx, FREE, BURNT_FUNDS_ACTOR_ID, amount) && after == before - {BURNT_FUNDS_ACTOR_ID}
    ensures Total(before) == amount && Total(after) == 0
    ensures StateTree.InitIn(ctx.codec, before).Some? && Begins(Law(true, true, true, FREE), ctx.codec, Point(before, map[], []))
    ensures !TameTarget(Law(true, true, true, FREE), SelfDestruction(), Known(BURNT_FUNDS_ACTOR_ID))
  {
    before := Two(ctx, FREE, BURNT_FUNDS_ACTOR_ID, amount);
    var tree := StateTree.Tree(before, map[], StoreFor(ctx, store, FREE), []);
    TwoOk(ctx, store, FREE, BURNT_FUNDS_ACTOR_ID, amount);
    SelfDestructionOnlyBurns(BURNT_FUNDS_ACTOR_ID, FREE);
    DestructionTold(ctx, amount);
    r, after := Play(ctx, tree, SYSTEM_ACTOR_ID, IdAddress(BURNT_FUNDS_ACTOR_ID), Invoke(METHOD_CONSTRUCTOR + 1), SelfDestruction());
  }

  lemma DestructionTold(ctx: Context, amount: nat)
    ensures Sequel(ctx, Two(ctx, FREE, BURNT_FUNDS_ACTOR_ID, amount), map[], SYSTEM_ACTOR_ID,
                   IdAddress(BURNT_FUNDS_ACTOR_ID), Invoke(METHOD_CONSTRUCTOR + 1), 0, SelfDestruction())
            == Some(Two(ctx, FREE, BURNT_FUNDS_ACTOR_ID, amount) - {BURNT_FUNDS_ACTOR_ID})
    ensures Total(Two(ctx, FREE, BURNT_FUNDS_ACTOR_ID, amount) - {BURNT_FUNDS_ACTOR_ID}) == 0
  {
    PairTotal(BURNT_FUNDS_ACTOR_ID, InitActor(ctx, FREE), Holder(ctx, amount));
    assert Two(ctx, FREE, BURNT_FUNDS_ACTOR_ID, amount) - {BURNT_FUNDS_ACTOR_ID} == map[INIT_ACTOR_ID := InitActor(ctx, FREE)];
  }

  // ---------------------------------------------------------------- an ID given out twice

  function Newcomer(): Address {
    DelegatedAddress(EAM_ACTOR_ID, 0)
  }

  function NothingToRun(): Target {
    Target(Invocation([], Return(NO_DATA_BLOCK_ID)), Invocation([], Return(NO_DATA_BLOCK_ID)))
  }

  /** A send of nothing to a new address: its placeholder takes the place of an actor, which has the ID
      that the init actor gives out next. Nothing but that is to blame. */
  method OverwriteActor(ctx: Context, store: Blockstore, amount: nat)
    returns (r: Result<InvocationResult, ExecutionError>, before: ActorMap, after: ActorMap)
    requires Playground(ctx, store)
    ensures Success(r) && before == Two(ctx, FREE, FREE, amount) && after.Keys == before.Keys
    ensures after[FREE] == EmptyActor(ctx, ctx.placeholderCode, Some(Newcomer()))
    ensures Total(before) == amount && Total(after) == 0
    ensures !Fresh(ctx.codec, 0, before) && Clear(ctx.codec, before, map[])
    ensures TameTarget(Law(true, true, true, 0), NothingToRun(), Receiver(Newcomer()))
  {
    before := Two(ctx, FREE, FREE, amount);
    var tree := StateTree.Tree(before, map[], StoreFor(ctx, store, FREE), []);
    TwoOk(ctx, store, FREE, FREE, amount);
    TakenIsNotFresh(ctx, before);
    UsurpationTold(ctx, amount);
    r, after := Play(ctx, tree, FREE, Newcomer(), Invoke(METHOD_SEND), NothingToRun());
  }

  lemma TakenIsNotFresh(ctx: Context, view: ActorMap)
    requires StateTree.InitIn(ctx.codec, view) == Some(InitState(map[], FREE)) && FREE in view
    ensures !Fresh(ctx.codec, 0, view) && Clear(ctx.codec, view, map[])
  {
  }

  ghost function Usurped(ctx: Context): ActorMap {
    map[INIT_ACTOR_ID := InitActor(ctx, FREE).(state := ctx.codec.initRoot(InitState(map[Newcomer() := FREE], FREE + 1))),
        FREE := EmptyActor(ctx, ctx.placeholderCode, Some(Newcomer()))]
  }

  lemma UsurpationTold(ctx: Context, amount: nat)
    requires ValidCodec(ctx.codec)
    ensures Sequel(ctx, Two(ctx, FREE, FREE, amount), map[], FREE, Newcomer(), Invoke(METHOD_SEND), 0, NothingToRun())
            == Some(Usurped(ctx))
    ensures Total(Usurped(ctx)) == 0
  {
    var view := Two(ctx, FREE, FREE, amount);
    assert StateTree.InitIn(ctx.codec, view) == Some(InitState(map[], FREE));
    assert StateTree.Registered(ctx.codec, view, Newcomer())[FREE := Usurped(ctx)[FREE]] == Usurped(ctx);
    PairTotal(FREE, Usurped(ctx)[INIT_ACTOR_ID], Usurped(ctx)[FREE]);
  }

  // ---------------------------------------------------------------- a machine exists

  /** Numbers, addresses and the init actor's state in writing: whatever follows, they can be told apart. */
  ghost function Unary(n: nat): seq<Byte> {
    if n == 0 then [0] else [1] + Unary(n - 1)
  }

  lemma {:induction false} UnaryApart(m: nat, n: nat, x: seq<Byte>, y: seq<Byte>)
    requires Unary(m) + x == Unary(n) + y
    ensures m == n && x == y
  {
    assert (Unary(m) + x)[0] == (Unary(n) + y)[0];
    if m == 0 {
      assert x == (Unary(m) + x)[1..] == (Unary(n) + y)[1..] == y;
    } else {
      assert Unary(m - 1) + x == (Unary(m) + x)[1..] == (Unary(n) + y)[1..] == Unary(n - 1) + y;
      UnaryApart(m - 1, n - 1, x, y);
    }
  }

  ghost function Numbers(a: Address): (nat, nat, nat) {
    match a
    case IdAddress(id) => (0, id, 0)
    case KeyAddress(key) => (1, key, 0)
    case ActorAddress(hash) => (2, hash, 0)
    case DelegatedAddress(namespace, sub) => (3, namespace, sub)
  }

  ghost function Written(a: Address, id: ActorID): seq<Byte> {
    var (kind, first, second) := Numbers(a);
    Unary(kind) + (Unary(first) + (Unary(second) + Unary(id)))
  }

  lemma WrittenApart(a: Address, i: ActorID, b: Address, j: ActorID, x: seq<Byte>, y: seq<Byte>)
    requires Written(a, i) + x == Written(b, j) + y
    ensures a == b && i == j && x == y
  {
    var (k, m, n) := Numbers(a);
    var (k', m', n') := Numbers(b);
    Regroup(Unary(k), Unary(m), Unary(n), Unary(i), x);
    Regroup(Unary(k'), Unary(m'), Unary(n'), Unary(j), y);
    UnaryApart(k, k', Unary(m) + (Unary(n) + (Unary(i) + x)), Unary(m') + (Unary(n') + (Unary(j) + y)));
    UnaryApart(m, m', Unary(n) + (Unary(i) + x), Unary(n') + (Unary(j) + y));
    UnaryApart(n, n', Unary(i) + x, Unary(j) + y);
    UnaryApart(i, j, x, y);
  }

  lemma Regroup(a: seq<Byte>, b: seq<Byte>, c: seq<Byte>, d: seq<Byte>, x: seq<Byte>)
    ensures (a + (b + (c + d))) + x == a + (b + (c + (d + x)))
  {
  }

  ghost function Any(m: map<Address, ActorID>): (a: Address)
    requires m != map[]
    ensures a in m
  {
    var a :| a in m;
    a
  }

  ghost function Listed(m: map<Address, ActorID>): seq<Byte>
    decreases |m|, 1
  {
    if m == map[] then [0]
    else
      Smaller(m, Any(m));
      [1] + Entry(m)
  }

  ghost function Entry(m: map<Address, ActorID>): seq<Byte>
    requires m != map[]
    decreases |m|, 0
  {
    Smaller(m, Any(m));
    Written(Any(m), m[Any(m)]) + Listed(m - {Any(m)})
  }

  lemma Smaller(m: map<Address, ActorID>, a: Address)
    requires a in m
    ensures |m - {a}| < |m|
  {
    assert m.Keys == (m - {a}).Keys + {a};
    assert |m| == |m.Keys| && |m - {a}| == |(m - {a}).Keys|;
  }

  lemma {:induction false} ListedApart(m: map<Address, ActorID>, n: map<Address, ActorID>, x: seq<Byte>, y: seq<Byte>)
    requires Listed(m) + x == Listed(n) + y
    ensures m == n && x == y
    decreases |m|, 1
  {
    assert (Listed(m) + x)[0] == (Listed(n) + y)[0];
    if m == map[] {
      assert x == (Listed(m) + x)[1..] == (Listed(n) + y)[1..] == y;
    } else {
      assert Entry(m) + x == (Listed(m) + x)[1..] == (Listed(n) + y)[1..] == Entry(n) + y;
      EntryApart(m, n, x, y);
    }
  }

  lemma {:induction false} EntryApart(m: map<Address, ActorID>, n: map<Address, ActorID>, x: seq<Byte>, y: seq<Byte>)
    requires m != map[] && n != map[] && Entry(m) + x == Entry(n) + y
    ensures m == n && x == y
    decreases |m|, 0
  {
    var a, b := Any(m), Any(n);
    var k, l := Listed(m - {a}), Listed(n - {b});
    assert Written(a, m[a]) + (k + x) == Entry(m) + x;
    assert Written(b, n[b]) + (l + y) == Entry(n) + y;
    WrittenApart(a, m[a], b, n[b], k + x, l + y);
    Smaller(m, a);
    ListedApart(m - {a}, n - {a}, x, y);
    assert m == (m - {a})[a := m[a]] && n == (n - {a})[a := n[a]];
  }

  ghost function RootOf(s: InitState): Cid {
    Cid(CBOR, 0, Listed(s.addressMap) + Unary(s.nextId))
  }

  lemma RootsApart(s: InitState, t: InitState)
    requires RootOf(s) == RootOf(t)
    ensures s == t
  {
    ListedApart(s.addressMap, t.addressMap, Unary(s.nextId), Unary(t.nextId));
    UnaryApart(s.nextId, t.nextId, [], []);
  }

  ghost function StateAt(c: Cid): Option<InitState> {
    if exists s :: RootOf(s) == c then
      var s :| RootOf(s) == c;
      Some(s)
    else None
  }

  lemma StateAtRoot(s: InitState)
    ensures StateAt(RootOf(s)) == Some(s)
  {
    RootsApart(s, StateAt(RootOf(s)).value);
  }

  /** The conditions on a machine can be met, so what is proved of all machines is of something. */
  lemma PlaygroundExists()
    ensures exists ctx, store :: Playground(ctx, store)
  {
    var none := (b: seq<Byte>) => None;
    IpldScan.Rfc7049Valid(none);
    var codec := InitCodec(s => RootOf(s), s => map[RootOf(s) := []], c => StateAt(c));
    CodecOk(codec, IpldScan.Rfc7049(none));
    var prices := PriceList(0, 0, 0, b => 0, 0, (m, n) => 0, (d, m, n) => 0, 0, 0, 0, 0, 0, (m, n) => 0, (m, n) => 0, n => 0, 0,
                            (d, m, n) => 0, CborScan.Prices(0, 0));
    var code := Cid(IPLD_RAW, 0, []);
    var ctx := Context(codec, IpldScan.Rfc7049(none), (c: nat, data: seq<Byte>) => Cid(c, 0, []), a => [], c => [], code, code,
                       code, code, KeyAddress(0), prices, 1024, 0);
    assert Playground(ctx, map[code := []]);
  }

  lemma CodecOk(codec: InitCodec, w: Wire)
    requires codec == InitCodec(s => RootOf(s), s => map[RootOf(s) := []], c => StateAt(c))
    ensures ValidCodec(codec) && forall s :: Closed(w, codec.initBlocks(s)) && AllScan(w, codec.initBlocks(s))
  {
    forall s ensures codec.initOf(codec.initRoot(s)) == Some(s) {
      StateAtRoot(s);
    }
  }
}
