/** Whole runs of the state tree: any sequence of operations on the cached form is the same sequence
    on the simple form, and a transaction that is reverted leaves no trace, however its inside nests. */
module StateTreeRuns {
  import opened Common
  import opened CborGrammar
  import opened Actors
  import opened StateTree

  datatype Op =
    | Set(id: ActorID, actor: ActorState)
    | Delete(id: ActorID)
    | Read(id: ActorID)
    | Find(addr: Address)
    | Enroll(addr: Address)
    | Open
    | Close(revert: bool)
    | Write

  ghost function After(codec: InitCodec, t: Tree, op: Op): Tree {
    match op
    case Set(id, actor) => t.(view := t.view[id := actor])
    case Delete(id) => t.(view := t.view - {id})
    case Read(_) => t
    case Find(addr) => Lookup(codec, t, addr).0
    case Enroll(addr) => Register(codec, t, addr).0
    case Open => Begin(t)
    case Close(revert) => End(t, revert).0
    case Write => t
  }

  ghost function AfterAll(codec: InitCodec, t: Tree, ops: seq<Op>): Tree
    decreases |ops|
  {
    if ops == [] then t else After(codec, AfterAll(codec, t, ops[..|ops| - 1]), ops[|ops| - 1])
  }

  /** Runs operations on the cached form. */
  method Replay(tree: StateTree, ops: seq<Op>)
    requires tree.Valid()
    modifies tree, tree.actorCache, tree.resolveCache
    ensures tree.Valid() && tree.Abs() == AfterAll(tree.codec, old(tree.Abs()), ops)
  {
    var i := 0;
    assert ops[..0] == [];
    while i < |ops|
      invariant i <= |ops| && tree.Valid()
      invariant tree.Abs() == AfterAll(tree.codec, old(tree.Abs()), ops[..i])
    {
      assert ops[..i + 1][..i] == ops[..i];
      Perform(tree, ops[i]);
      i := i + 1;
    }
    assert ops[..i] == ops;
  }

  method Perform(tree: StateTree, op: Op)
    requires tree.Valid()
    modifies tree, tree.actorCache, tree.resolveCache
    ensures tree.Valid() && tree.Abs() == After(tree.codec, old(tree.Abs()), op)
  {
    match op {
      case Set(id, actor) => tree.SetActor(id, actor);
      case Delete(id) => tree.DeleteActor(id);
      case Read(id) => var _ := tree.GetActor(id);
      case Find(addr) => var _ := tree.LookupId(addr);
      case Enroll(addr) => var _ := tree.RegisterNewAddress(addr);
      case Open => tree.BeginTransaction();
      case Close(revert) => var _ := tree.EndTransaction(revert);
      case Write => var _ := tree.Flush();
    }
  }

  /** How many transactions are open after the operations; None if one is closed that they did not open. */
  ghost function Depth(ops: seq<Op>): Option<nat>
    decreases |ops|
  {
    if ops == [] then Some(0)
    else
      var d := Depth(ops[..|ops| - 1]);
      match ops[|ops| - 1]
      case Open => if d.Some? then Some(d.value + 1) else None
      case Close(_) => if d.Some? && d.value > 0 then Some(d.value - 1) else None
      case _ => d
  }

  /** Operations that close only what they opened leave the transactions around them alone. */
  lemma {:induction false} OuterKept(codec: InitCodec, t: Tree, ops: seq<Op>)
    requires Depth(ops).Some?
    ensures |AfterAll(codec, t, ops).saved| == |t.saved| + Depth(ops).value
    ensures t.saved <= AfterAll(codec, t, ops).saved
    decreases |ops|
  {
    if ops != [] {
      OuterKept(codec, t, ops[..|ops| - 1]);
    }
  }

  /** A reverted transaction restores exactly what was seen when it began; a committed one keeps what
      its inside did. */
  lemma TransactionEffect(codec: InitCodec, t: Tree, ops: seq<Op>, revert: bool)
    requires Depth(ops) == Some(0)
    ensures var inside := AfterAll(codec, Begin(t), ops);
            var after := End(inside, revert).0;
            && after.saved == t.saved
            && Snapshot(after.view, after.resolved) ==
               (if revert then Snapshot(t.view, t.resolved) else Snapshot(inside.view, inside.resolved))
  {
    OuterKept(codec, Begin(t), ops);
    var inside := AfterAll(codec, Begin(t), ops);
    assert inside.saved == Begin(t).saved;
  }

  /** Addresses are registered only when the init actor's map does not have them, and other changes
      only extend that map. */
  ghost predicate Grown(codec: InitCodec, t: Tree, ops: seq<Op>)
    decreases |ops|
  {
    ops == [] ||
    var before := AfterAll(codec, t, ops[..|ops| - 1]);
    && Grown(codec, t, ops[..|ops| - 1])
    && match ops[|ops| - 1]
       case Set(id, actor) => Grows(codec, before.view, before.view[id := actor])
       case Delete(id) => Grows(codec, before.view, before.view - {id})
       case Enroll(addr) => LoadInit(codec, before).Ok? ==> addr !in LoadInit(codec, before).value.addressMap
       case _ => true
  }

  /** Then every remembered resolution is right at every point of the run, across rollbacks. */
  lemma {:induction false} AlwaysResolvesRight(codec: InitCodec, t: Tree, ops: seq<Op>)
    requires ValidCodec(codec) && ResolvesRight(codec, t) && Grown(codec, t, ops)
    ensures ResolvesRight(codec, AfterAll(codec, t, ops))
    decreases |ops|
  {
    if ops != [] {
      var before := AfterAll(codec, t, ops[..|ops| - 1]);
      AlwaysResolvesRight(codec, t, ops[..|ops| - 1]);
      match ops[|ops| - 1] {
        case Set(id, actor) => UpdateIsRight(codec, before, before.view[id := actor]);
        case Delete(id) => UpdateIsRight(codec, before, before.view - {id});
        case Find(addr) => LookupIsRight(codec, before, addr);
        case Enroll(addr) => RegisterIsRight(codec, before, addr);
        case Open => TransactionIsRight(codec, before, false);
        case Close(revert) => TransactionIsRight(codec, before, revert);
        case Read(_) =>
        case Write =>
      }
    }
  }
}
