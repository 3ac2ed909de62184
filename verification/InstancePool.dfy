/** The pool of engine instances (`fvm/src/engine/instance_pool.rs`), shared by engines that run at the
    same time. A step is one critical section under the pool's mutex: a first attempt to take, a
    wake-up of a sleeping engine, its next attempt, or a return. */
module InstancePool {
  import opened Common

  type EngineId = nat

  /** The pool, what each engine holds, and the engines that wait in `take`: `sleeping` on the
      condition variable, or `woken` and about to look again. */
  datatype Pool = Pool(
    limit: nat,
    available: int,
    locked: Option<EngineId>,
    held: map<EngineId, nat>,
    sleeping: set<EngineId>,
    woken: set<EngineId>)

  datatype Step =
    | Arrive(id: EngineId)
    | Wake(id: EngineId)
    | Retry(id: EngineId)
    | Return(id: EngineId, notified: Option<EngineId>)

  const EXPECTED_MAX_STACK_DEPTH: nat := 20
  const MAX_POOL_SIZE: nat := 48 * 1024

  /** `EngineConfig::instance_pool_size`. */
  function PoolSize(maxCallDepth: nat, concurrency: nat): nat {
    Min(maxCallDepth + EXPECTED_MAX_STACK_DEPTH * concurrency, MAX_POOL_SIZE)
  }

  function Held(p: Pool, id: EngineId): nat {
    if id in p.held then p.held[id] else 0
  }

  /** The pool is not locked by another engine. */
  predicate Admits(p: Pool, id: EngineId) {
    p.locked.None? || p.locked.value == id
  }

  ghost predicate Waiting(p: Pool, id: EngineId) {
    id in p.sleeping || id in p.woken
  }

  /** An engine that waits does nothing else, and none asks for more instances than its call depth
      allows. A notification wakes one sleeping engine, if there is one. */
  ghost predicate Enabled(p: Pool, s: Step) {
    match s
    case Arrive(id) => !Waiting(p, id) && Held(p, id) < p.limit
    case Wake(id) => id in p.sleeping
    case Retry(id) => id in p.woken
    case Return(id, notified) =>
      && !Waiting(p, id) && Held(p, id) > 0
      && if p.available + 1 >= p.limit && p.sleeping != {} then notified.Some? && notified.value in p.sleeping
         else notified.None?
  }

  function Take(p: Pool, id: EngineId): Pool {
    p.(available := p.available - 1,
       locked := if p.available - 1 < p.limit then Some(id) else p.locked,
       held := p.held[id := Held(p, id) + 1],
       woken := p.woken - {id})
  }

  function Block(p: Pool, id: EngineId): Pool {
    p.(sleeping := p.sleeping + {id}, woken := p.woken - {id})
  }

  function Notify(p: Pool, id: EngineId): Pool {
    p.(sleeping := p.sleeping - {id}, woken := p.woken + {id})
  }

  function Next(p: Pool, s: Step): Pool {
    match s
    case Arrive(id) => if Admits(p, id) then Take(p, id) else Block(p, id)
    case Retry(id) => if Admits(p, id) then Take(p, id) else Block(p, id)
    case Wake(id) => Notify(p, id)
    case Return(id, notified) =>
      var back := p.(available := p.available + 1,
                     locked := if p.available + 1 >= p.limit then None else p.locked,
                     held := p.held[id := if Held(p, id) > 0 then Held(p, id) - 1 else 0]);
      if notified.Some? then Notify(back, notified.value) else back
  }

  // ---------------------------------------------------------------- the invariant

  ghost predicate Inv(p: Pool) {
    && p.limit >= 1
    && p.available >= 0
    && (p.locked.Some? <==> p.available < p.limit)
    && (p.locked.Some? ==> p.available + Held(p, p.locked.value) >= p.limit && !Waiting(p, p.locked.value))
    && p.sleeping !! p.woken
    && (forall id :: Held(p, id) <= p.limit)
    && (forall id :: Waiting(p, id) ==> Held(p, id) < p.limit)
    && (p.locked.None? && p.sleeping != {} ==> |p.woken| >= p.available - p.limit + 1)
  }

  /** A pool as the engine makes it. It is large enough unless the call depth is beyond the cap. */
  lemma InitialInv(maxCallDepth: nat, concurrency: nat)
    ensures Inv(Pool(maxCallDepth, PoolSize(maxCallDepth, concurrency), None, map[], {}, {})) <==>
            1 <= maxCallDepth <= MAX_POOL_SIZE
  {
    assert EXPECTED_MAX_STACK_DEPTH * concurrency >= 0;
  }

  lemma TakeKeeps(p: Pool, id: EngineId)
    requires Inv(p) && Admits(p, id) && Held(p, id) < p.limit && id !in p.sleeping
    ensures p.available > 0
    ensures Inv(Take(p, id))
  {
    var q := Take(p, id);
    forall e ensures Held(q, e) == if e == id then Held(p, e) + 1 else Held(p, e) {
    }
    OneLess(p.woken, id);
    assert !Waiting(q, id);
    assert forall e :: Waiting(q, e) ==> Waiting(p, e) && e != id;
  }

  lemma OneLess(s: set<EngineId>, id: EngineId)
    ensures |s - {id}| >= |s| - 1
    ensures id !in s ==> s - {id} == s
  {
    if id in s {
      assert s == (s - {id}) + {id};
    }
  }

  lemma BlockKeeps(p: Pool, id: EngineId)
    requires Inv(p) && !Admits(p, id) && Held(p, id) < p.limit
    ensures Inv(Block(p, id))
  {
    assert forall e :: Held(Block(p, id), e) == Held(p, e);
  }

  lemma NotifyKeeps(p: Pool, id: EngineId)
    requires Inv(p) && id in p.sleeping
    ensures Inv(Notify(p, id))
  {
    var q := Notify(p, id);
    assert forall e :: Held(q, e) == Held(p, e);
    assert q.woken == p.woken + {id} && id !in p.woken;
  }

  lemma ReturnKeeps(p: Pool, id: EngineId, notified: Option<EngineId>)
    requires Inv(p) && Enabled(p, Return(id, notified))
    ensures Inv(Next(p, Return(id, notified)))
  {
    var q := Next(p, Return(id, notified));
    assert forall e :: Held(q, e) == if e == id then Held(p, e) - 1 else Held(p, e);
    if notified.Some? {
      assert q.woken == p.woken + {notified.value} && notified.value !in p.woken;
      assert |q.woken| == |p.woken| + 1;
    }
  }

  lemma StepKeeps(p: Pool, s: Step)
    requires Inv(p) && Enabled(p, s)
    ensures Inv(Next(p, s))
  {
    match s {
      case Arrive(id) => if Admits(p, id) { TakeKeeps(p, id); } else { BlockKeeps(p, id); }
      case Retry(id) =>
        assert Waiting(p, id);
        if Admits(p, id) { TakeKeeps(p, id); } else { BlockKeeps(p, id); }
      case Wake(id) => NotifyKeeps(p, id);
      case Return(id, notified) => ReturnKeeps(p, id, notified);
    }
  }

  // ---------------------------------------------------------------- what it gives

  /** Safety and progress in a state that satisfies the invariant. */
  ghost predicate Safe(p: Pool) {
    // whoever gets past the wait finds an instance
    && (forall id :: Admits(p, id) && Held(p, id) < p.limit ==> p.available > 0)
    // the holder of the lock has an instance, does not wait, and is admitted
    && (p.locked.Some? ==> Held(p, p.locked.value) >= 1 && !Waiting(p, p.locked.value) && Admits(p, p.locked.value))
    // an engine sleeps only while the pool is locked, or else another is awake that will be admitted
    && (p.locked.None? && p.sleeping != {} ==> p.woken != {})
    && (p.locked.None? ==> forall id :: id in p.woken ==> Admits(p, id))
  }

  lemma InvIsSafe(p: Pool)
    requires Inv(p)
    ensures Safe(p)
  {
    if p.woken == {} {
      assert |p.woken| == 0;
    }
  }

  /** The engine that holds the lock can give an instance back; without a lock there are engines that
      are awake, and the next attempt of each of them takes an instance. */
  ghost predicate Unblocked(p: Pool) {
    && (p.locked.Some? ==> exists n :: Enabled(p, Return(p.locked.value, n)))
    && (p.locked.None? ==> p.woken != {} && forall e :: e in p.woken ==> Enabled(p, Retry(e)) && Next(p, Retry(e)) == Take(p, e))
  }

  /** A waiting engine is never stuck. */
  lemma NoDeadlock(p: Pool, id: EngineId)
    requires Inv(p) && Waiting(p, id)
    ensures Unblocked(p)
  {
    InvIsSafe(p);
    if p.locked.Some? {
      var h := p.locked.value;
      var notified := if p.available + 1 >= p.limit && p.sleeping != {} then Some(AnyOf(p.sleeping)) else None;
      assert Enabled(p, Return(h, notified));
    }
  }

  ghost function AnyOf(s: set<EngineId>): (e: EngineId)
    requires s != {}
    ensures e in s
  {
    var e :| e in s;
    e
  }

  ghost function After(p: Pool, steps: seq<Step>): Pool
    decreases |steps|
  {
    if steps == [] then p else Next(After(p, steps[..|steps| - 1]), steps[|steps| - 1])
  }

  ghost predicate Schedule(p: Pool, steps: seq<Step>)
    decreases |steps|
  {
    steps == [] ||
    (Schedule(p, steps[..|steps| - 1]) && Enabled(After(p, steps[..|steps| - 1]), steps[|steps| - 1]))
  }

  /** In every interleaving of every engine, every state is safe. */
  lemma {:induction false} EveryRunIsSafe(maxCallDepth: nat, concurrency: nat, steps: seq<Step>)
    requires 1 <= maxCallDepth <= MAX_POOL_SIZE
    requires Schedule(Pool(maxCallDepth, PoolSize(maxCallDepth, concurrency), None, map[], {}, {}), steps)
    ensures var p := After(Pool(maxCallDepth, PoolSize(maxCallDepth, concurrency), None, map[], {}, {}), steps);
            Inv(p) && Safe(p)
    decreases |steps|
  {
    var start := Pool(maxCallDepth, PoolSize(maxCallDepth, concurrency), None, map[], {}, {});
    if steps == [] {
      InitialInv(maxCallDepth, concurrency);
    } else {
      var before := steps[..|steps| - 1];
      EveryRunIsSafe(maxCallDepth, concurrency, before);
      StepKeeps(After(start, before), steps[|steps| - 1]);
    }
    InvIsSafe(After(start, steps));
  }

  /** In every state of every interleaving in which some engine waits, one that it waits for can move. */
  lemma NoRunDeadlocks(maxCallDepth: nat, concurrency: nat, steps: seq<Step>, id: EngineId)
    requires 1 <= maxCallDepth <= MAX_POOL_SIZE
    requires Schedule(Pool(maxCallDepth, PoolSize(maxCallDepth, concurrency), None, map[], {}, {}), steps)
    requires Waiting(After(Pool(maxCallDepth, PoolSize(maxCallDepth, concurrency), None, map[], {}, {}), steps), id)
    ensures Unblocked(After(Pool(maxCallDepth, PoolSize(maxCallDepth, concurrency), None, map[], {}, {}), steps))
  {
    EveryRunIsSafe(maxCallDepth, concurrency, steps);
    NoDeadlock(After(Pool(maxCallDepth, PoolSize(maxCallDepth, concurrency), None, map[], {}, {}), steps), id);
  }

  // ---------------------------------------------------------------- how many engines the size is for

  /** All instances that are out. */
  ghost function Out(held: map<EngineId, nat>): nat {
    if held == map[] then 0
    else
      var id :| id in held;
      held[id] + Out(held - {id})
  }

  lemma {:induction false} OutRemove(held: map<EngineId, nat>, id: EngineId)
    requires id in held
    ensures Out(held) == held[id] + Out(held - {id})
    decreases |held|
  {
    var pick :| pick in held && Out(held) == held[pick] + Out(held - {pick});
    if pick != id {
      assert held.Keys == (held - {pick}).Keys + {pick} && |held| == |held.Keys|;
      assert held.Keys == (held - {id}).Keys + {id};
      assert |held - {pick}| == |(held - {pick}).Keys| && |held - {id}| == |(held - {id}).Keys|;
      OutRemove(held - {pick}, id);
      OutRemove(held - {id}, pick);
      assert (held - {pick}) - {id} == (held - {id}) - {pick};
    }
  }

  lemma OutUpdate(p: Pool, id: EngineId, n: nat)
    ensures Out(p.held[id := n]) == Out(p.held) - Held(p, id) + n
  {
    var held := p.held[id := n];
    OutRemove(held, id);
    if id in p.held {
      OutRemove(p.held, id);
      assert held - {id} == p.held - {id};
    } else {
      assert held - {id} == p.held;
    }
  }

  /** Instances are neither made nor lost. */
  lemma StepConserves(p: Pool, s: Step)
    requires Enabled(p, s)
    ensures Next(p, s).available + Out(Next(p, s).held) == p.available + Out(p.held) && Next(p, s).limit == p.limit
  {
    match s {
      case Arrive(id) => OutUpdate(p, id, Held(p, id) + 1);
      case Retry(id) => OutUpdate(p, id, Held(p, id) + 1);
      case Wake(id) =>
      case Return(id, _) => OutUpdate(p, id, Held(p, id) - 1);
    }
  }

  lemma {:induction false} RunConserves(p: Pool, steps: seq<Step>)
    requires Schedule(p, steps)
    ensures After(p, steps).available + Out(After(p, steps).held) == p.available + Out(p.held) && After(p, steps).limit == p.limit
    decreases |steps|
  {
    if steps != [] {
      var before := steps[..|steps| - 1];
      RunConserves(p, before);
      StepConserves(After(p, before), steps[|steps| - 1]);
    }
  }

  /** What the size is for: while the engines together use no more than the expected stack depth for each
      that may run, the pool is not locked, and whoever arrives gets an instance at once. */
  lemma ExpectedUseNeverWaits(maxCallDepth: nat, concurrency: nat, steps: seq<Step>, id: EngineId)
    requires 1 <= maxCallDepth && maxCallDepth + EXPECTED_MAX_STACK_DEPTH * concurrency <= MAX_POOL_SIZE
    requires Schedule(Pool(maxCallDepth, PoolSize(maxCallDepth, concurrency), None, map[], {}, {}), steps)
    requires var p := After(Pool(maxCallDepth, PoolSize(maxCallDepth, concurrency), None, map[], {}, {}), steps);
             Out(p.held) <= EXPECTED_MAX_STACK_DEPTH * concurrency && Enabled(p, Arrive(id))
    ensures var p := After(Pool(maxCallDepth, PoolSize(maxCallDepth, concurrency), None, map[], {}, {}), steps);
            p.locked.None? && Next(p, Arrive(id)) == Take(p, id)
  {
    var start := Pool(maxCallDepth, PoolSize(maxCallDepth, concurrency), None, map[], {}, {});
    assert EXPECTED_MAX_STACK_DEPTH * concurrency >= 0;
    EveryRunIsSafe(maxCallDepth, concurrency, steps);
    RunConserves(start, steps);
  }

  ghost function Repeat(n: nat, s: Step): seq<Step> {
    seq(n, i => s)
  }

  /** Beyond the cap on the pool the promise fails: an engine alone takes instances within its limit
      until none is left, and the next attempt finds the pool empty. */
  lemma {:induction false} ShortPoolRunsOut(maxCallDepth: nat, concurrency: nat, n: nat)
    requires maxCallDepth > MAX_POOL_SIZE && n <= MAX_POOL_SIZE
    ensures var start := Pool(maxCallDepth, PoolSize(maxCallDepth, concurrency), None, map[], {}, {});
            var steps := Repeat(n, Arrive(0));
            && Schedule(start, steps)
            && var p := After(start, steps);
               && p.limit == maxCallDepth && p.available == MAX_POOL_SIZE - n && Held(p, 0) == n
               && Admits(p, 0) && !Waiting(p, 0)
               && (n == MAX_POOL_SIZE ==> Enabled(p, Arrive(0)) && !Safe(p))
  {
    var start := Pool(maxCallDepth, PoolSize(maxCallDepth, concurrency), None, map[], {}, {});
    assert EXPECTED_MAX_STACK_DEPTH * concurrency >= 0;
    if n > 0 {
      ShortPoolRunsOut(maxCallDepth, concurrency, n - 1);
      assert Repeat(n, Arrive(0))[..n - 1] == Repeat(n - 1, Arrive(0));
      var before := After(start, Repeat(n - 1, Arrive(0)));
      assert Enabled(before, Arrive(0));
      assert After(start, Repeat(n, Arrive(0))) == Take(before, 0);
    }
  }

  // ---------------------------------------------------------------- the code

  class InstancePool {
    const perEngineLimit: nat
    var available: int
    var locked: Option<EngineId>
    ghost var held: map<EngineId, nat>
    ghost var sleeping: set<EngineId>
    ghost var woken: set<EngineId>

    ghost function Abs(): Pool
      reads this
    {
      Pool(perEngineLimit, available, locked, held, sleeping, woken)
    }

    constructor (size: nat, perEngineLimit: nat)
      ensures Abs() == Pool(perEngineLimit, size, None, map[], {}, {})
    {
      this.perEngineLimit, available, locked := perEngineLimit, size, None;
      held, sleeping, woken := map[], {}, {};
    }

    /** Gives back an instance of engine `id`; `wakes` is the engine that the condition variable picks. */
    method Put(ghost id: EngineId, ghost wakes: Option<EngineId>)
      requires Inv(Abs()) && Enabled(Abs(), Return(id, wakes))
      modifies this
      ensures Inv(Abs()) && Abs() == Next(old(Abs()), Return(id, wakes))
    {
      ReturnKeeps(Abs(), id, wakes);
      ghost var next := Next(Abs(), Return(id, wakes));
      available := available + 1;
      if available >= perEngineLimit {
        locked := None;
      }
      held, sleeping, woken := next.held, next.sleeping, next.woken;
    }

    /** One attempt to take an instance: it goes to sleep if the pool is locked by another engine.
        The assertion that an instance is available is proved here. */
    method Attempt(id: EngineId) returns (taken: bool)
      requires Inv(Abs()) && (Enabled(Abs(), Arrive(id)) || Enabled(Abs(), Retry(id)))
      modifies this
      ensures Inv(Abs()) && Abs() == Next(old(Abs()), Arrive(id)) == Next(old(Abs()), Retry(id))
      ensures taken <==> Admits(old(Abs()), id)
    {
      if locked.Some? && locked.value != id {
        BlockKeeps(Abs(), id);
        sleeping := sleeping + {id};
        woken := woken - {id};
        return false;
      }
      assert Held(Abs(), id) < perEngineLimit by {
        assert id in woken ==> Waiting(Abs(), id);
      }
      TakeKeeps(Abs(), id);
      assert available > 0;
      available := available - 1;
      if available < perEngineLimit {
        locked := Some(id);
      }
      held := held[id := Held(old(Abs()), id) + 1];
      woken := woken - {id};
      return true;
    }
  }
}
