/**
 The permits that bound how many Xray scans are prepared and imported at a time. A pool is a channel used
 as a counter: putting a token in takes a permit, taking one out returns it.
 */
module XrayPermits {
  datatype PoolName = Work | Import

  type PermitId = nat

  datatype Permit = Permit(pool: PoolName, held: bool, waiting: bool)

  datatype System = System(capacity: nat, tokens: map<PoolName, nat>, permits: map<PermitId, Permit>)

  // What the coordinator that owns a permit does, and what the runtime and the context do to its waiting.
  datatype Action = Create(id: PermitId)
                  | Acquire(id: PermitId)
                  | Grant(id: PermitId)
                  | GiveUp(id: PermitId)
                  | Release(id: PermitId)
                  | Retarget(id: PermitId)

  // ----- steps -----

  predicate Idle(s: System, id: PermitId) { id in s.permits && !s.permits[id].held && !s.permits[id].waiting }

  predicate Waits(s: System, id: PermitId) { id in s.permits && s.permits[id].waiting }

  predicate Holds(s: System, id: PermitId) { id in s.permits && s.permits[id].held }

  function Tokens(s: System, pool: PoolName): nat { if pool in s.tokens then s.tokens[pool] else 0 }

  /** A step that cannot be taken leaves the system as it is; acquireImport is Release, Retarget and Grant. */
  function Next(s: System, a: Action): System {
    match a
    case Create(id) => if id in s.permits then s else s.(permits := s.permits[id := Permit(Work, false, false)])
    case Acquire(id) =>
      if Idle(s, id) then s.(permits := s.permits[id := s.permits[id].(waiting := true)]) else s
    case Retarget(id) =>
      if Idle(s, id) then s.(permits := s.permits[id := Permit(Import, false, true)]) else s
    case Grant(id) =>
      if Waits(s, id) && Tokens(s, s.permits[id].pool) < s.capacity then
        var pool := s.permits[id].pool;
        s.(tokens := s.tokens[pool := Tokens(s, pool) + 1], permits := s.permits[id := Permit(pool, true, false)])
      else s
    case GiveUp(id) =>
      if Waits(s, id) then s.(permits := s.permits[id := s.permits[id].(waiting := false)]) else s
    case Release(id) =>
      if Holds(s, id) && !s.permits[id].waiting && Tokens(s, s.permits[id].pool) > 0 then
        var pool := s.permits[id].pool;
        s.(tokens := s.tokens[pool := Tokens(s, pool) - 1], permits := s.permits[id := Permit(pool, false, false)])
      else s
  }

  function Run(s: System, actions: seq<Action>): System
    decreases |actions|
  {
    if actions == [] then s else Run(Next(s, actions[0]), actions[1..])
  }

  function Start(capacity: nat): System { System(capacity, map[], map[]) }

  // ----- conservation -----

  ghost function Holders(s: System, pool: PoolName): set<PermitId> { HoldersOf(s.permits, pool) }

  ghost function HoldersOf(permits: map<PermitId, Permit>, pool: PoolName): set<PermitId> {
    set id | id in permits && permits[id].held && permits[id].pool == pool
  }

  function Share(p: Permit, pool: PoolName): nat { if p.held && p.pool == pool then 1 else 0 }

  // One permit's part in the count.
  lemma HoldersSplit(permits: map<PermitId, Permit>, id: PermitId, pool: PoolName)
    requires id in permits
    ensures |HoldersOf(permits, pool)| == |HoldersOf(permits - {id}, pool)| + Share(permits[id], pool)
  {
    var all, others := HoldersOf(permits, pool), HoldersOf(permits - {id}, pool);
    forall x
      ensures x in all <==> x in others || (x == id && Share(permits[id], pool) == 1)
    {
    }
    assert all == if Share(permits[id], pool) == 1 then others + {id} else others;
  }

  lemma HoldersUpdated(permits: map<PermitId, Permit>, id: PermitId, p: Permit, pool: PoolName)
    ensures |HoldersOf(permits[id := p], pool)| ==
            |HoldersOf(permits, pool)| - (if id in permits then Share(permits[id], pool) else 0) + Share(p, pool)
  {
    HoldersSplit(permits[id := p], id, pool);
    assert permits[id := p] - {id} == permits - {id};
    if id in permits {
      HoldersSplit(permits, id, pool);
    } else {
      assert permits - {id} == permits;
    }
  }

  ghost predicate Inv(s: System) {
    && (forall pool :: Tokens(s, pool) == |Holders(s, pool)| && Tokens(s, pool) <= s.capacity)
    && (forall id | id in s.permits :: s.permits[id].waiting ==> !s.permits[id].held)
  }

  lemma PoolKept(s: System, a: Action, pool: PoolName)
    requires Inv(s)
    ensures Tokens(Next(s, a), pool) == |Holders(Next(s, a), pool)| <= s.capacity
  {
    var s' := Next(s, a);
    assert Tokens(s, pool) == |Holders(s, pool)|;
    if s' != s {
      HoldersUpdated(s.permits, a.id, s'.permits[a.id], pool);
      assert a.id in s.permits && s.permits[a.id].waiting ==> !s.permits[a.id].held;
      assert s'.permits == s.permits[a.id := s'.permits[a.id]];
    }
  }

  lemma NextKeepsInv(s: System, a: Action)
    requires Inv(s)
    ensures Inv(Next(s, a)) && Next(s, a).capacity == s.capacity
  {
    forall pool
      ensures Tokens(Next(s, a), pool) == |Holders(Next(s, a), pool)| <= s.capacity
    {
      PoolKept(s, a, pool);
    }
  }

  lemma {:induction false} RunKeepsInv(s: System, actions: seq<Action>)
    requires Inv(s)
    ensures Inv(Run(s, actions)) && Run(s, actions).capacity == s.capacity
    decreases |actions|
  {
    if actions != [] {
      NextKeepsInv(s, actions[0]);
      RunKeepsInv(Next(s, actions[0]), actions[1..]);
    }
  }

  lemma StartsInOrder(capacity: nat)
    ensures Inv(Start(capacity))
  {
    assert Holders(Start(capacity), Work) == {} && Holders(Start(capacity), Import) == {};
  }

  /**
   In every reachable state the tokens in a pool are the permits held on it, never more than its capacity;
   a permit that waits holds nothing, and whoever holds one can return it at once.
   */
  lemma PermitsAreConserved(capacity: nat, actions: seq<Action>)
    ensures var s := Run(Start(capacity), actions);
            && (forall pool :: Tokens(s, pool) == |Holders(s, pool)| <= capacity)
            && (forall id :: Waits(s, id) ==> !Holds(s, id))
            && (forall id :: Holds(s, id) ==> !Holds(Next(s, Release(id)), id))
  {
    StartsInOrder(capacity);
    RunKeepsInv(Start(capacity), actions);
    var s := Run(Start(capacity), actions);
    forall id | Holds(s, id)
      ensures !Holds(Next(s, Release(id)), id)
    {
      HolderIsCounted(s, id);
    }
  }

  // ----- no deadlock -----

  lemma HolderIsCounted(s: System, id: PermitId)
    requires Inv(s)
    ensures Holds(s, id) ==> Tokens(s, s.permits[id].pool) > 0
  {
    if Holds(s, id) { assert id in Holders(s, s.permits[id].pool); }
  }

  // Somebody who holds a permit of a full pool.
  lemma SomeHolder(s: System, pool: PoolName) returns (h: PermitId)
    requires Inv(s) && Tokens(s, pool) >= s.capacity > 0
    ensures Holds(s, h) && !Waits(s, h) && s.permits[h].pool == pool
  {
    assert Holders(s, pool) != {};
    h :| h in Holders(s, pool);
  }

  /**
   Nobody can be shut out: whatever has happened, a waiting permit, also one that has given up a work
   permit for an import permit, can be granted after at most one other permit has been returned, and its
   holder, who waits for nothing, can return it.
   */
  lemma WaiterCanBeServed(capacity: nat, actions: seq<Action>, id: PermitId) returns (more: seq<Action>)
    requires capacity > 0 && Waits(Run(Start(capacity), actions), id)
    ensures more == [Grant(id)] || exists h :: h != id && Holds(Run(Start(capacity), actions), h) && more == [Release(h), Grant(id)]
    ensures Holds(Run(Run(Start(capacity), actions), more), id)
  {
    StartsInOrder(capacity);
    RunKeepsInv(Start(capacity), actions);
    var s := Run(Start(capacity), actions);
    var pool := s.permits[id].pool;
    if Tokens(s, pool) < capacity {
      more := [Grant(id)];
      assert Run(s, more) == Run(Next(s, Grant(id)), []);
    } else {
      var h := SomeHolder(s, pool);
      more := [Release(h), Grant(id)];
      var freed := Next(s, Release(h));
      assert more[1..] == [Grant(id)] && more[1..][1..] == [];
      assert Run(freed, more[1..]) == Run(Next(freed, Grant(id)), []);
    }
  }

  /** A permit is made for work; one that changes to imports gives its work permit back and then waits for an import. */
  lemma ChangingToImports(capacity: nat, actions: seq<Action>, id: PermitId)
    requires var s := Run(Start(capacity), actions); Holds(s, id) && s.permits[id].pool == Work
    ensures var s := Run(Start(capacity), actions);
            var e := Next(Next(s, Release(id)), Retarget(id));
            && e.permits == s.permits[id := Permit(Import, false, true)]
            && Tokens(e, Work) == Tokens(s, Work) - 1 && Tokens(e, Import) == Tokens(s, Import)
    ensures forall s: System, x: PermitId :: x !in s.permits ==> Next(s, Create(x)).permits == s.permits[x := Permit(Work, false, false)]
  {
    StartsInOrder(capacity);
    RunKeepsInv(Start(capacity), actions);
    HolderIsCounted(Run(Start(capacity), actions), id);
  }

  // Who may do what, and with what effect.
  lemma WhatAPermitCanDo(s: System, id: PermitId)
    requires id in s.permits
    ensures var p := s.permits[id];
            && Next(s, Acquire(id)) == (if p.held || p.waiting then s else s.(permits := s.permits[id := Permit(p.pool, false, true)]))
            && Next(s, GiveUp(id)) == (if p.waiting then s.(permits := s.permits[id := Permit(p.pool, p.held, false)]) else s)
            && (Next(s, Grant(id)) != s ==> p.waiting && Tokens(s, p.pool) < s.capacity)
            && (p.waiting && Tokens(s, p.pool) < s.capacity ==>
                  Next(s, Grant(id)).permits[id] == Permit(p.pool, true, false) && Tokens(Next(s, Grant(id)), p.pool) == Tokens(s, p.pool) + 1)
  {
  }

  /** With pools of no capacity nobody is ever served. */
  lemma NothingWithoutCapacity(actions: seq<Action>, id: PermitId)
    ensures !Holds(Run(Start(0), actions), id)
  {
    StartsInOrder(0);
    RunKeepsInv(Start(0), actions);
    HolderIsCounted(Run(Start(0), actions), id);
  }

  // ----- the objects -----

  class Pool {
    const capacity: nat
    var tokens: nat

    constructor (capacity: nat)
      ensures this.capacity == capacity && tokens == 0
    {
      this.capacity, tokens := capacity, 0;
    }
  }

  // Blocks: the channel is full and the context is not done, so the caller waits with nothing changed.
  datatype Outcome = Ok | ContextDone | Blocks

  class WorkPermit {
    var pool: Pool
    var held: bool

    constructor (pool: Pool)
      ensures this.pool == pool && !held
    {
      this.pool, held := pool, false;
    }

    /** acquire: a permit that is held already is left as it is. */
    method Acquire(done: bool) returns (r: Outcome)
      modifies this`held, pool`tokens
      ensures old(held) ==> r == Ok && held && pool.tokens == old(pool.tokens)
      ensures !old(held) ==>
                && (r == Blocks <==> old(pool.tokens) >= pool.capacity && !done)
                && (r == ContextDone ==> done)
                && (r == Ok <==> held)
                && (r == Ok ==> old(pool.tokens) < pool.capacity)
                && pool.tokens == old(pool.tokens) + if r == Ok then 1 else 0
    {
      if held { return Ok; }
      var takes: bool := *;
      if pool.tokens < pool.capacity && (takes || !done) {
        pool.tokens := pool.tokens + 1;
        held := true;
        return Ok;
      }
      return if done then ContextDone else Blocks;
    }

    // release; the token is there whenever tokens count the permits held, so nothing blocks.
    method Release()
      requires held ==> pool.tokens > 0
      modifies this`held, pool`tokens
      ensures !held && pool.tokens == old(pool.tokens) - if old(held) then 1 else 0
    {
      if held {
        pool.tokens := pool.tokens - 1;
        held := false;
      }
    }

    /** acquireImport: the old permit is returned before the new one is waited for. */
    method AcquireImport(imports: Pool, done: bool) returns (r: Outcome)
      requires held ==> pool.tokens > 0
      modifies this, pool`tokens, imports`tokens
      ensures pool == imports && (held <==> r == Ok)
      ensures var returned := if old(held) then 1 else 0;
              var taken := if r == Ok then 1 else 0;
              if old(pool) == imports then imports.tokens == old(imports.tokens) - returned + taken
              else old(pool).tokens == old(pool.tokens) - returned && imports.tokens == old(imports.tokens) + taken
      ensures r == Blocks ==> !done && imports.tokens >= imports.capacity
      ensures r == ContextDone ==> done
      ensures r == Ok ==> imports.tokens <= imports.capacity
      ensures !done && (if old(held) && old(pool) == imports then old(imports.tokens) - 1 else old(imports.tokens)) < imports.capacity ==> r == Ok
    {
      Release();
      pool := imports;
      r := Acquire(done);
    }
  }
}
