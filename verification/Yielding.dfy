/** Arbitration between an overseer activation that is due and ordinary work that shares its bottleneck. */
module Yielding {
  import opened Assignments
  import opened Basics

  /** The pool of a route that names none. */
  const NO_POOL := Id(0)

  /** The activation being placed: its age, and the worker and quota pool it would use. */
  datatype Candidate = Candidate(age: Age, worker: Id, pool: Id)

  datatype Attempt = Attempt(id: Id, activation: bool)

  datatype Assignment = Assignment(worker: Id, pool: Id, createdAt: int, state: AssignmentState)

  /** The durable records: an attempt has at most one assignment, which stands at its identity. */
  datatype Records = Records(attempts: seq<Attempt>, assignments: map<Id, Assignment>)

  /** An ordinary attempt that could be placed now; `pool` is absent when it has no route, `ready` when it has no age. */
  datatype Proposal = Proposal(attempt: Id, worker: Id, pool: Option<Id>, ready: Option<int>)

  predicate Older(a: Age, b: Age) {
    a.at < b.at || (a.at == b.at && a.tie.key < b.tie.key)
  }

  function AgeOf(p: Proposal): Age
    requires p.ready.Some?
  {
    Age(p.ready.value, p.attempt)
  }

  // --------------------------------------------------------------- the durable marker

  predicate OfActivation(records: Records, attempt: Id) {
    exists a <- records.attempts :: a.activation && a.id == attempt
  }

  /** The assignment holds the candidate's worker or its named pool since it became ready. */
  predicate Holds(candidate: Candidate, a: Assignment) {
    && a.createdAt >= candidate.age.at
    && (a.worker == candidate.worker || (candidate.pool != NO_POOL && a.pool == candidate.pool))
  }

  predicate Marks(records: Records, candidate: Candidate, attempt: Id)
    requires attempt in records.assignments
  {
    !OfActivation(records, attempt) && Holds(candidate, records.assignments[attempt])
  }

  /** Some ordinary assignment marks that the activation has given up an opportunity. */
  predicate AlreadyYielded(records: Records, candidate: Candidate) {
    exists id <- records.assignments.Keys :: Marks(records, candidate, id)
  }

  method ActivationAlreadyYielded(records: Records, candidate: Candidate) returns (yielded: bool)
    ensures yielded == AlreadyYielded(records, candidate)
  {
    var activationAttempts: set<Id> := {};
    for i := 0 to |records.attempts|
      invariant forall id :: id in activationAttempts <==> exists a <- records.attempts[..i] :: a.activation && a.id == id
    {
      assert records.attempts[..i + 1] == records.attempts[..i] + [records.attempts[i]];
      if records.attempts[i].activation {
        activationAttempts := activationAttempts + {records.attempts[i].id};
      }
    }
    assert records.attempts[..|records.attempts|] == records.attempts;
    var left := records.assignments.Keys;
    while left != {}
      invariant left <= records.assignments.Keys
      invariant forall id <- records.assignments.Keys - left :: !Marks(records, candidate, id)
      decreases left
    {
      var attempt :| attempt in left;
      left := left - {attempt};
      var assignment := records.assignments[attempt];
      if assignment.createdAt < candidate.age.at || attempt in activationAttempts {
        continue;
      }
      if assignment.worker == candidate.worker
         || (candidate.pool != NO_POOL && assignment.pool == candidate.pool) {
        assert Marks(records, candidate, attempt);
        return true;
      }
    }
    return false;
  }

  // ------------------------------------------------------- what may go ahead, and when

  /** A proposal at the candidate's bottleneck; its pool is one only while that pool is limited. */
  predicate Shares(candidate: Candidate, limited: bool, p: Proposal) {
    p.pool.Some? && (p.worker == candidate.worker || (limited && p.pool.value == candidate.pool))
  }

  predicate MayPrecede(candidate: Candidate, limited: bool, p: Proposal) {
    Shares(candidate, limited, p) && p.ready.Some? && Older(AgeOf(p), candidate.age)
  }

  datatype Key = Key(attempt: Id, worker: Id, pool: Id)

  function KeyOf(p: Proposal): Key
    requires p.pool.Some?
  {
    Key(p.attempt, p.worker, p.pool.value)
  }

  datatype Arbitration = NoAge | Arbitration(allowed: set<Key>, worker: Age, pool: Age)

  predicate OnWorker(candidate: Candidate, p: Proposal) {
    p.pool.Some? && p.worker == candidate.worker
  }

  predicate InPool(candidate: Candidate, limited: bool, p: Proposal) {
    limited && p.pool == Some(candidate.pool)
  }

  /** `least` is the oldest among the candidate's own age and those of the proposals. */
  ghost predicate Oldest(least: Age, own: Age, proposals: set<Proposal>) {
    && (least == own || exists p <- proposals :: p.ready.Some? && least == AgeOf(p))
    && !Older(own, least)
    && (forall p <- proposals :: p.ready.Some? ==> !Older(AgeOf(p), least))
  }

  lemma OwnIsOldest(own: Age)
    ensures Oldest(own, own, {})
  {
  }

  lemma OldestGrows(least: Age, own: Age, proposals: set<Proposal>, p: Proposal)
    requires Oldest(least, own, proposals) && p.ready.Some?
    ensures Oldest(if Older(AgeOf(p), least) then AgeOf(p) else least, own, proposals + {p})
  {
    assert p in proposals + {p};
    assert forall q <- proposals :: q in proposals + {p};
  }

  /**
   The arbitration of one candidate: an error exactly when a proposal at its
   bottleneck has no age, else exactly the strictly older ones at the bottleneck
   may go ahead, and a settled wake must be older than every one of them and than
   the candidate.
   */
  ghost predicate IsArbitration(candidate: Candidate, limited: bool, contenders: seq<Proposal>, r: Arbitration) {
    && (r.NoAge? <==> exists p <- contenders :: Shares(candidate, limited, p) && p.ready.None?)
    && (r.Arbitration? ==>
          && r.allowed == (set p | p in contenders && MayPrecede(candidate, limited, p) :: KeyOf(p))
          && Oldest(r.worker, candidate.age, set p | p in contenders && OnWorker(candidate, p))
          && Oldest(r.pool, candidate.age, set p | p in contenders && InPool(candidate, limited, p)))
  }

  method ArbitrateContenders(candidate: Candidate, limited: bool, contenders: seq<Proposal>)
    returns (r: Arbitration)
    ensures IsArbitration(candidate, limited, contenders, r)
  {
    hide Oldest;
    OwnIsOldest(candidate.age);
    var allowed: set<Key>, worker, pool := {}, candidate.age, candidate.age;
    ghost var onWorker: set<Proposal>, inPool: set<Proposal> := {}, {};
    for i := 0 to |contenders|
      invariant forall p <- contenders[..i] :: Shares(candidate, limited, p) ==> p.ready.Some?
      invariant allowed == set p | p in contenders[..i] && MayPrecede(candidate, limited, p) :: KeyOf(p)
      invariant onWorker == set p | p in contenders[..i] && OnWorker(candidate, p)
      invariant inPool == set p | p in contenders[..i] && InPool(candidate, limited, p)
      invariant Oldest(worker, candidate.age, onWorker)
      invariant Oldest(pool, candidate.age, inPool)
    {
      var p := contenders[i];
      assert contenders[..i + 1] == contenders[..i] + [p];
      if !Shares(candidate, limited, p) {
        continue;
      }
      if p.ready.None? {
        return NoAge;
      }
      if Older(AgeOf(p), candidate.age) {
        allowed := allowed + {KeyOf(p)};
      }
      if p.worker == candidate.worker {
        OldestGrows(worker, candidate.age, onWorker, p);
        onWorker := onWorker + {p};
        if Older(AgeOf(p), worker) {
          worker := AgeOf(p);
        }
      }
      if limited && p.pool.value == candidate.pool {
        OldestGrows(pool, candidate.age, inPool, p);
        inPool := inPool + {p};
        if Older(AgeOf(p), pool) {
          pool := AgeOf(p);
        }
      }
    }
    assert contenders[..|contenders|] == contenders;
    r := Arbitration(allowed, worker, pool);
  }

  /** The proposal has a route, and that wants the candidate's worker or, while it is limited, its pool. */
  ghost predicate Wants(candidate: Candidate, limited: bool, p: Proposal) {
    && p.pool.Some?
    && (p.worker != candidate.worker ==> limited && p.pool.value == candidate.pool)
  }

  /** Became ready earlier, or at the same time under a smaller identity. */
  ghost predicate ReadyBefore(p: Proposal, age: Age) {
    p.ready.Some? && (p.ready.value < age.at || (p.ready.value == age.at && p.attempt.key < age.tie.key))
  }

  /** No rival became ready before the cutoff, which is the candidate's own or one of theirs. */
  ghost predicate IsCutoff(cutoff: Age, candidate: Candidate, rivals: set<Proposal>) {
    && (cutoff == candidate.age || exists p <- rivals :: p.ready == Some(cutoff.at) && p.attempt == cutoff.tie)
    && (forall p <- rivals :: !ReadyBefore(p, cutoff))
    && !(candidate.age.at < cutoff.at || (candidate.age.at == cutoff.at && candidate.age.tie.key < cutoff.tie.key))
  }

  /**
   What an arbitration comes to: an error exactly when a proposal that wants the
   bottleneck has no age, else exactly the keys of those ready before the
   candidate, and per worker and pool the oldest age among it and its rivals there.
   */
  lemma ArbitrationExact(candidate: Candidate, limited: bool, contenders: seq<Proposal>, r: Arbitration)
    requires IsArbitration(candidate, limited, contenders, r)
    ensures r.NoAge? <==> exists p <- contenders :: Wants(candidate, limited, p) && p.ready == None
    ensures r.Arbitration? ==>
      var onWorker := set p | p in contenders && p.pool.Some? && p.worker == candidate.worker;
      var inPool := set p | p in contenders && limited && p.pool == Some(candidate.pool);
      && (forall k :: k in r.allowed <==>
            exists p <- contenders :: Wants(candidate, limited, p) && ReadyBefore(p, candidate.age)
              && k == Key(p.attempt, p.worker, p.pool.value))
      && IsCutoff(r.worker, candidate, onWorker) && IsCutoff(r.pool, candidate, inPool)
  {
    assert forall p <- contenders :: Shares(candidate, limited, p) <==> Wants(candidate, limited, p);
    if r.Arbitration? {
      var onWorker := set p | p in contenders && p.pool.Some? && p.worker == candidate.worker;
      var inPool := set p | p in contenders && limited && p.pool == Some(candidate.pool);
      assert onWorker == set p | p in contenders && OnWorker(candidate, p);
      assert inPool == set p | p in contenders && InPool(candidate, limited, p);
      CutoffExact(r.worker, candidate, onWorker);
      CutoffExact(r.pool, candidate, inPool);
    }
    hide Oldest, IsCutoff;
  }

  lemma CutoffExact(cutoff: Age, candidate: Candidate, rivals: set<Proposal>)
    requires Oldest(cutoff, candidate.age, rivals)
    ensures IsCutoff(cutoff, candidate, rivals)
  {
  }

  /** The constraint the replanning pass works under: a routed proposal is let through by its key alone. */
  predicate Admits(allowed: set<Key>, p: Proposal) {
    p.pool.Some? && KeyOf(p) in allowed
  }

  /** Whatever the constraint lets through has the key of a contender at the bottleneck that is strictly older. */
  lemma AdmittedIsOlder(candidate: Candidate, limited: bool, contenders: seq<Proposal>, r: Arbitration, p: Proposal)
    returns (q: Proposal)
    requires IsArbitration(candidate, limited, contenders, r) && r.Arbitration? && Admits(r.allowed, p)
    ensures q in contenders && MayPrecede(candidate, limited, q) && KeyOf(q) == KeyOf(p)
  {
    hide Oldest;
    q :| q in contenders && MayPrecede(candidate, limited, q) && KeyOf(q) == KeyOf(p);
  }

  // ------------------------------------------------------------- cutoffs of one tick

  /** `cutoffs` gives each key exactly the oldest age among its proposals. */
  ghost predicate OldestPerKey(cutoffs: map<Id, Age>, contenders: seq<Proposal>, key: Proposal -> Option<Id>) {
    && (forall p <- contenders :: p.ready.Some? && key(p).Some? ==>
          key(p).value in cutoffs && !Older(AgeOf(p), cutoffs[key(p).value]))
    && (forall k <- cutoffs.Keys :: exists p <- contenders ::
          p.ready.Some? && key(p) == Some(k) && cutoffs[k] == AgeOf(p))
  }

  function WorkerKey(p: Proposal): Option<Id> {
    if p.pool.Some? then Some(p.worker) else None
  }

  function PoolKey(p: Proposal): Option<Id> {
    p.pool
  }

  function Lower(cutoffs: map<Id, Age>, k: Id, age: Age): map<Id, Age> {
    if k in cutoffs && !Older(age, cutoffs[k]) then cutoffs else cutoffs[k := age]
  }

  lemma LowerKeeps(cutoffs: map<Id, Age>, contenders: seq<Proposal>, key: Proposal -> Option<Id>, p: Proposal)
    requires OldestPerKey(cutoffs, contenders, key) && p.ready.Some?
    ensures OldestPerKey(if key(p).Some? then Lower(cutoffs, key(p).value, AgeOf(p)) else cutoffs, contenders + [p], key)
  {
    var cutoffs' := if key(p).Some? then Lower(cutoffs, key(p).value, AgeOf(p)) else cutoffs;
    forall k <- cutoffs'.Keys
      ensures exists q <- contenders + [p] :: q.ready.Some? && key(q) == Some(k) && cutoffs'[k] == AgeOf(q)
    {
      if k in cutoffs && cutoffs'[k] == cutoffs[k] {
        var q :| q in contenders && q.ready.Some? && key(q) == Some(k) && cutoffs[k] == AgeOf(q);
        assert q in contenders + [p];
      } else {
        assert p in contenders + [p];
      }
    }
  }

  /**
   The cutoffs a tick gives settled wakes: per worker and per pool the oldest
   ordinary proposal there, or an error exactly when some proposal has no age.
   */
  method TickCutoffs(contenders: seq<Proposal>) returns (ok: bool, worker: map<Id, Age>, pool: map<Id, Age>)
    ensures ok <==> forall p <- contenders :: p.ready.Some?
    ensures ok ==> OldestPerKey(worker, contenders, WorkerKey) && OldestPerKey(pool, contenders, PoolKey)
  {
    worker, pool := map[], map[];
    for i := 0 to |contenders|
      invariant forall p <- contenders[..i] :: p.ready.Some?
      invariant OldestPerKey(worker, contenders[..i], WorkerKey) && OldestPerKey(pool, contenders[..i], PoolKey)
    {
      hide OldestPerKey;
      var p := contenders[i];
      assert contenders[..i + 1] == contenders[..i] + [p];
      if p.ready.None? {
        return false, worker, pool;
      }
      LowerKeeps(worker, contenders[..i], WorkerKey, p);
      LowerKeeps(pool, contenders[..i], PoolKey, p);
      if p.pool.Some? {
        worker := Lower(worker, p.worker, AgeOf(p));
        pool := Lower(pool, p.pool.value, AgeOf(p));
      }
    }
    assert contenders[..|contenders|] == contenders;
    ok := true;
  }

  /** A cutoff stands for each worker some routed proposal is on: the age of one of them, and none is ready before it. */
  lemma WorkerCutoffsExact(contenders: seq<Proposal>, worker: map<Id, Age>)
    requires (forall p <- contenders :: p.ready.Some?) && OldestPerKey(worker, contenders, WorkerKey)
    ensures forall p <- contenders | p.pool.Some? :: p.worker in worker && !ReadyBefore(p, worker[p.worker])
    ensures forall w <- worker.Keys :: exists p <- contenders ::
      p.pool.Some? && p.worker == w && worker[w] == Age(p.ready.value, p.attempt)
  {
    forall p <- contenders | p.pool.Some? ensures p.worker in worker && !ReadyBefore(p, worker[p.worker]) {
      assert WorkerKey(p) == Some(p.worker);
    }
  }

  /** And for each pool some routed proposal is in. */
  lemma PoolCutoffsExact(contenders: seq<Proposal>, pool: map<Id, Age>)
    requires (forall p <- contenders :: p.ready.Some?) && OldestPerKey(pool, contenders, PoolKey)
    ensures forall p <- contenders | p.pool.Some? :: p.pool.value in pool && !ReadyBefore(p, pool[p.pool.value])
    ensures forall q <- pool.Keys :: exists p <- contenders :: p.pool == Some(q) && pool[q] == Age(p.ready.value, p.attempt)
  {
    forall p <- contenders | p.pool.Some? ensures p.pool.value in pool && !ReadyBefore(p, pool[p.pool.value]) {
      assert PoolKey(p) == p.pool;
    }
  }
}
