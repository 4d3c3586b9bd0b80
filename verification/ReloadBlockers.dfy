/** Which retained assignments refuse a configuration reload. */
module ReloadBlockers {
  import opened Basics
  import Sorting

  /** A retained assignment; `settled` when it is completed or released. */
  datatype Assignment = Assignment(id: Id, attempt: Id, worker: Id, settled: bool)

  datatype Blocker = Blocker(worker: Id, assignment: Id, attempt: Id)

  /** The catalog revision a configuration binds a worker to, if its binding builds at all. */
  type Bindings = Id -> Option<nat>

  predicate Touched(current: Bindings, next: Bindings, worker: Id) {
    next(worker).None? || current(worker) != next(worker)
  }

  /** An unsettled assignment on a worker whose catalog the reload would change. */
  predicate Blocks(current: Bindings, next: Bindings, a: Assignment) {
    !a.settled && Touched(current, next, a.worker)
  }

  function BlockerOf(a: Assignment): Blocker {
    Blocker(a.worker, a.id, a.attempt)
  }

  /** Each assignment judged on its own, with nothing remembered. */
  function Blocking(current: Bindings, next: Bindings, assignments: seq<Assignment>): seq<Blocker> {
    if assignments == [] then []
    else
      var a := assignments[|assignments| - 1];
      Blocking(current, next, assignments[..|assignments| - 1]) + if Blocks(current, next, a) then [BlockerOf(a)] else []
  }

  predicate Before(b: Blocker, c: Blocker) {
    b.worker.key < c.worker.key || (b.worker == c.worker && b.assignment.key < c.assignment.key)
  }

  lemma BeforeIsOrder()
    ensures Sorting.StrictWeak(Before)
  {
  }

  ghost predicate Builds(current: Bindings, assignments: seq<Assignment>) {
    forall a <- assignments :: !a.settled ==> current(a.worker).Some?
  }

  /**
   The blockers of a reload: an error exactly when the current binding of a
   worker with unsettled work does not build, else the blocking assignments in
   order, the per-worker answer remembered in `changed`.
   */
  method FindBlockers(current: Bindings, next: Bindings,
                      assignments: seq<Assignment>) returns (blockers: Option<seq<Blocker>>)
    ensures blockers.Some? <==> Builds(current, assignments)
    ensures blockers.Some? ==> blockers.value == Sorting.Sort(Before, Blocking(current, next, assignments))
  {
    var changed: map<Id, bool> := map[];
    var found: seq<Blocker> := [];
    for i := 0 to |assignments|
      invariant Builds(current, assignments[..i])
      invariant found == Blocking(current, next, assignments[..i])
      invariant forall w <- changed.Keys :: current(w).Some? && changed[w] == Touched(current, next, w)
    {
      var a := assignments[i];
      assert assignments[..i + 1] == assignments[..i] + [a];
      if a.settled {
        continue;
      }
      if a.worker !in changed {
        if current(a.worker).None? {
          return None;
        }
        changed := changed[a.worker := next(a.worker).None? || current(a.worker) != next(a.worker)];
      }
      if !changed[a.worker] {
        continue;
      }
      found := found + [Blocker(a.worker, a.id, a.attempt)];
    }
    assert assignments[..|assignments|] == assignments;
    blockers := Some(Sorting.Sort(Before, found));
  }

  lemma {:induction false} BlockingIs(current: Bindings, next: Bindings, assignments: seq<Assignment>)
    ensures forall b :: b in Blocking(current, next, assignments) <==>
      exists a <- assignments :: Blocks(current, next, a) && BlockerOf(a) == b
  {
    if assignments != [] {
      var init, a := assignments[..|assignments| - 1], assignments[|assignments| - 1];
      BlockingIs(current, next, init);
      assert assignments == init + [a];
    }
  }

  ghost predicate DistinctIds(assignments: seq<Assignment>) {
    forall i, j | 0 <= i < j < |assignments| :: assignments[i].id != assignments[j].id
  }

  lemma {:induction false} BlockingOnce(current: Bindings, next: Bindings, assignments: seq<Assignment>, b: Blocker)
    requires DistinctIds(assignments)
    ensures multiset(Blocking(current, next, assignments))[b] <= 1
  {
    if assignments != [] {
      var init, a := assignments[..|assignments| - 1], assignments[|assignments| - 1];
      var before := Blocking(current, next, init);
      BlockingOnce(current, next, init, b);
      assert multiset(before + [BlockerOf(a)]) == multiset(before) + multiset{BlockerOf(a)};
      assert b == BlockerOf(a) ==> b !in before by {
        BlockingIs(current, next, init);
        assert forall x <- init :: x.id != a.id;
      }
    }
  }

  /** With distinct assignment ids the list names every blocking assignment exactly once, and nothing else. */
  lemma BlockersExact(current: Bindings, next: Bindings, assignments: seq<Assignment>, b: Blocker)
    requires DistinctIds(assignments)
    ensures multiset(Sorting.Sort(Before, Blocking(current, next, assignments)))[b]
      == if exists a <- assignments :: !a.settled && !(current(a.worker) == next(a.worker) && next(a.worker).Some?)
              && b == Blocker(a.worker, a.id, a.attempt) then 1 else 0
  {
    forall a: Assignment
      ensures Blocks(current, next, a) <==> !a.settled && !(current(a.worker) == next(a.worker) && next(a.worker).Some?)
    {
    }
    hide Blocks, Sorting.Sort;
    BeforeIsOrder();
    Sorting.SortKeeps(Before, Blocking(current, next, assignments));
    BlockingOnce(current, next, assignments, b);
    BlockingIs(current, next, assignments);
    var blocking := Blocking(current, next, assignments);
    assert b in blocking <==> b in multiset(blocking);
    assert b in blocking <==> exists a <- assignments :: Blocks(current, next, a) && BlockerOf(a) == b;
  }

  /** The list is ordered by worker and assignment, and no other order of the same blockers is. */
  lemma BlockersOrdered(current: Bindings, next: Bindings, assignments: seq<Assignment>, other: seq<Blocker>)
    requires DistinctIds(assignments)
    ensures
      var listed := Sorting.Sort(Before, Blocking(current, next, assignments));
      && Sorting.Ordered(Before, listed)
      && (forall i, j | 0 <= i < j < |listed| ::
            && listed[i].worker.key <= listed[j].worker.key
            && (listed[i].worker == listed[j].worker ==> listed[i].assignment.key <= listed[j].assignment.key))
      && (multiset(other) == multiset(listed) && Sorting.Ordered(Before, other) ==> other == listed)
  {
    hide Blocks, Sorting.Sort, Blocking, DistinctIds;
    var blocking := Blocking(current, next, assignments);
    BeforeIsOrder();
    Sorting.SortKeeps(Before, blocking);
    if multiset(other) == multiset(blocking) && Sorting.Ordered(Before, other) {
      forall b, c | b in other && c in other && b != c ensures Before(b, c) || Before(c, b) {
        assert b in multiset(blocking) && c in multiset(blocking);
        TellsApart(current, next, assignments, b, c);
      }
      Sorting.OrderedUnique(Before, other, Sorting.Sort(Before, blocking));
    }
  }

  lemma TellsApart(current: Bindings, next: Bindings, assignments: seq<Assignment>, b: Blocker, c: Blocker)
    requires DistinctIds(assignments) && b != c
    requires b in Blocking(current, next, assignments) && c in Blocking(current, next, assignments)
    ensures Before(b, c) || Before(c, b)
  {
    BlockingIs(current, next, assignments);
    var x :| x in assignments && BlockerOf(x) == b;
    var y :| y in assignments && BlockerOf(y) == c;
    assert x.id != y.id;
  }

  /**
   Whether retained work lets a valid configuration in: exactly when every worker
   with unsettled work builds under both configurations to the same revision.
   */
  method Admits(current: Bindings, next: Bindings, assignments: seq<Assignment>) returns (admitted: bool)
    ensures admitted <==>
      forall a <- assignments :: !a.settled ==> current(a.worker).Some? && current(a.worker) == next(a.worker)
  {
    var blockers := FindBlockers(current, next, assignments);
    admitted := blockers == Some([]);
    BlockingIs(current, next, assignments);
    BeforeIsOrder();
    Sorting.SortKeeps(Before, Blocking(current, next, assignments));
    forall a <- assignments | blockers == Some([]) && !a.settled ensures !Touched(current, next, a.worker) {
      assert Blocking(current, next, assignments) == [];
      assert !Blocks(current, next, a) by {
        assert BlockerOf(a) !in Blocking(current, next, assignments);
      }
    }
    if blockers.Some? && blockers.value != [] {
      var b := Blocking(current, next, assignments)[0];
      assert b in Blocking(current, next, assignments);
    }
  }
}
