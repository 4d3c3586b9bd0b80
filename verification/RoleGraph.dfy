/**
 The local-producer relation of a campaign's tasks, and what a depth-first search
 that marks tasks grey and black knows about its cycles.
 */
module RoleGraph {

  /** Each task's local producers, in the order they are visited. */
  type Graph<N> = map<N, seq<N>>

  /** `m` is a known local producer of `n`. */
  ghost predicate Edge<N(!new)>(g: Graph<N>, n: N, m: N) {
    n in g && m in g && m in g[n]
  }

  ghost predicate IsPath<N(!new)>(g: Graph<N>, p: seq<N>) {
    && (forall n <- p :: n in g)
    && forall i | 0 <= i < |p| - 1 :: Edge(g, p[i], p[i + 1])
  }

  ghost predicate IsCycle<N(!new)>(g: Graph<N>, p: seq<N>) {
    |p| >= 2 && p[0] == p[|p| - 1] && IsPath(g, p)
  }

  ghost predicate OnCycle<N(!new)>(g: Graph<N>, n: N) {
    exists p :: IsCycle(g, p) && n in p
  }

  ghost predicate Acyclic<N(!new)>(g: Graph<N>) {
    forall p :: !IsCycle(g, p)
  }

  ghost predicate Distinct<N(!new)>(p: seq<N>) {
    forall i, j | 0 <= i < j < |p| :: p[i] != p[j]
  }

  lemma DistinctFits<N(!new)>(p: seq<N>, bound: set<N>)
    requires Distinct(p) && forall n <- p :: n in bound
    ensures |p| <= |bound|
  {
    if p != [] {
      var last := p[|p| - 1];
      assert forall n <- p[..|p| - 1] :: n in p && n != last;
      DistinctFits(p[..|p| - 1], bound - {last});
    }
  }

  /** An edge from the end of a path back into it closes a cycle. */
  lemma ClosesCycle<N(!new)>(g: Graph<N>, p: seq<N>, n: N)
    requires IsPath(g, p) && n in p && Edge(g, p[|p| - 1], n)
    ensures OnCycle(g, n)
  {
    var i :| 0 <= i < |p| && p[i] == n;
    var c := p[i..] + [n];
    forall k | 0 <= k < |c| - 1 ensures Edge(g, c[k], c[k + 1]) {
      assert c[k] == p[i + k];
      if k < |c| - 2 {
        assert c[k + 1] == p[i + k + 1];
      }
    }
    assert IsCycle(g, c) && n in c;
  }

  // -------------------------------------------------------------------- the search

  /**
   What a search in progress has recorded: the grey tasks in the order they were
   entered, when each black one was finished, and the tasks met again while grey.
   */
  datatype Search<N> = Search(stack: seq<N>, finish: map<N, nat>, clock: nat, cyclic: set<N>)

  /** Each known producer of a finished task finished earlier, or was met while grey. */
  ghost predicate ProducersFirst<N(!new)>(g: Graph<N>, s: Search<N>, n: N)
    requires n in s.finish
  {
    forall m | Edge(g, n, m) :: m in s.cyclic || (m in s.finish && s.finish[m] < s.finish[n])
  }

  ghost predicate Searching<N(!new)>(g: Graph<N>, s: Search<N>) {
    && IsPath(g, s.stack)
    && (forall n <- s.stack :: n !in s.finish)
    && (forall c <- s.cyclic :: OnCycle(g, c) && (c in s.stack || c in s.finish))
    && (forall n <- s.finish.Keys :: n in g && s.finish[n] < s.clock && ProducersFirst(g, s, n))
  }

  /** A task the search may enter next from the top of the stack. */
  ghost predicate Reaches<N(!new)>(g: Graph<N>, s: Search<N>, n: N) {
    s.stack == [] || (n in g ==> Edge(g, s.stack[|s.stack| - 1], n))
  }

  lemma Enter<N(!new)>(g: Graph<N>, s: Search<N>, n: N)
    requires Searching(g, s) && Reaches(g, s, n)
    requires n in g && n !in s.finish
    ensures Searching(g, s.(stack := s.stack + [n]))
  {
    var s' := s.(stack := s.stack + [n]);
    assert forall k <- s.finish.Keys :: ProducersFirst(g, s, k) ==> ProducersFirst(g, s', k);
  }

  ghost function Met<N(!new)>(s: Search<N>, n: N): Search<N> {
    s.(cyclic := s.cyclic + {n})
  }

  /** Meeting a grey task again closes a cycle through it. */
  lemma MeetAgain<N(!new)>(g: Graph<N>, s: Search<N>, n: N)
    requires Searching(g, s) && Reaches(g, s, n) && n in s.stack
    ensures Searching(g, Met(s, n))
  {
    ClosesCycle(g, s.stack, n);
    assert forall k <- s.finish.Keys :: ProducersFirst(g, s, k) ==> ProducersFirst(g, Met(s, n), k);
  }

  ghost function Done<N(!new)>(s: Search<N>): Search<N>
    requires s.stack != []
  {
    Search(s.stack[..|s.stack| - 1], s.finish[s.stack[|s.stack| - 1] := s.clock], s.clock + 1, s.cyclic)
  }

  /** The top of the stack turns black once each known producer is black or was met while grey. */
  lemma Finish<N(!new)>(g: Graph<N>, s: Search<N>)
    requires Searching(g, s) && s.stack != []
    requires s.stack[|s.stack| - 1] !in s.stack[..|s.stack| - 1]
    requires forall m | Edge(g, s.stack[|s.stack| - 1], m) :: m in s.cyclic || m in s.finish
    ensures Searching(g, Done(s))
  {
    var n := s.stack[|s.stack| - 1];
    assert s.stack == s.stack[..|s.stack| - 1] + [n];
    forall k <- Done(s).finish.Keys ensures ProducersFirst(g, Done(s), k) {
      if k != n {
        assert ProducersFirst(g, s, k);
      }
    }
  }

  // ------------------------------------------------------------- a finished search

  ghost predicate Finished<N(!new)>(g: Graph<N>, s: Search<N>) {
    Searching(g, s) && s.stack == [] && forall n :: n in g ==> n in s.finish
  }

  /** Along a path that avoids the tasks met while grey, finish times only fall. */
  lemma {:induction false} FinishFalls<N(!new)>(g: Graph<N>, s: Search<N>, p: seq<N>, k: nat)
    requires Finished(g, s) && IsPath(g, p) && k < |p|
    requires forall n <- p :: n !in s.cyclic
    ensures p[0] in s.finish && p[k] in s.finish && s.finish[p[k]] + k <= s.finish[p[0]]
  {
    assert p[0] in p && p[k] in p;
    if k > 0 {
      FinishFalls(g, s, p, k - 1);
      assert ProducersFirst(g, s, p[k - 1]) && Edge(g, p[k - 1], p[k]);
    }
  }

  /** Every cycle holds a task that was met while grey. */
  lemma CycleIsMet<N(!new)>(g: Graph<N>, s: Search<N>, p: seq<N>)
    requires Finished(g, s) && IsCycle(g, p)
    ensures exists n :: n in p && n in s.cyclic
  {
    if forall n <- p :: n !in s.cyclic {
      FinishFalls(g, s, p, |p| - 1);
      assert false;
    }
  }

  lemma NotOnCycle<N(!new)>(g: Graph<N>, n: N)
    requires Acyclic(g)
    ensures !OnCycle(g, n)
  {
  }

  lemma NothingMet<N(!new)>(g: Graph<N>, s: Search<N>)
    requires Searching(g, s) && Acyclic(g)
    ensures s.cyclic == {}
  {
    forall c ensures c !in s.cyclic {
      NotOnCycle(g, c);
    }
  }
}
