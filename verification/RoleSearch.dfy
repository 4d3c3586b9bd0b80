/**
 The depth-first resolution of a campaign's roles, proved against the recursive
 specification in `RoleResolution.ResolveTask`.
 */
module RoleSearch {
  import opened RoleGraph
  import opened RoleResolution

  type ByName<N> = map<N, Task<N>>
  type Selections<N> = map<N, RoleSelection>
  type Failures<N> = map<N, Failure>

  ghost function GraphOf<N(!new)>(byName: ByName<N>): Graph<N> {
    map n | n in byName :: Locals(byName[n])
  }

  /** What the two result maps say about a task. */
  ghost function Entry<N(!new)>(selections: Selections<N>, failures: Failures<N>, n: N): Outcome {
    if n in selections then Selected(selections[n])
    else if n in failures then Failed(failures[n])
    else NoRole
  }

  // ------------------------------------------------- the specification as equations

  /** The result maps satisfy the recursive specification at every task, each task in at most one of them. */
  ghost predicate Solves<N(!new)>(req: Request<N>, byName: ByName<N>, selections: Selections<N>,
                                  failures: Failures<N>) {
    && selections.Keys !! failures.Keys && selections.Keys + failures.Keys <= byName.Keys
    && forall n <- byName.Keys :: Entry(selections, failures, n) == ResolveTask(req, byName, byName[n], selections)
  }

  ghost predicate Agree<N(!new)>(a: Selections<N>, b: Selections<N>, m: N) {
    (m in a <==> m in b) && (m in a ==> a[m] == b[m])
  }

  /** A task's resolution looks at its known local producers and nothing else. */
  lemma LooksAtProducers<N(!new)>(req: Request<N>, byName: ByName<N>, task: Task, a: Selections<N>, b: Selections<N>)
    requires forall m | m in Locals(task) && m in byName :: Agree(a, b, m)
    ensures ResolveTask(req, byName, task, a) == ResolveTask(req, byName, task, b)
  {
    SameFamilies(req, byName, Locals(task), a, b);
  }

  lemma {:induction false} SameFamilies<N(!new)>(req: Request<N>, byName: ByName<N>, names: seq<N>, a: Selections<N>, b: Selections<N>)
    requires forall m | m in names && m in byName :: Agree(a, b, m)
    ensures KnownFamilies(req, byName, names, a) == KnownFamilies(req, byName, names, b)
  {
    if names != [] {
      SameFamilies(req, byName, names[1..], a, b);
      assert names[0] in names;
    }
  }

  lemma SolvedAt<N(!new)>(req: Request<N>, byName: ByName<N>, a: Selections<N>, fa: Failures<N>, n: N)
    requires Solves(req, byName, a, fa) && n in byName
    ensures Entry(a, fa, n) == ResolveTask(req, byName, byName[n], a)
    ensures !(n in a && n in fa)
  {
    hide ResolveTask, Entry;
  }

  /** Two solutions that differ at a task differ at one of its producers. */
  lemma DifferenceAtProducer<N(!new)>(req: Request<N>, byName: ByName<N>, a: Selections<N>, fa: Failures<N>,
                                      b: Selections<N>, fb: Failures<N>, n: N)
      returns (m: N)
    requires Solves(req, byName, a, fa) && Solves(req, byName, b, fb)
    requires n in byName && Entry(a, fa, n) != Entry(b, fb, n)
    ensures Edge(GraphOf(byName), n, m) && Entry(a, fa, m) != Entry(b, fb, m)
  {
    hide ResolveTask, Solves, WithinOnly;
    SolvedAt(req, byName, a, fa, n);
    SolvedAt(req, byName, b, fb, n);
    if k :| k in Locals(byName[n]) && k in byName && !Agree(a, b, k) {
      m := k;
      SolvedAt(req, byName, a, fa, m);
      SolvedAt(req, byName, b, fb, m);
    } else {
      LooksAtProducers(req, byName, byName[n], a, b);
      assert false;
    }
  }

  /** Following differences never ends, so without a cycle there are none. */
  lemma {:induction false} NoDifference<N(!new)>(req: Request<N>, byName: ByName<N>, a: Selections<N>,
                                        fa: Failures<N>, b: Selections<N>, fb: Failures<N>,
                                        path: seq<N>, n: N)
    requires Acyclic(GraphOf(byName)) && Solves(req, byName, a, fa) && Solves(req, byName, b, fb)
    requires Distinct(path + [n]) && IsPath(GraphOf(byName), path + [n])
    ensures Entry(a, fa, n) == Entry(b, fb, n)
    decreases |byName| - |path|
  {
    hide ResolveTask, Solves, Entry;
    var path' := path + [n];
    assert n in path';
    if Entry(a, fa, n) != Entry(b, fb, n) {
      var m := DifferenceAtProducer(req, byName, a, fa, b, fb, n);
      if m in path' {
        ClosesCycle(GraphOf(byName), path', m);
      } else {
        DistinctFits(path', GraphOf(byName).Keys);
        assert GraphOf(byName).Keys == byName.Keys;
        NoDifference(req, byName, a, fa, b, fb, path', m);
      }
    }
  }

  /** Without cycles the specification has one solution. */
  lemma SolutionIsUnique<N(!new)>(req: Request<N>, byName: ByName<N>, a: Selections<N>, fa: Failures<N>,
                                  b: Selections<N>, fb: Failures<N>)
    requires Acyclic(GraphOf(byName))
    requires Solves(req, byName, a, fa) && Solves(req, byName, b, fb)
    ensures a == b && fa == fb
  {
    hide ResolveTask, Acyclic;
    forall n <- byName.Keys ensures Entry(a, fa, n) == Entry(b, fb, n) {
      NoDifference(req, byName, a, fa, b, fb, [], n);
    }
    forall n ensures (n in a <==> n in b) && (n in fa <==> n in fb) {
      if n in byName {
        assert Entry(a, fa, n) == Entry(b, fb, n);
      }
    }
    assert forall n <- a.Keys :: Entry(a, fa, n) == Entry(b, fb, n);
    assert forall n <- fa.Keys :: Entry(a, fa, n) == Entry(b, fb, n);
  }

  // --------------------------------------------------------- what the search records

  /** Neither the task nor a known producer of it was met while grey. */
  ghost predicate Untouched<N(!new)>(g: Graph<N>, s: Search<N>, n: N) {
    n !in s.cyclic && forall m | Edge(g, n, m) :: m !in s.cyclic
  }

  /** The task reviews no producer and some candidate is accepted for it, whatever the others resolve to. */
  ghost predicate Chosen<N(!new)>(req: Request<N>, byName: ByName<N>, n: N)
    requires n in byName
  {
    !Reviews(byName[n]) && ResolveTask(req, byName, byName[n], map[]).Selected?
  }

  lemma ChosenAlways<N(!new)>(req: Request<N>, byName: ByName<N>, n: N, selections: Selections<N>)
    requires n in byName && Chosen(req, byName, n)
    ensures ResolveTask(req, byName, byName[n], selections).Selected?
  {
  }

  /** A selection is of the task's own role under this policy, and carries the effort the task asks for, if any. */
  ghost predicate Carries<N(!new)>(req: Request<N>, task: Task<N>, selection: RoleSelection) {
    && selection.role == task.role && selection.role in req.roles && selection.digest == req.digest
    && (task.roleEffort != "" ==> selection.effort == task.roleEffort)
  }

  ghost predicate RecordedAt<N(!new)>(req: Request<N>, byName: ByName<N>, s: Search<N>, selections: Selections<N>,
                                      failures: Failures<N>, n: N) {
    && n in byName
    && (byName[n].role == "" ==> n !in selections)
    && (byName[n].role == "" && n in failures ==> n in s.cyclic)
    && (byName[n].role != "" ==> n in selections || n in failures)
    && (n in selections && n in failures ==> n in s.cyclic)
    && (n in selections ==> Carries(req, byName[n], selections[n]))
    && (Chosen(req, byName, n) ==> n in selections)
    && (Untouched(GraphOf(byName), s, n) ==>
          Entry(selections, failures, n) == ResolveTask(req, byName, byName[n], selections))
  }

  ghost predicate Recorded<N(!new)>(req: Request<N>, byName: ByName<N>, s: Search<N>, selections: Selections<N>,
                                    failures: Failures<N>) {
    && (forall n <- selections.Keys :: n in s.finish)
    && (forall n <- failures.Keys :: n in s.finish || n in s.cyclic)
    && (forall c <- s.cyclic :: c in failures)
    && (forall n <- failures.Keys :: failures[n] == CyclicNeeds ==> n in s.cyclic)
    && forall n <- s.finish.Keys :: RecordedAt(req, byName, s, selections, failures, n)
  }

  lemma RecordCyclic<N(!new)>(req: Request<N>, byName: ByName<N>, s: Search<N>, selections: Selections<N>,
                              failures: Failures<N>, n: N)
    requires Searching(GraphOf(byName), s) && Recorded(req, byName, s, selections, failures)
    requires n in s.stack
    ensures Recorded(req, byName, Met(s, n), selections, failures[n := CyclicNeeds])
  {
    hide ResolveTask, Carries, Chosen, GraphOf;
    forall k <- s.finish.Keys
      ensures RecordedAt(req, byName, Met(s, n), selections, failures[n := CyclicNeeds], k)
    {
      assert RecordedAt(req, byName, s, selections, failures, k);
      assert Untouched(GraphOf(byName), Met(s, n), k) ==> Untouched(GraphOf(byName), s, k);
    }
  }

  ghost function WithSelection<N(!new)>(selections: Selections<N>, n: N, outcome: Outcome): Selections<N> {
    if outcome.Selected? then selections[n := outcome.selection] else selections
  }

  ghost function WithFailure<N(!new)>(failures: Failures<N>, n: N, outcome: Outcome): Failures<N> {
    if outcome.Failed? then failures[n := outcome.failure] else failures
  }

  lemma RolesAnswered<N(!new)>(req: Request<N>, byName: ByName<N>, task: Task<N>, selections: Selections<N>)
    ensures ResolveTask(req, byName, task, selections).NoRole? <==> task.role == ""
    ensures ResolveTask(req, byName, task, selections) != Failed(CyclicNeeds)
    ensures ResolveTask(req, byName, task, selections).Selected? ==>
      Carries(req, task, ResolveTask(req, byName, task, selections).selection)
  {
  }

  lemma RecordOutcome<N(!new)>(req: Request<N>, byName: ByName<N>, s: Search<N>, selections: Selections<N>,
                               failures: Failures<N>, n: N, outcome: Outcome)
    requires Searching(GraphOf(byName), s) && Recorded(req, byName, s, selections, failures)
    requires s.stack != [] && s.stack[|s.stack| - 1] == n && n in byName
    requires forall m | Edge(GraphOf(byName), n, m) :: m in s.cyclic || m in s.finish
    requires outcome == ResolveTask(req, byName, byName[n], selections)
    ensures Recorded(req, byName, Done(s), WithSelection(selections, n, outcome), WithFailure(failures, n, outcome))
  {
    hide ResolveTask, RecordedAt, Edge;
    assert n in s.stack;
    RolesAnswered(req, byName, byName[n], selections);
    RecordNew(req, byName, Done(s), selections, failures, n, outcome);
    forall k <- s.finish.Keys
      ensures RecordedAt(req, byName, Done(s), WithSelection(selections, n, outcome), WithFailure(failures, n, outcome), k)
    {
      RecordOther(req, byName, s, selections, failures, n, outcome, k);
    }
  }

  lemma RecordNew<N(!new)>(req: Request<N>, byName: ByName<N>, s: Search<N>, selections: Selections<N>,
                           failures: Failures<N>,
                           n: N, outcome: Outcome)
    requires n in byName && n !in selections && (n in failures ==> n in s.cyclic)
    requires outcome == ResolveTask(req, byName, byName[n], selections)
    requires Edge(GraphOf(byName), n, n) ==> n in s.cyclic
    ensures RecordedAt(req, byName, s, WithSelection(selections, n, outcome), WithFailure(failures, n, outcome), n)
  {
    hide ResolveTask;
    RolesAnswered(req, byName, byName[n], selections);
    assert Chosen(req, byName, n) ==> outcome.Selected? by {
      if Chosen(req, byName, n) {
        ChosenAlways(req, byName, n, selections);
      }
    }
    if Untouched(GraphOf(byName), s, n) {
      LooksAtProducers(req, byName, byName[n], selections, WithSelection(selections, n, outcome));
    }
  }

  lemma RecordOther<N(!new)>(req: Request<N>, byName: ByName<N>, s: Search<N>, selections: Selections<N>,
                             failures: Failures<N>,
                             n: N, outcome: Outcome, k: N)
    requires s.stack != [] && s.stack[|s.stack| - 1] == n && n !in s.finish
    requires k in s.finish && ProducersFirst(GraphOf(byName), s, k)
    requires RecordedAt(req, byName, s, selections, failures, k)
    ensures RecordedAt(req, byName, Done(s), WithSelection(selections, n, outcome), WithFailure(failures, n, outcome), k)
  {
    hide ResolveTask;
    var g := GraphOf(byName);
    if Untouched(g, Done(s), k) {
      assert Untouched(g, s, k) && !Edge(g, k, n);
      LooksAtProducers(req, byName, byName[k], selections, WithSelection(selections, n, outcome));
    }
  }

  // ------------------------------------------------------------------- the search

  datatype Mark = Grey | Black

  ghost predicate Marked<N(!new)>(state: map<N, Mark>, s: Search<N>) {
    && (forall n :: n in s.stack <==> n in state && state[n] == Grey)
    && (forall n :: n in s.finish <==> n in state && state[n] == Black)
  }

  ghost predicate Consistent<N(!new)>(req: Request<N>, byName: ByName<N>, state: map<N, Mark>, s: Search<N>,
                                      selections: Selections<N>, failures: Failures<N>) {
    Searching(GraphOf(byName), s) && Marked(state, s) && Recorded(req, byName, s, selections, failures)
  }

  lemma ConsistentGrey<N(!new)>(req: Request<N>, byName: ByName<N>, state: map<N, Mark>, s: Search<N>,
                                selections: Selections<N>, failures: Failures<N>, n: N)
    requires Consistent(req, byName, state, s, selections, failures)
    requires Reaches(GraphOf(byName), s, n) && n in byName && n !in state
    ensures n !in s.stack
    ensures Consistent(req, byName, state[n := Grey], s.(stack := s.stack + [n]), selections, failures)
  {
    var s' := s.(stack := s.stack + [n]);
    Enter(GraphOf(byName), s, n);
    GreyMarked(state, s, n);
    RecordedAs(req, byName, s, s', selections, failures);
  }

  lemma GreyMarked<N(!new)>(state: map<N, Mark>, s: Search<N>, n: N)
    requires Marked(state, s) && n !in state
    ensures Marked(state[n := Grey], s.(stack := s.stack + [n]))
  {
  }

  lemma RecordedAs<N(!new)>(req: Request<N>, byName: ByName<N>, s: Search<N>, s': Search<N>,
                            selections: Selections<N>, failures: Failures<N>)
    requires Recorded(req, byName, s, selections, failures)
    requires s'.finish == s.finish && s'.cyclic == s.cyclic
    ensures Recorded(req, byName, s', selections, failures)
  {
    forall k <- s.finish.Keys ensures RecordedAt(req, byName, s', selections, failures, k) {
      assert RecordedAt(req, byName, s, selections, failures, k);
      assert Untouched(GraphOf(byName), s', k) ==> Untouched(GraphOf(byName), s, k);
    }
  }

  lemma ConsistentMet<N(!new)>(req: Request<N>, byName: ByName<N>, state: map<N, Mark>, s: Search<N>,
                               selections: Selections<N>, failures: Failures<N>, n: N)
    requires Consistent(req, byName, state, s, selections, failures)
    requires Reaches(GraphOf(byName), s, n) && n in s.stack
    ensures Consistent(req, byName, state, Met(s, n), selections, failures[n := CyclicNeeds])
  {
    MeetAgain(GraphOf(byName), s, n);
    RecordCyclic(req, byName, s, selections, failures, n);
  }

  lemma ConsistentBlack<N(!new)>(req: Request<N>, byName: ByName<N>, state: map<N, Mark>, s: Search<N>,
                                 selections: Selections<N>, failures: Failures<N>, n: N, outcome: Outcome)
    requires Consistent(req, byName, state, s, selections, failures)
    requires s.stack != [] && s.stack[|s.stack| - 1] == n && n in byName && n !in s.stack[..|s.stack| - 1]
    requires forall m <- Locals(byName[n]) :: m in byName ==> m in s.cyclic || m in s.finish
    requires outcome == ResolveTask(req, byName, byName[n], selections)
    ensures Consistent(req, byName, state[n := Black], Done(s),
                       WithSelection(selections, n, outcome), WithFailure(failures, n, outcome))
  {
    Finish(GraphOf(byName), s);
    RecordOutcome(req, byName, s, selections, failures, n, outcome);
    DoneMarked(state, s, n);
  }

  lemma DoneMarked<N(!new)>(state: map<N, Mark>, s: Search<N>, n: N)
    requires Marked(state, s) && s.stack != [] && s.stack[|s.stack| - 1] == n && n !in s.stack[..|s.stack| - 1]
    ensures Marked(state[n := Black], Done(s))
  {
    assert s.stack == s.stack[..|s.stack| - 1] + [n];
  }

  lemma MarksMean<N(!new)>(req: Request<N>, byName: ByName<N>, state: map<N, Mark>, s: Search<N>,
                           selections: Selections<N>, failures: Failures<N>, n: N)
    requires Consistent(req, byName, state, s, selections, failures) && n in state
    ensures if state[n] == Grey then n in s.stack else n in s.finish
  {
    hide Searching, Recorded;
  }

  /** The search is done with a task, or has met it while grey, or does not know it. */
  ghost predicate Settled<N(!new)>(byName: ByName<N>, s: Search<N>, m: N) {
    m in byName ==> m in s.cyclic || m in s.finish
  }

  lemma ReachesProducer<N(!new)>(byName: ByName<N>, s: Search<N>, n: N, m: N)
    requires s.stack != [] && s.stack[|s.stack| - 1] == n && n in byName && m in Locals(byName[n])
    ensures Reaches(GraphOf(byName), s, m)
  {
  }

  /** One resolution in progress. */
  class Resolution<N(==, !new)> {
    const req: Request<N>
    const byName: ByName<N>
    var state: map<N, Mark>
    var selections: Selections<N>
    var failures: Failures<N>
    ghost var search: Search<N>

    ghost predicate Valid()
      reads this
    {
      Consistent(req, byName, state, search, selections, failures)
    }

    constructor (req: Request<N>, byName: ByName<N>)
      ensures Valid() && this.req == req && this.byName == byName && search == Search([], map[], 0, {})
    {
      this.req, this.byName := req, byName;
      state, selections, failures := map[], map[], map[];
      search := Search([], map[], 0, {});
    }

    ghost function White(): nat
      reads this
    {
      NotEntered(byName, state)
    }

    /** Everything known before is still known, and the grey tasks are these. */
    twostate predicate Extends(stack: seq<N>)
      reads this
    {
      && search.stack == stack && old(search.cyclic) <= search.cyclic
      && old(state.Keys) <= state.Keys && old(search.finish.Keys) <= search.finish.Keys
    }

    method MeetGrey(name: N)
      requires Valid() && Reaches(GraphOf(byName), search, name) && name in search.stack
      modifies this`failures, this`search
      ensures Valid() && Extends(old(search.stack)) && name in search.cyclic
    {
      hide Consistent;
      ConsistentMet(req, byName, state, search, selections, failures, name);
      failures := failures[name := CyclicNeeds];
      search := Met(search, name);
    }

    method TurnGrey(name: N)
      requires Valid() && Reaches(GraphOf(byName), search, name) && name in byName && name !in state
      modifies this`state, this`search
      ensures Valid() && Extends(old(search.stack) + [name]) && White() < old(White())
      ensures name !in old(search.stack)
    {
      hide Consistent, NotEntered, Reaches;
      ConsistentGrey(req, byName, state, search, selections, failures, name);
      Entering(byName, state, name, Grey);
      state := state[name := Grey];
      search := search.(stack := search.stack + [name]);
    }

    method TurnBlack(name: N)
      requires Valid() && name in byName
      requires search.stack != [] && search.stack[|search.stack| - 1] == name
      requires name !in search.stack[..|search.stack| - 1]
      requires forall m <- Locals(byName[name]) :: Settled(byName, search, m)
      modifies this
      ensures Valid() && Extends(old(search.stack[..|search.stack| - 1])) && name in search.finish
      ensures White() <= old(White())
    {
      hide Consistent, ResolveTask, NotEntered;
      Entering(byName, state, name, Black);
      var outcome := ResolveOne(req, byName, byName[name], selections);
      ConsistentBlack(req, byName, state, search, selections, failures, name, outcome);
      state := state[name := Black];
      if outcome.Selected? {
        selections := selections[name := outcome.selection];
      }
      if outcome.Failed? {
        failures := failures[name := outcome.failure];
      }
      search := Done(search);
    }

    method VisitProducers(name: N, ghost room: nat)
      requires Valid() && search.stack != [] && search.stack[|search.stack| - 1] == name && name in byName
      requires White() <= room
      modifies this
      ensures Valid() && Extends(old(search.stack)) && White() <= room
      ensures forall m <- Locals(byName[name]) :: Settled(byName, search, m)
      decreases room, 1
    {
      hide Consistent, Reaches, NotEntered;
      var locals := Locals(byName[name]);
      for i := 0 to |locals|
        invariant Valid() && Extends(old(search.stack)) && White() <= room
        invariant forall k | 0 <= k < i :: Settled(byName, search, locals[k])
      {
        ReachesProducer(byName, search, name, locals[i]);
        Visit(locals[i], room);
      }
    }

    /** Visits a task: its producers first, then the task itself. `room` bounds the tasks not yet entered. */
    method Visit(name: N, ghost room: nat)
      requires Valid() && Reaches(GraphOf(byName), search, name) && White() <= room
      modifies this
      ensures Valid() && Extends(old(search.stack)) && Settled(byName, search, name) && White() <= room
      decreases room, 0
    {
      hide Consistent, NotEntered, Reaches;
      if name in state {
        MarksMean(req, byName, state, search, selections, failures, name);
      }
      if (name in state && state[name] == Black) || name !in byName {
        return;
      }
      if name in state && state[name] == Grey {
        MeetGrey(name);
        return;
      }
      TurnGrey(name);
      VisitProducers(name, room - 1);
      TurnBlack(name);
    }

    /** Visits every task in the order given. */
    method VisitAll(tasks: seq<Task<N>>)
      requires Valid() && search.stack == []
      modifies this
      ensures Valid() && search.stack == []
      ensures forall t <- tasks :: Settled(byName, search, t.name)
    {
      hide Consistent, Reaches, GraphOf, NotEntered;
      for i := 0 to |tasks|
        invariant Valid() && search.stack == []
        invariant forall k | 0 <= k < i :: Settled(byName, search, tasks[k].name)
      {
        FromEmpty(GraphOf(byName), search, tasks[i].name);
        Visit(tasks[i].name, White());
      }
    }
  }

  /** The tasks the search has not entered. */
  ghost function Unentered<N(!new)>(byName: ByName<N>, state: map<N, Mark>): set<N> {
    set n | n in byName && n !in state
  }

  ghost function NotEntered<N(!new)>(byName: ByName<N>, state: map<N, Mark>): nat {
    |Unentered(byName, state)|
  }

  lemma Without<N(!new)>(s: set<N>, n: N)
    ensures |s - {n}| <= |s| && (n in s ==> |s - {n}| < |s|)
  {
    if n in s {
      assert s == (s - {n}) + {n};
    } else {
      assert s - {n} == s;
    }
  }

  lemma EnteredOne<N(!new)>(byName: ByName<N>, state: map<N, Mark>, n: N, mark: Mark)
    ensures Unentered(byName, state[n := mark]) == Unentered(byName, state) - {n}
  {
  }

  lemma Entering<N(!new)>(byName: ByName<N>, state: map<N, Mark>, n: N, mark: Mark)
    ensures NotEntered(byName, state[n := mark]) <= NotEntered(byName, state)
    ensures n in byName && n !in state ==> NotEntered(byName, state[n := mark]) < NotEntered(byName, state)
  {
    assert n in byName && n !in state ==> n in Unentered(byName, state);
    hide Unentered;
    EnteredOne(byName, state, n, mark);
    Without(Unentered(byName, state), n);
  }

  // ------------------------------------------------------------------ the whole call

  /** Tasks by name; of two with one name the later counts. */
  function IndexOf<N>(tasks: seq<Task<N>>): (byName: ByName<N>)
    ensures forall t <- tasks :: t.name in byName
    ensures forall n <- byName.Keys :: byName[n] in tasks && byName[n].name == n
  {
    if tasks == [] then map[]
    else
      var last := tasks[|tasks| - 1];
      IndexOf(tasks[..|tasks| - 1])[last.name := last]
  }

  lemma AllFinished<N(!new)>(byName: ByName<N>, s: Search<N>)
    requires Searching(GraphOf(byName), s) && s.stack == [] && forall n <- byName.Keys :: Settled(byName, s, n)
    ensures Finished(GraphOf(byName), s) && s.finish.Keys == byName.Keys
  {
    hide ProducersFirst, OnCycle, WithinOnly;
  }

  lemma CyclesFail<N(!new)>(g: Graph<N>, s: Search<N>, failures: Failures<N>)
    requires Searching(g, s) && Finished(g, s) && forall c <- s.cyclic :: c in failures
    ensures forall p | IsCycle(g, p) :: exists n :: n in p && n in failures
  {
    hide IsCycle, Searching, Finished;
    forall p | IsCycle(g, p) ensures exists n :: n in p && n in failures {
      CycleIsMet(g, s, p);
    }
  }

  lemma OverKeys<N(!new)>(req: Request<N>, byName: ByName<N>, s: Search<N>,
                          selections: Selections<N>, failures: Failures<N>)
    requires Searching(GraphOf(byName), s) && Recorded(req, byName, s, selections, failures)
    requires s.stack == [] && s.finish.Keys == byName.Keys
    ensures selections.Keys + failures.Keys <= byName.Keys
    ensures forall c <- s.cyclic :: c in failures && OnCycle(GraphOf(byName), c)
  {
    hide RecordedAt, ProducersFirst, OnCycle, GraphOf, IsPath;
  }

  lemma OverAnswers<N(!new)>(req: Request<N>, byName: ByName<N>, s: Search<N>,
                             selections: Selections<N>, failures: Failures<N>, n: N)
    requires Recorded(req, byName, s, selections, failures) && s.finish.Keys == byName.Keys && n in byName
    requires forall c <- s.cyclic :: OnCycle(GraphOf(byName), c)
    ensures AnswersAt(req, byName, selections, failures, n)
  {
    hide RecordedAt, AnswersAt, OnCycle, GraphOf;
    RecordedAnswers(req, byName, s, selections, failures, n);
  }

  /** What is known once every task is settled and none is grey. */
  lemma SearchOver<N(!new)>(req: Request<N>, byName: ByName<N>, state: map<N, Mark>, s: Search<N>,
                            selections: Selections<N>, failures: Failures<N>)
    requires Consistent(req, byName, state, s, selections, failures)
    requires s.stack == [] && forall n <- byName.Keys :: Settled(byName, s, n)
    ensures Answers(req, byName, selections, failures)
  {
    hide Searching, Recorded, Marked, AnswersAt, Solves, IsCycle, OnCycle, Acyclic, Finished, Settled, GraphOf;
    var g := GraphOf(byName);
    AllFinished(byName, s);
    OverKeys(req, byName, s, selections, failures);
    CyclesFail(g, s, failures);
    forall n <- byName.Keys ensures AnswersAt(req, byName, selections, failures, n) {
      OverAnswers(req, byName, s, selections, failures, n);
    }
    if Acyclic(g) {
      NothingMet(g, s);
      NothingMetSolves(req, byName, s, selections, failures);
    }
  }

  lemma RecordedAnswers<N(!new)>(req: Request<N>, byName: ByName<N>, s: Search<N>,
                                 selections: Selections<N>, failures: Failures<N>, n: N)
    requires RecordedAt(req, byName, s, selections, failures, n)
    requires n in s.cyclic ==> OnCycle(GraphOf(byName), n)
    requires n in failures && failures[n] == CyclicNeeds ==> n in s.cyclic
    ensures AnswersAt(req, byName, selections, failures, n)
  {
    hide ResolveTask;
  }

  lemma NothingMetSolves<N(!new)>(req: Request<N>, byName: ByName<N>, s: Search<N>,
                                  selections: Selections<N>, failures: Failures<N>)
    requires Recorded(req, byName, s, selections, failures)
    requires s.cyclic == {} && s.finish.Keys == byName.Keys
    ensures Solves(req, byName, selections, failures)
  {
    hide ResolveTask;
    forall n <- byName.Keys
      ensures Entry(selections, failures, n) == ResolveTask(req, byName, byName[n], selections)
      ensures !(n in selections && n in failures)
    {
      assert RecordedAt(req, byName, s, selections, failures, n) && Untouched(GraphOf(byName), s, n);
    }
  }

  /** A role task is answered, a task without a role is not; anything else, and a cyclic need, only on a cycle. */
  ghost predicate AnswersAt<N(!new)>(req: Request<N>, byName: ByName<N>, selections: Selections<N>,
                                     failures: Failures<N>, n: N)
    requires n in byName
  {
    && (Chosen(req, byName, n) ==> n in selections)
    && (n in selections ==> Carries(req, byName[n], selections[n]))
    && (byName[n].role != "" ==> n in selections || n in failures)
    && (byName[n].role == "" ==> n !in selections)
    && (n in failures && (n in selections || byName[n].role == "") ==> OnCycle(GraphOf(byName), n))
    && (n in failures && failures[n] == CyclicNeeds ==> OnCycle(GraphOf(byName), n))
  }

  ghost predicate Answers<N(!new)>(req: Request<N>, byName: ByName<N>, selections: Selections<N>,
                                   failures: Failures<N>) {
    var g := GraphOf(byName);
    && selections.Keys + failures.Keys <= byName.Keys
    && (forall n <- byName.Keys :: AnswersAt(req, byName, selections, failures, n))
    && (forall p | IsCycle(g, p) :: exists n :: n in p && n in failures)
    && (Acyclic(g) ==> Solves(req, byName, selections, failures))
  }

  /**
   Resolves the roles of a campaign. On any input every role task is answered and
   every cycle of local producers holds a task that ends in failures; without a
   cycle the answer is the one solution of the recursive specification.
   */
  method ResolveRoles<N(==, !new)>(req: Request<N>, tasks: seq<Task<N>>)
      returns (selections: Selections<N>, failures: Failures<N>)
    ensures Answers(req, IndexOf(tasks), selections, failures)
  {
    hide Consistent, Answers;
    var byName := IndexOf(tasks);
    var resolution := new Resolution(req, byName);
    resolution.VisitAll(tasks);
    SearchOver(req, byName, resolution.state, resolution.search, resolution.selections, resolution.failures);
    return resolution.selections, resolution.failures;
  }

  lemma FromEmpty<N(!new)>(g: Graph<N>, s: Search<N>, n: N)
    requires s.stack == []
    ensures Reaches(g, s, n)
  {
  }

  /**
   On a cycle the two answers exclude each other no longer: a task that needs
   itself, reviews nothing and has an accepted candidate ends both selected and
   failed, whatever else the campaign holds.
   */
  lemma SelfNeedingEndsBoth<N(!new)>(req: Request<N>, byName: ByName<N>, selections: Selections<N>,
                                     failures: Failures<N>, n: N)
    requires Answers(req, byName, selections, failures)
    requires n in byName && n in Locals(byName[n]) && Chosen(req, byName, n)
    ensures n in selections && n in failures
  {
    hide ResolveTask, Solves, Chosen, WithinOnly, Acyclic, OnCycle;
    assert AnswersAt(req, byName, selections, failures, n);
    var g := GraphOf(byName);
    assert Edge(g, n, n);
    assert IsCycle(g, [n, n]);
  }
}
