/** What role resolution promises about order, provider diversity and effort. */
module RolePolicy {
  import opened Basics
  import opened RoleGraph
  import opened RoleResolution
  import opened RoleSearch

  // ------------------------------------------------------------ order of the task list

  ghost predicate DistinctNames<N>(tasks: seq<Task<N>>) {
    forall i, j | 0 <= i < j < |tasks| :: tasks[i].name != tasks[j].name
  }

  lemma {:induction false} IndexFinds<N>(tasks: seq<Task<N>>, t: Task<N>)
    requires DistinctNames(tasks) && t in tasks
    ensures IndexOf(tasks)[t.name] == t
  {
    var init, last := tasks[..|tasks| - 1], tasks[|tasks| - 1];
    assert tasks == init + [last];
    if t in init {
      IndexFinds(init, t);
      var i :| 0 <= i < |init| && init[i] == t;
      assert tasks[i].name != last.name;
    }
  }

  lemma SameIndex<N(!new)>(tasks: seq<Task<N>>, tasks': seq<Task<N>>)
    requires DistinctNames(tasks) && DistinctNames(tasks')
    requires forall t :: t in tasks <==> t in tasks'
    ensures IndexOf(tasks) == IndexOf(tasks')
  {
    var a, b := IndexOf(tasks), IndexOf(tasks');
    forall n | n in a ensures n in b && a[n] == b[n] {
      IndexFinds(tasks', a[n]);
    }
    forall n | n in b ensures n in a {
      IndexFinds(tasks, b[n]);
    }
  }

  /**
   Without a cycle, and with distinct names, the answer does not depend on the
   order in which the tasks are listed.
   */
  lemma OrderIrrelevant<N(!new)>(req: Request<N>, tasks: seq<Task<N>>, tasks': seq<Task<N>>,
                                 s: Selections<N>, f: Failures<N>, s': Selections<N>, f': Failures<N>)
    requires DistinctNames(tasks) && DistinctNames(tasks')
    requires forall t :: t in tasks <==> t in tasks'
    requires Acyclic(GraphOf(IndexOf(tasks)))
    requires Answers(req, IndexOf(tasks), s, f) && Answers(req, IndexOf(tasks'), s', f')
    ensures s == s' && f == f'
  {
    SameIndex(tasks, tasks');
    SolutionIsUnique(req, IndexOf(tasks), s, f, s', f');
  }

  // ------------------------------------------------------------ what the selector is asked

  /** Whether the ranking sees this pool closed although the quota snapshot does not close it. */
  ghost predicate ClosedToSurplus<N(!new)>(task: Task<N>, quota: Quota, pool: string) {
    && task.surplus && pool !in quota.checksDisabled && pool in quota.pools
    && (quota.pools[pool] == AdmissionConstrained || quota.pools[pool] == AdmissionRecovering)
  }

  ghost predicate ArePools<N(!new)>(task: Task<N>, quota: Quota, pools: map<string, Admission>) {
    && pools.Keys == quota.pools.Keys
    && forall p <- pools.Keys :: pools[p] == if ClosedToSurplus(task, quota, p) then AdmissionClosed else quota.pools[p]
  }

  /** Every question goes to the selector with the pools as the task may use them, and none without a snapshot. */
  lemma AskExact<N(!new)>(req: Request<N>, task: Task<N>, live: Project, only: Option<string>)
    ensures exists pools ::
      && Ask(req, task, live, only) == req.select(Query(task, live, only, pools))
      && if req.quota.Some? then ArePools(task, req.quota.value, pools) else pools == map[]
  {
    var pools := if req.quota.Some? then RankedPools(task, req.quota.value) else map[];
    assert Ask(req, task, live, only) == req.select(Query(task, live, only, pools));
  }

  // ------------------------------------------------------------- who produced what is reviewed

  /** The route a producer is known to run on: the one selected for it, or the first fixed one of a task without a role. */
  ghost predicate RunsOn<N>(byName: ByName<N>, selections: Selections<N>, m: N, pair: string) {
    if m in selections then pair == selections[m].route
    else m in byName && byName[m].role == "" && byName[m].pairs != [] && pair == byName[m].pairs[0]
  }

  /** Some worker names exactly this family for the route in the project. */
  ghost predicate FamilyIs(projects: seq<Project>, project: string, pair: string, family: string) {
    pair != "" && FamiliesOf(projects, project, pair) == {family}
  }

  lemma FamilyExact(projects: seq<Project>, project: string, pair: string, family: string)
    ensures FamilyIs(projects, project, pair, family) <==> family != "" && Family(projects, project, pair) == family
  {
    FamiliesNamed(projects, project, pair);
    hide FamiliesOf;
    assert family in {family};
  }

  /** Some known producer runs on a route of this family. */
  ghost predicate ProducedBy<N(!new)>(req: Request<N>, byName: ByName<N>, producers: seq<N>, selections: Selections<N>,
                                      family: string) {
    exists m <- producers, pair: string ::
      m in byName && RunsOn(byName, selections, m, pair) && FamilyIs(req.projects, byName[m].project, pair, family)
  }

  lemma ProducerExact<N(!new)>(req: Request<N>, byName: ByName<N>, selections: Selections<N>, m: N, family: string)
    requires m in byName
    ensures family != "" && ProducerFamily(req, byName, selections, m) == family <==>
      exists pair: string :: RunsOn(byName, selections, m, pair) && FamilyIs(req.projects, byName[m].project, pair, family)
  {
    hide Family, FamilyIs;
    var pair := ProducerPair(byName, selections, m);
    FamilyExact(req.projects, byName[m].project, pair, family);
    FamilyExact(req.projects, byName[m].project, "", family);
    assert pair != "" ==> RunsOn(byName, selections, m, pair);
    NoFamily(req.projects, byName[m].project, family);
    forall p: string | RunsOn(byName, selections, m, p) ensures p == pair {
    }
  }

  lemma NoFamily(projects: seq<Project>, project: string, family: string)
    ensures !FamilyIs(projects, project, "", family)
  {
  }

  /** The known families are exactly those of the routes the known local producers run on. */
  lemma {:induction false} KnownExact<N(!new)>(req: Request<N>, byName: ByName<N>, producers: seq<N>,
                                               selections: Selections<N>, family: string)
    ensures family in KnownFamilies(req, byName, producers, selections)
      <==> ProducedBy(req, byName, producers, selections, family)
  {
    if producers != [] {
      hide RunsOn, FamilyIs, ProducerFamily;
      KnownExact(req, byName, producers[1..], selections, family);
      if producers[0] in byName {
        ProducerExact(req, byName, selections, producers[0], family);
      }
      assert forall m <- producers :: m == producers[0] || m in producers[1..];
    }
  }

  /** A task reviews when it is typed or named so and has a producer in this campaign. */
  lemma ReviewsExact<N(!new)>(task: Task<N>)
    ensures Reviews(task) <==>
      && (task.reviewType || task.role == "review" || task.role == "critical-review")
      && if task.producers != [] then exists p <- task.producers :: p.Within? else exists p <- task.needs :: p.Within?
  {
    var needs := if task.producers == [] then task.needs else task.producers;
    assert Locals(task) != [] ==> Locals(task)[0] in Locals(task);
    assert forall p <- needs :: p.Within? ==> p == Within(p.task) && p.task in WithinOnly(needs);
  }

  // -------------------------------------------------------------------- diversity

  /** The contract of the policy's selector: asked for one route it picks that route or none. */
  ghost predicate Honours<N(!new)>(req: Request<N>) {
    forall q: Query<N> | q.only.Some? && req.select(q).Picked? :: req.select(q).pick.route == q.only.value
  }

  lemma {:induction false} FirstOutsideIs<N(!new)>(req: Request<N>, task: Task<N>, live: Project, first: Pick,
                                        known: set<string>,
                                                   verdicts: seq<Verdict>) returns (k: nat)
    ensures k <= |verdicts|
    ensures forall i | 0 <= i < k :: !Outside(req, task, live, first, known, verdicts[i])
    ensures FirstOutside(req, task, live, first, known, verdicts).None? <==> k == |verdicts|
    ensures k < |verdicts| ==>
      && Outside(req, task, live, first, known, verdicts[k])
      && FirstOutside(req, task, live, first, known, verdicts).value == Ask(req, task, live, Some(verdicts[k].route)).pick
  {
    if verdicts == [] || Outside(req, task, live, first, known, verdicts[0]) {
      k := 0;
    } else {
      var m := FirstOutsideIs(req, task, live, first, known, verdicts[1..]);
      k := m + 1;
    }
  }

  /**
   A cross-provider selection really crosses: the route's family is known and
   none of the producers', and with a quota snapshot the candidate is in the
   winning band, whose pool is healthy, about to reset, or unchecked. A review
   that stays on a known family had no such candidate. Nothing else crosses.
   */
  lemma CrossProviderExact<N(!new)>(req: Request<N>, byName: ByName<N>, task: Task<N>, selections: Selections<N>)
    requires Honours(req)
    requires ResolveTask(req, byName, task, selections).Selected?
    ensures
      var s := ResolveTask(req, byName, task, selections).selection;
      var live := Filtered(req, task, !s.waiting);
      var first := Ask(req, task, live, None).pick;
      && s.families == (if Reviews(task) then KnownFamilies(req, byName, Locals(task), selections) else {})
      && (s.crossProvider ==>
            && s.families != {} && Family(req.projects, task.project, s.route) !in s.families + {""}
            && exists v <- s.verdicts :: v.route == s.route && v.eligible
                 && (req.quota.Some? ==> DiversityUsable(v, first, req.quota.value)))
      && (!s.crossProvider ==> s.route == first.route)
      && (!s.crossProvider && s.families != {} ==>
            forall v <- s.verdicts :: !Outside(req, task, live, first, s.families, v))
  {
    var s := ResolveTask(req, byName, task, selections).selection;
    var live := Filtered(req, task, !s.waiting);
    var answer := Ask(req, task, live, None);
    if s.families != {} {
      var k := FirstOutsideIs(req, task, live, answer.pick, s.families, answer.verdicts);
      if k < |answer.verdicts| {
        assert answer.verdicts[k] in s.verdicts;
      }
    }
  }

  // ------------------------------------------------------------- what a resolution comes to

  /** The first listing of the route is at `i`, in this band. */
  ghost predicate BandAt(ranked: seq<Verdict>, route: string, band: string, i: nat) {
    && i < |ranked| && ranked[i].route == route && ranked[i].band == band
    && forall j | 0 <= j < i :: ranked[j].route != route
  }

  ghost predicate BandIs(ranked: seq<Verdict>, route: string, band: string) {
    exists i: nat :: BandAt(ranked, route, band, i)
  }

  lemma {:induction false} BandExact(ranked: seq<Verdict>, route: string, band: string)
    requires band != ""
    ensures BandOf(ranked, route) == band <==> BandIs(ranked, route, band)
  {
    if ranked != [] && ranked[0].route == route {
      assert BandAt(ranked, route, ranked[0].band, 0);
    } else if ranked != [] {
      BandExact(ranked[1..], route, band);
      forall i: nat ensures BandAt(ranked[1..], route, band, i) <==> BandAt(ranked, route, band, i + 1) {
        assert forall j | 0 < j < |ranked| :: ranked[j] == ranked[1..][j - 1];
      }
      assert !BandAt(ranked, route, band, 0);
      if i: nat :| BandAt(ranked, route, band, i) {
        assert BandAt(ranked[1..], route, band, i - 1);
      }
    }
  }

  /** The candidate may be preferred for diversity: eligible, in the winning band, of another family, and accepted alone. */
  ghost predicate MayCross<N(!new)>(req: Request<N>, task: Task<N>, live: Project, first: Pick, known: set<string>,
                                    v: Verdict) {
    && v.eligible
    && (req.quota.Some? ==>
          && BandIs(first.ranked, first.route, v.band)
          && (v.band == "healthy" || v.band == "reset-soon"
              || (v.band == "unknown" && v.pool in req.quota.value.checksDisabled)))
    && (exists family: string :: FamilyIs(req.projects, task.project, v.route, family) && family !in known)
    && Ask(req, task, live, Some(v.route)).Picked?
  }

  lemma OutsideExact<N(!new)>(req: Request<N>, task: Task<N>, live: Project, first: Pick, known: set<string>, v: Verdict)
    ensures Outside(req, task, live, first, known, v) <==> MayCross(req, task, live, first, known, v)
  {
    hide Family, FamilyIs, BandOf, BandIs;
    if v.band != "" {
      BandExact(first.ranked, first.route, v.band);
    }
    var family := Family(req.projects, task.project, v.route);
    forall f: string
      ensures FamilyIs(req.projects, task.project, v.route, f) <==> f != "" && family == f
    {
      FamilyExact(req.projects, task.project, v.route, f);
    }
  }

  /** `pick` is what the selector gave for the route taken: the first candidate that may cross, or the first choice. */
  ghost predicate Takes<N(!new)>(req: Request<N>, task: Task<N>, live: Project, answer: Answer, known: set<string>,
                                 pick: Pick, crosses: bool)
    requires answer.Picked?
  {
    if crosses then
      known != {} && exists k | 0 <= k < |answer.verdicts| ::
        && MayCross(req, task, live, answer.pick, known, answer.verdicts[k])
        && (forall i | 0 <= i < k :: !MayCross(req, task, live, answer.pick, known, answer.verdicts[i]))
        && pick == Ask(req, task, live, Some(answer.verdicts[k].route)).pick
    else
      pick == answer.pick && (known == {} || forall v <- answer.verdicts :: !MayCross(req, task, live, answer.pick, known, v))
  }

  lemma TakesFirst<N(!new)>(req: Request<N>, task: Task<N>, live: Project, answer: Answer, known: set<string>)
    requires answer.Picked?
    ensures
      var outside := if known == {} then None else FirstOutside(req, task, live, answer.pick, known, answer.verdicts);
      Takes(req, task, live, answer, known, if outside.Some? then outside.value else answer.pick, outside.Some?)
  {
    hide Outside, MayCross, Ask;
    if known != {} {
      var k := FirstOutsideIs(req, task, live, answer.pick, known, answer.verdicts);
      forall v <- answer.verdicts
        ensures Outside(req, task, live, answer.pick, known, v) <==> MayCross(req, task, live, answer.pick, known, v)
      {
        OutsideExact(req, task, live, answer.pick, known, v);
      }
    }
  }

  /** What a task comes to before the selector is asked, and when both questions are refused. */
  lemma RefusalExact<N(!new)>(req: Request<N>, byName: ByName<N>, task: Task<N>, selections: Selections<N>)
    ensures
      var r := ResolveTask(req, byName, task, selections);
      && (r.NoRole? <==> task.role == "")
      && (r == Failed(UnknownRole) <==> task.role != "" && forall role <- req.roles :: role != task.role)
      && (r == Failed(NoCandidate) <==>
            && task.role != "" && task.role in req.roles
            && Ask(req, task, Filtered(req, task, true), None).Refused?
            && Ask(req, task, Filtered(req, task, false), None).Refused?)
  {
    hide KnownFamilies, FirstOutside, Reviews;
  }

  /**
   What a resolution that found a candidate comes to: the question answered first
   over the ready workers and else over the enrolled, the route taken from its
   answer, a refusal exactly when the override is refused for that route's effort,
   and else a selection that carries the override, or the effort given for it.
   */
  lemma SelectionExact<N(!new)>(req: Request<N>, byName: ByName<N>, task: Task<N>, selections: Selections<N>)
      returns (live: Project, answer: Answer, pick: Pick, crosses: bool)
    requires
      var r := ResolveTask(req, byName, task, selections);
      r.Selected? || r == Failed(EffortRaised)
    ensures
      var ready := Ask(req, task, Filtered(req, task, true), None);
      && live == Filtered(req, task, ready.Picked?) && answer == Ask(req, task, live, None) && answer.Picked?
    ensures
      var known := if Reviews(task) then KnownFamilies(req, byName, Locals(task), selections) else {};
      var r := ResolveTask(req, byName, task, selections);
      && Takes(req, task, live, answer, known, pick, crosses)
      && (r == Failed(EffortRaised) <==> EffortRefused(task.roleEffort, pick.effort))
      && (r.Selected? ==>
            var s := r.selection;
            && s.role == task.role && s.route == pick.route && s.digest == req.digest && s.verdicts == answer.verdicts
            && (task.roleEffort != "" ==> s.effort == task.roleEffort)
            && (task.roleEffort == "" ==> s.effort == pick.effort)
            && (s.waiting <==> Ask(req, task, Filtered(req, task, true), None).Refused?)
            && s.families == known && (s.crossProvider <==> crosses))
  {
    hide KnownFamilies, FirstOutside, Reviews, Takes, EffortRefused;
    var ready := Ask(req, task, Filtered(req, task, true), None);
    live := Filtered(req, task, ready.Picked?);
    answer := Ask(req, task, live, None);
    var known := if Reviews(task) then KnownFamilies(req, byName, Locals(task), selections) else {};
    TakesFirst(req, task, live, answer, known);
    var outside := if known == {} then None else FirstOutside(req, task, live, answer.pick, known, answer.verdicts);
    crosses, pick := outside.Some?, if outside.Some? then outside.value else answer.pick;
  }

  // ----------------------------------------------------------------------- effort

  /** How much effort each word asks for; a policy may name `xhigh` for some models, an override may not. */
  function Demand(effort: string): nat {
    match effort
    case "xhigh" => 4
    case "high" => 3
    case "medium" => 2
    case "low" => 1
    case _ => 0
  }

  /** An accepted override never asks for more than the policy gave. */
  lemma OverrideNeverRaises(override: string, policy: string)
    requires override != "" && !EffortRefused(override, policy)
    ensures override in {"low", "medium", "high"} && Demand(override) <= Demand(policy)
  {
  }

  /**
   The converse fails for a policy effort of `xhigh`, which the level table does
   not list: there even a lower override is refused as raised. It holds for every
   other policy effort.
   */
  lemma LowerOverrideAccepted(policy: string)
    ensures
      (forall override | override in {"low", "medium", "high"} ::
         Demand(override) <= Demand(policy) ==> !EffortRefused(override, policy))
      <==> policy != "xhigh"
  {
    if policy == "xhigh" {
      assert Demand("low") <= Demand(policy) && EffortRefused("low", policy);
    }
  }
}
