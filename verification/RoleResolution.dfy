/**
 Resolving the policy roles of a campaign's tasks: producers before reviewers, a
 reviewer from another provider family where one is usable, and a worker that
 qualifies.
 */
module RoleResolution {
  import opened Basics

  // -------------------------------------------------------------------- data model

  datatype Route = Route(pair: string, family: string)
  datatype WorkerRow = WorkerRow(worker: string, advertises: bool, enrolled: bool, ready: bool, routes: seq<Route>)
  datatype Project = Project(name: string, workers: seq<WorkerRow>)

  /** A needed task: one of this campaign, or one of another run, which is named with a slash. */
  datatype Need<N> = Within(task: N) | Across(reference: string)

  datatype Task<N> = Task(
    name: N, role: string, roleEffort: string, reviewType: bool, surplus: bool, project: string,
    hosts: seq<string>, producers: seq<Need<N>>, needs: seq<Need<N>>, pairs: seq<string>)

  datatype Verdict = Verdict(route: string, eligible: bool, band: string, pool: string)
  datatype Pick = Pick(route: string, effort: string, ranked: seq<Verdict>)
  datatype Answer = Refused(verdicts: seq<Verdict>) | Picked(pick: Pick, verdicts: seq<Verdict>)

  datatype Admission = AdmissionOpen | AdmissionConstrained | AdmissionRecovering | AdmissionClosed
  datatype Quota = Quota(pools: map<string, Admission>, checksDisabled: set<string>)

  /** What the policy's selector is asked; `only` restricts it to one route. */
  datatype Query<N> = Query(task: Task<N>, project: Project, only: Option<string>, pools: map<string, Admission>)

  /** The request: a policy, the projects, an optional quota snapshot and the fleet's own eligibility test. */
  datatype Request<!N> = Request(
    roles: seq<string>, digest: string, projects: seq<Project>, quota: Option<Quota>,
    select: Query<N> -> Answer, eligible: (Task<N>, string, bool) -> bool)

  datatype Failure = UnknownRole | NoCandidate | EffortRaised | CyclicNeeds
  datatype RoleSelection = RoleSelection(
    role: string, route: string, effort: string, digest: string, waiting: bool,
    families: set<string>, crossProvider: bool, verdicts: seq<Verdict>)
  datatype Outcome = NoRole | Selected(selection: RoleSelection) | Failed(failure: Failure)

  // --------------------------------------------------------------- provider families

  ghost function FamiliesIn(routes: seq<Route>, pair: string): set<string> {
    set r | r in routes && r.pair == pair && r.family != "" :: r.family
  }

  ghost function FamiliesOn(workers: seq<WorkerRow>, pair: string): set<string> {
    set w, f | w in workers && f in FamiliesIn(w.routes, pair) :: f
  }

  ghost function FamiliesOf(projects: seq<Project>, project: string, pair: string): set<string> {
    set p, f | p in projects && p.name == project && f in FamiliesOn(p.workers, pair) :: f
  }

  /** The family every worker of the project agrees on for a route, if they agree. */
  ghost function Family(projects: seq<Project>, project: string, pair: string): string {
    if pair != "" && exists f :: FamiliesOf(projects, project, pair) == {f}
    then var f :| FamiliesOf(projects, project, pair) == {f}; f
    else ""
  }

  /** The families met so far are none, or just this one. */
  ghost predicate Gathered(family: string, met: set<string>) {
    met == if family == "" then {} else {family}
  }

  ghost predicate Clashing(met: set<string>) {
    exists f, f' :: f in met && f' in met && f != f'
  }

  method GatherRoutes(family: string, routes: seq<Route>, pair: string, ghost met: set<string>)
      returns (next: string, clash: bool)
    requires Gathered(family, met)
    ensures !clash ==> Gathered(next, met + FamiliesIn(routes, pair))
    ensures clash ==> Clashing(met + FamiliesIn(routes, pair))
  {
    next, clash := family, false;
    for k := 0 to |routes|
      invariant Gathered(next, met + FamiliesIn(routes[..k], pair))
    {
      assert routes[..k + 1] == routes[..k] + [routes[k]];
      if routes[k].pair == pair && routes[k].family != "" {
        if next != "" && next != routes[k].family {
          assert next in met + FamiliesIn(routes[..k], pair);
          assert routes[k] in routes && routes[k].family in FamiliesIn(routes, pair);
          return next, true;
        }
        next := routes[k].family;
      }
    }
    assert routes[..|routes|] == routes;
  }

  method GatherWorkers(family: string, workers: seq<WorkerRow>, pair: string, ghost met: set<string>)
      returns (next: string, clash: bool)
    requires Gathered(family, met)
    ensures !clash ==> Gathered(next, met + FamiliesOn(workers, pair))
    ensures clash ==> Clashing(met + FamiliesOn(workers, pair))
  {
    next, clash := family, false;
    for j := 0 to |workers|
      invariant Gathered(next, met + FamiliesOn(workers[..j], pair))
    {
      assert workers[..j + 1] == workers[..j] + [workers[j]];
      ghost var met' := met + FamiliesOn(workers[..j], pair);
      next, clash := GatherRoutes(next, workers[j].routes, pair, met');
      assert met' + FamiliesIn(workers[j].routes, pair) == met + FamiliesOn(workers[..j + 1], pair);
      if clash {
        assert FamiliesOn(workers[..j + 1], pair) <= FamiliesOn(workers, pair);
        return;
      }
    }
    assert workers[..|workers|] == workers;
  }

  lemma FamiliesAppend(projects: seq<Project>, p: Project, project: string, pair: string)
    ensures FamiliesOf(projects + [p], project, pair)
      == FamiliesOf(projects, project, pair) + if p.name == project then FamiliesOn(p.workers, pair) else {}
  {
    hide FamiliesOn;
    assert forall q <- projects :: q in projects + [p];
    assert p in projects + [p];
  }

  lemma FamiliesWithin(projects: seq<Project>, i: nat, project: string, pair: string)
    requires i <= |projects|
    ensures FamiliesOf(projects[..i], project, pair) <= FamiliesOf(projects, project, pair)
  {
    hide FamiliesOn;
  }

  /** Which families are met for a route: those a route of that pair names, on a worker of a project of that name. */
  lemma FamiliesExact(projects: seq<Project>, project: string, pair: string, family: string)
    ensures family in FamiliesOf(projects, project, pair) <==>
      family != "" && exists p <- projects, w <- p.workers, r <- w.routes ::
        p.name == project && r.pair == pair && r.family == family
  {
    forall w: WorkerRow
      ensures family in FamiliesIn(w.routes, pair) <==>
        family != "" && exists r <- w.routes :: r.pair == pair && r.family == family
    {
    }
    hide FamiliesIn;
    forall p: Project
      ensures family in FamiliesOn(p.workers, pair) <==> exists w <- p.workers :: family in FamiliesIn(w.routes, pair)
    {
    }
    hide FamiliesOn;
  }

  lemma FamiliesNone(project: string, pair: string)
    ensures FamiliesOf([], project, pair) == {}
  {
  }

  lemma FamiliesNamed(projects: seq<Project>, project: string, pair: string)
    ensures "" !in FamiliesOf(projects, project, pair)
  {
  }

  /** The provider family of a route in a project; unknown if no worker names one or two disagree. */
  method RouteFamily(projects: seq<Project>, project: string, pair: string) returns (family: string)
    ensures family == Family(projects, project, pair)
    ensures family != "" <==> pair != "" && exists f :: FamiliesOf(projects, project, pair) == {f}
    ensures family != "" ==> FamiliesOf(projects, project, pair) == {family}
  {
    hide FamiliesOf, FamiliesOn;
    FamiliesNamed(projects, project, pair);
    family := "";
    if pair == "" {
      return;
    }
    FamiliesNone(project, pair);
    assert projects[..0] == [];
    for i := 0 to |projects|
      invariant Gathered(family, FamiliesOf(projects[..i], project, pair))
    {
      assert projects[..i + 1] == projects[..i] + [projects[i]];
      FamiliesAppend(projects[..i], projects[i], project, pair);
      ghost var met := FamiliesOf(projects[..i], project, pair);
      if projects[i].name == project {
        var next, clash := GatherWorkers(family, projects[i].workers, pair, met);
        if clash {
          FamiliesWithin(projects, i + 1, project, pair);
          return "";
        }
        family := next;
      }
    }
    assert projects[..|projects|] == projects;
  }

  // ----------------------------------------------------------- one task's resolution

  function WithinOnly<N(!new)>(needs: seq<Need<N>>): (locals: seq<N>)
    ensures forall n :: n in locals <==> Within(n) in needs
  {
    if needs == [] then []
    else (if needs[0].Within? then [needs[0].task] else []) + WithinOnly(needs[1..])
  }

  /** A task's local producers: its declared producers, or its needs when it declares none. */
  function Locals<N(!new)>(task: Task<N>): seq<N> {
    WithinOnly(if task.producers == [] then task.needs else task.producers)
  }

  /** The admission the ranking sees: a constrained pool is closed to surplus work unless its checks are off. */
  function RankedPools<N(!new)>(task: Task<N>, quota: Quota): map<string, Admission> {
    if !task.surplus then quota.pools
    else
      map id | id in quota.pools ::
        if id !in quota.checksDisabled && quota.pools[id] in {AdmissionConstrained, AdmissionRecovering}
        then AdmissionClosed else quota.pools[id]
  }

  function Ask<N(!new)>(req: Request<N>, task: Task<N>, project: Project, only: Option<string>): Answer {
    req.select(Query(task, project, only, if req.quota.Some? then RankedPools(task, req.quota.value) else map[]))
  }

  function LookUp(projects: seq<Project>, name: string): Project {
    if projects == [] then Project(name, [])
    else if projects[0].name == name then projects[0]
    else LookUp(projects[1..], name)
  }

  predicate Qualifies<N(!new)>(req: Request<N>, task: Task<N>, w: WorkerRow, ready: bool) {
    && w.advertises && (if ready then w.ready else w.enrolled)
    && (task.hosts != [] ==> w.worker in task.hosts)
    && req.eligible(task, w.worker, ready)
  }

  function Qualified<N(!new)>(req: Request<N>, task: Task<N>, workers: seq<WorkerRow>, ready: bool): seq<WorkerRow> {
    if workers == [] then []
    else
      (if Qualifies(req, task, workers[0], ready) then [workers[0].(ready := true)] else [])
      + Qualified(req, task, workers[1..], ready)
  }

  function Filtered<N(!new)>(req: Request<N>, task: Task<N>, ready: bool): Project {
    var project := LookUp(req.projects, task.project);
    Project(project.name, Qualified(req, task, project.workers, ready))
  }

  /** The band of the picked route, as the ranking listed it. */
  function BandOf(ranked: seq<Verdict>, route: string): string {
    if ranked == [] then ""
    else if ranked[0].route == route then ranked[0].band
    else BandOf(ranked[1..], route)
  }

  /** Diversity stays in the winning band and never promotes a pool whose state is unknown. */
  predicate DiversityUsable(v: Verdict, first: Pick, quota: Quota) {
    var band := BandOf(first.ranked, first.route);
    v.band == band && (band in {"healthy", "reset-soon"} || (band == "unknown" && v.pool in quota.checksDisabled))
  }

  ghost predicate Outside<N(!new)>(req: Request<N>, task: Task<N>, live: Project, first: Pick, known: set<string>,
                                   v: Verdict) {
    && v.eligible && (req.quota.Some? ==> DiversityUsable(v, first, req.quota.value))
    && Family(req.projects, task.project, v.route) != ""
    && Family(req.projects, task.project, v.route) !in known
    && Ask(req, task, live, Some(v.route)).Picked?
  }

  /** The first candidate from a family that produced nothing the task reviews. */
  ghost function FirstOutside<N(!new)>(req: Request<N>, task: Task<N>, live: Project, first: Pick, known: set<string>,
                              verdicts: seq<Verdict>): Option<Pick> {
    if verdicts == [] then None
    else if Outside(req, task, live, first, known, verdicts[0]) then
      Some(Ask(req, task, live, Some(verdicts[0].route)).pick)
    else FirstOutside(req, task, live, first, known, verdicts[1..])
  }

  function ProducerPair<N(!new)>(byName: map<N, Task<N>>, selections: map<N, RoleSelection>, m: N): string
    requires m in byName
  {
    if m in selections then selections[m].route
    else if byName[m].role == "" && byName[m].pairs != [] then byName[m].pairs[0]
    else ""
  }

  ghost function ProducerFamily<N(!new)>(req: Request<N>, byName: map<N, Task<N>>, selections: map<N, RoleSelection>,
                                        m: N): string
    requires m in byName
  {
    Family(req.projects, byName[m].project, ProducerPair(byName, selections, m))
  }

  /** The provider families known to have produced what a task with these producers reviews. */
  ghost function KnownFamilies<N(!new)>(req: Request<N>, byName: map<N, Task<N>>, producers: seq<N>,
                               selections: map<N, RoleSelection>): (known: set<string>)
    ensures "" !in known
  {
    if producers == [] then {}
    else
      var m := producers[0];
      (if m in byName && ProducerFamily(req, byName, selections, m) != ""
       then {ProducerFamily(req, byName, selections, m)} else {})
      + KnownFamilies(req, byName, producers[1..], selections)
  }

  predicate Reviews<N(!new)>(task: Task<N>) {
    (task.reviewType || task.role in {"review", "critical-review"}) && Locals(task) != []
  }

  function Level(effort: string): nat {
    if effort == "low" then 1 else if effort == "medium" then 2 else if effort == "high" then 3 else 0
  }

  predicate EffortRefused(override: string, policy: string) {
    override != "" && (override !in {"low", "medium", "high"} || Level(override) > Level(policy))
  }

  /** The recursive specification of one task: what it resolves to, given its producers' selections. */
  ghost function ResolveTask<N(!new)>(req: Request<N>, byName: map<N, Task<N>>, task: Task<N>,
                             selections: map<N, RoleSelection>): Outcome {
    if task.role == "" then NoRole
    else if task.role !in req.roles then Failed(UnknownRole)
    else
      var ready := Ask(req, task, Filtered(req, task, true), None);
      var waiting := ready.Refused?;
      var live := Filtered(req, task, !waiting);
      var answer := if waiting then Ask(req, task, live, None) else ready;
      if answer.Refused? then Failed(NoCandidate)
      else
        var known := if Reviews(task) then KnownFamilies(req, byName, Locals(task), selections) else {};
        var outside := if known == {} then None else FirstOutside(req, task, live, answer.pick, known, answer.verdicts);
        var pick := if outside.Some? then outside.value else answer.pick;
        if EffortRefused(task.roleEffort, pick.effort) then Failed(EffortRaised)
        else
          var effort := if task.roleEffort != "" then task.roleEffort else pick.effort;
          Selected(RoleSelection(task.role, pick.route, effort, req.digest, waiting, known, outside.Some?, answer.verdicts))
  }

  /** A worker stays when it is advertised, ready or enrolled as asked, listed where hosts are given, and eligible. */
  ghost predicate Stays<N(!new)>(req: Request<N>, task: Task<N>, w: WorkerRow, ready: bool) {
    && w.advertises && (ready ==> w.ready) && (!ready ==> w.enrolled)
    && (task.hosts == [] || exists h <- task.hosts :: h == w.worker)
    && req.eligible(task, w.worker, ready)
  }

  /** `kept` are the workers at these positions, in their order and shown as ready, and these are all that stay. */
  ghost predicate AreLive<N(!new)>(req: Request<N>, task: Task<N>, all: seq<WorkerRow>, ready: bool,
                                   kept: seq<WorkerRow>, at: seq<nat>) {
    && |at| == |kept| && (forall i, j | 0 <= i < j < |at| :: at[i] < at[j])
    && (forall i | 0 <= i < |at| ::
          at[i] < |all| && kept[i] == all[at[i]].(ready := true) && Stays(req, task, all[at[i]], ready))
    && (forall k: nat | k < |all| && Stays(req, task, all[k], ready) :: k in at)
  }

  /** `project` is the first of this name, or one without workers when there is none. */
  ghost predicate IsProject(projects: seq<Project>, name: string, project: Project) {
    if exists p <- projects :: p.name == name
    then exists i | 0 <= i < |projects| ::
      projects[i] == project && project.name == name && forall j | 0 <= j < i :: projects[j].name != name
    else project == Project(name, [])
  }

  lemma {:induction false} LookUpIs(projects: seq<Project>, name: string)
    ensures IsProject(projects, name, LookUp(projects, name))
  {
    if projects != [] && projects[0].name != name {
      var rest := projects[1..];
      LookUpIs(rest, name);
      assert forall p <- projects :: p == projects[0] || p in rest;
      if exists p <- rest :: p.name == name {
        var i :| 0 <= i < |rest| && rest[i] == LookUp(rest, name) && forall j | 0 <= j < i :: rest[j].name != name;
        assert projects[i + 1] == rest[i] && forall j | 0 < j < i + 1 :: projects[j] == rest[j - 1];
      }
    } else if projects != [] {
      assert projects[0] in projects;
    }
  }

  lemma QualifiesIs<N(!new)>(req: Request<N>, task: Task<N>, w: WorkerRow, ready: bool)
    ensures Qualifies(req, task, w, ready) <==> Stays(req, task, w, ready)
  {
  }

  lemma LiveGrows<N(!new)>(req: Request<N>, task: Task<N>, init: seq<WorkerRow>, w: WorkerRow, ready: bool,
                           kept: seq<WorkerRow>, at: seq<nat>)
    requires AreLive(req, task, init, ready, kept, at)
    ensures !Stays(req, task, w, ready) ==> AreLive(req, task, init + [w], ready, kept, at)
    ensures Stays(req, task, w, ready) ==>
      AreLive(req, task, init + [w], ready, kept + [w.(ready := true)], at + [|init|])
  {
    hide Stays;
    assert forall k: nat | k < |init| :: (init + [w])[k] == init[k];
    assert |init| in at + [|init|] && forall k <- at :: k in at + [|init|];
  }

  lemma {:induction false} QualifiedOneMore<N(!new)>(req: Request<N>, task: Task<N>, init: seq<WorkerRow>, w: WorkerRow,
                                                     ready: bool)
    ensures Qualified(req, task, init + [w], ready) ==
      Qualified(req, task, init, ready) + if Qualifies(req, task, w, ready) then [w.(ready := true)] else []
  {
    hide Qualifies;
    if init != [] {
      assert (init + [w])[1..] == init[1..] + [w];
      QualifiedOneMore(req, task, init[1..], w, ready);
    }
  }

  lemma {:induction false} QualifiedAre<N(!new)>(req: Request<N>, task: Task<N>, workers: seq<WorkerRow>, ready: bool)
      returns (at: seq<nat>)
    ensures AreLive(req, task, workers, ready, Qualified(req, task, workers, ready), at)
  {
    at := [];
    if workers != [] {
      hide AreLive, Qualifies, Stays, Qualified;
      var init, w := workers[..|workers| - 1], workers[|workers| - 1];
      assert workers == init + [w];
      at := QualifiedAre(req, task, init, ready);
      QualifiedOneMore(req, task, init, w, ready);
      QualifiesIs(req, task, w, ready);
      LiveGrows(req, task, init, w, ready, Qualified(req, task, init, ready), at);
      if Stays(req, task, w, ready) {
        at := at + [|init|];
      }
    }
  }

  /** The workers a question about the task is asked over: of the project's first listing, in order, those that stay. */
  ghost predicate IsLive<N(!new)>(req: Request<N>, task: Task<N>, ready: bool, live: Project) {
    exists project: Project, at: seq<nat> ::
      && IsProject(req.projects, task.project, project) && live.name == task.project
      && AreLive(req, task, project.workers, ready, live.workers, at)
  }

  lemma FilteredIs<N(!new)>(req: Request<N>, task: Task<N>, ready: bool)
    ensures IsLive(req, task, ready, Filtered(req, task, ready))
  {
    LookUpIs(req.projects, task.project);
    hide Qualified, AreLive, LookUp;
    var at := QualifiedAre(req, task, LookUp(req.projects, task.project).workers, ready);
  }

  lemma NoneQualified<N(!new)>(req: Request<N>, task: Task<N>, ready: bool)
    ensures Qualified(req, task, [], ready) == []
  {
  }

  method FilterWorkers<N(!new)>(req: Request<N>, task: Task<N>, ready: bool) returns (live: Project)
    ensures live == Filtered(req, task, ready)
    ensures IsLive(req, task, ready, live)
  {
    FilteredIs(req, task, ready);
    hide IsLive, Qualifies, Qualified, LookUp;
    var project := LookUp(req.projects, task.project);
    var all, workers := project.workers, [];
    NoneQualified(req, task, ready);
    for i := 0 to |all|
      invariant workers == Qualified(req, task, all[..i], ready)
    {
      assert all[..i + 1] == all[..i] + [all[i]];
      QualifiedOneMore(req, task, all[..i], all[i], ready);
      if Qualifies(req, task, all[i], ready) {
        workers := workers + [all[i].(ready := true)];
      }
    }
    assert all[..|all|] == all;
    live := Project(project.name, workers);
  }

  method ProducerFamilies<N(!new)>(req: Request<N>, byName: map<N, Task<N>>, task: Task<N>,
                          selections: map<N, RoleSelection>) returns (known: set<string>)
    ensures known == KnownFamilies(req, byName, Locals(task), selections)
  {
    known := {};
    var locals := Locals(task);
    for i := 0 to |locals|
      invariant known + KnownFamilies(req, byName, locals[i..], selections) == KnownFamilies(req, byName, locals, selections)
    {
      assert locals[i..][1..] == locals[i + 1..];
      if locals[i] in byName {
        var pair := ProducerPair(byName, selections, locals[i]);
        var family := RouteFamily(req.projects, byName[locals[i]].project, pair);
        if family != "" {
          known := known + {family};
        }
      }
    }
  }

  method CrossProvider<N(!new)>(req: Request<N>, task: Task<N>, live: Project, first: Pick, known: set<string>,
                                verdicts: seq<Verdict>)
      returns (outside: Option<Pick>)
    ensures outside == FirstOutside(req, task, live, first, known, verdicts)
  {
    for i := 0 to |verdicts|
      invariant FirstOutside(req, task, live, first, known, verdicts[i..]) == FirstOutside(req, task, live, first, known, verdicts)
    {
      assert verdicts[i..][1..] == verdicts[i + 1..];
      var v := verdicts[i];
      if v.eligible && (req.quota.None? || DiversityUsable(v, first, req.quota.value)) {
        var family := RouteFamily(req.projects, task.project, v.route);
        if family != "" && family !in known {
          var chosen := Ask(req, task, live, Some(v.route));
          if chosen.Picked? {
            return Some(chosen.pick);
          }
        }
      }
    }
    return None;
  }

  /** Resolves one task against the selections made so far. */
  method ResolveOne<N(!new)>(req: Request<N>, byName: map<N, Task<N>>, task: Task<N>, selections: map<N, RoleSelection>)
      returns (outcome: Outcome)
    ensures outcome == ResolveTask(req, byName, task, selections)
  {
    if task.role == "" {
      return NoRole;
    }
    if task.role !in req.roles {
      return Failed(UnknownRole);
    }
    var live := FilterWorkers(req, task, true);
    var answer := Ask(req, task, live, None);
    var waiting := answer.Refused?;
    if waiting {
      live := FilterWorkers(req, task, false);
      answer := Ask(req, task, live, None);
      if answer.Refused? {
        return Failed(NoCandidate);
      }
    }
    var pick, known, outside := answer.pick, {}, None;
    if Reviews(task) {
      known := ProducerFamilies(req, byName, task, selections);
      if known != {} {
        outside := CrossProvider(req, task, live, pick, known, answer.verdicts);
        if outside.Some? {
          pick := outside.value;
        }
      }
    }
    if EffortRefused(task.roleEffort, pick.effort) {
      return Failed(EffortRaised);
    }
    var effort := if task.roleEffort != "" then task.roleEffort else pick.effort;
    return Selected(RoleSelection(task.role, pick.route, effort, req.digest, waiting, known, outside.Some?, answer.verdicts));
  }
}
