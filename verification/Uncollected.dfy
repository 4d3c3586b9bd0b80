/** The runs of a thread that nobody has collected yet. */
module Uncollected {
  import opened Basics
  import Sorting

  datatype Progress = Running | NeedsInput | Succeeded | Failed | Cancelled | Skipped

  /** One row of the coordinator's workflow list; the same run may have several. */
  datatype Workflow = Workflow(run: Id, progress: Progress, completedAt: Option<int>, failedTasks: nat)

  datatype WaitKind = Ask | Attention | OtherWait

  /** A task wait; `asks` when an ask carries its question. */
  datatype TaskWait = TaskWait(run: Id, kind: WaitKind, asks: bool, settled: bool)

  datatype Collection = Collection(thread: Id, run: Id, progress: Progress, completedAt: Option<int>)

  datatype Entry = Entry(run: Id, terminal: bool, finishedAt: Option<int>)

  datatype View = View(runs: seq<Entry>, collected: nat, active: nat, unknown: nat)

  predicate Terminal(p: Progress) {
    p in {Succeeded, Failed, Cancelled, Skipped}
  }

  predicate Open(w: TaskWait, run: Id) {
    w.run == run && !w.settled && ((w.kind == Ask && w.asks) || w.kind == Attention)
  }

  /** A running run needs someone: an open question, a state that asks for input, or failed branches. */
  predicate NeedsAttention(w: Workflow, waits: seq<TaskWait>) {
    (exists t <- waits :: Open(t, w.run)) || w.progress == NeedsInput || w.failedTasks > 0
  }

  /** The thread's collection of a run; of several the last recorded counts. */
  function CollectionOf(collections: seq<Collection>, thread: Id, run: Id): Option<Collection> {
    if collections == [] then None
    else
      var last := collections[|collections| - 1];
      if last.thread == thread && last.run == run then Some(last)
      else CollectionOf(collections[..|collections| - 1], thread, run)
  }

  /** The run is collected as it stands: it has not finished anew since. */
  predicate Covered(collections: seq<Collection>, thread: Id, w: Workflow) {
    var c := CollectionOf(collections, thread, w.run);
    c.Some? && c.value.progress == w.progress && c.value.completedAt == w.completedAt
  }

  datatype Place = Shown | AsCollected | AsActive

  /** Where a run of the thread belongs, by its row. */
  function PlaceOf(w: Workflow, waits: seq<TaskWait>, collections: seq<Collection>, thread: Id,
                   supported: bool): Place {
    if Terminal(w.progress) && supported && Covered(collections, thread, w) then AsCollected
    else if !Terminal(w.progress) && !NeedsAttention(w, waits) then AsActive
    else Shown
  }

  function EntryOf(w: Workflow): Entry {
    Entry(w.run, Terminal(w.progress), w.completedAt)
  }

  /** Running first, then newest finished, those with no finishing time last, then by run. */
  predicate Before(a: Entry, b: Entry) {
    if a.terminal != b.terminal then !a.terminal
    else if a.terminal && a.finishedAt != b.finishedAt then
      a.finishedAt.Some? && (b.finishedAt.None? || a.finishedAt.value > b.finishedAt.value)
    else a.run.key < b.run.key
  }

  lemma BeforeIsOrder()
    ensures Sorting.StrictWeak(Before)
    ensures forall a: Entry, b: Entry :: a.run != b.run ==> Before(a, b) || Before(b, a)
  {
  }

  /** What the order is: running runs first, then the newest finished, an unknown time last, and equals by run. */
  lemma BeforeExact(a: Entry, b: Entry)
    ensures !a.terminal && b.terminal ==> Before(a, b) && !Before(b, a)
    ensures a.terminal && b.terminal && a.finishedAt.Some? && b.finishedAt.None? ==> Before(a, b) && !Before(b, a)
    ensures a.terminal && b.terminal && a.finishedAt.Some? && b.finishedAt.Some? ==>
      a.finishedAt.value > b.finishedAt.value ==> Before(a, b) && !Before(b, a)
    ensures a.terminal == b.terminal && (a.terminal ==> a.finishedAt == b.finishedAt) ==>
      (Before(a, b) <==> a.run.key < b.run.key)
  {
  }

  // ----------------------------------------------------------------- where a run belongs

  ghost predicate Finished(w: Workflow) {
    w.progress != Running && w.progress != NeedsInput
  }

  /** Someone is asked about the run: an unsettled wait for attention, or for the answer to a question. */
  ghost predicate OpenQuestion(waits: seq<TaskWait>, run: Id) {
    exists t <- waits :: t.run == run && !t.settled && (t.kind == Attention || (t.kind == Ask && t.asks))
  }

  /** The thread's last collection of the run stands at `i`. */
  ghost predicate LastCollection(collections: seq<Collection>, thread: Id, run: Id, i: nat) {
    && i < |collections| && collections[i].thread == thread && collections[i].run == run
    && forall j | i < j < |collections| :: !(collections[j].thread == thread && collections[j].run == run)
  }

  /** The last collection was of the run as it stands. */
  ghost predicate CollectedAsIs(s: Sources, w: Workflow) {
    exists i: nat :: LastCollection(s.collections, s.thread, w.run, i)
      && s.collections[i].progress == w.progress && s.collections[i].completedAt == w.completedAt
  }

  lemma {:induction false} CollectionIs(collections: seq<Collection>, thread: Id, run: Id)
    ensures CollectionOf(collections, thread, run).Some? <==> exists i: nat :: LastCollection(collections, thread, run, i)
    ensures forall i: nat :: LastCollection(collections, thread, run, i) ==>
      CollectionOf(collections, thread, run) == Some(collections[i])
  {
    if collections != [] {
      var init, n := collections[..|collections| - 1], |collections| - 1;
      CollectionIs(init, thread, run);
      if collections[n].thread == thread && collections[n].run == run {
        assert LastCollection(collections, thread, run, n);
        assert forall i: nat :: LastCollection(collections, thread, run, i) ==> i == n;
      } else {
        assert forall i: nat :: LastCollection(collections, thread, run, i) <==> LastCollection(init, thread, run, i);
      }
    }
  }

  /**
   Where a run belongs: a finished one is collected exactly when collections are
   supported and the thread's last one was of the run as it stands; a running one
   is left out exactly when nobody is asked, no input is needed and no task
   failed; everything else is shown.
   */
  lemma PlaceExact(w: Workflow, s: Sources)
    ensures At(w, s) == AsCollected <==> Finished(w) && s.supported && CollectedAsIs(s, w)
    ensures At(w, s) == AsActive <==>
      !Finished(w) && !OpenQuestion(s.waits, w.run) && w.progress != NeedsInput && w.failedTasks == 0
    ensures EntryOf(w) == Entry(w.run, Finished(w), w.completedAt)
  {
    CollectionIs(s.collections, s.thread, w.run);
    assert OpenQuestion(s.waits, w.run) <==> exists t <- s.waits :: Open(t, w.run);
    hide CollectionOf, LastCollection, OpenQuestion;
  }

  // ------------------------------------------------------------------- the whole view

  function Listed(workflows: seq<Workflow>): set<Id> {
    set w | w in workflows :: w.run
  }

  /** The rows that speak for the thread's runs: of each owned run the first listed. */
  function Speaking(workflows: seq<Workflow>, owned: set<Id>): seq<Workflow> {
    if workflows == [] then []
    else
      var init, w := workflows[..|workflows| - 1], workflows[|workflows| - 1];
      if w.run in owned && w.run !in Listed(init) then Speaking(init, owned) + [w] else Speaking(init, owned)
  }

  /** What decides the place of a row. */
  datatype Sources = Sources(waits: seq<TaskWait>, collections: seq<Collection>, thread: Id, supported: bool)

  function At(w: Workflow, s: Sources): Place {
    PlaceOf(w, s.waits, s.collections, s.thread, s.supported)
  }

  function ShownOf(rows: seq<Workflow>, s: Sources): seq<Entry> {
    if rows == [] then []
    else
      var shown, w := ShownOf(rows[..|rows| - 1], s), rows[|rows| - 1];
      if At(w, s) == Shown then shown + [EntryOf(w)] else shown
  }

  function CountOf(rows: seq<Workflow>, s: Sources, place: Place): nat {
    if rows == [] then 0
    else CountOf(rows[..|rows| - 1], s, place) + if At(rows[|rows| - 1], s) == place then 1 else 0
  }

  function ViewOf(workflows: seq<Workflow>, owned: set<Id>, s: Sources): View {
    var rows := Speaking(workflows, owned);
    View(Sorting.Sort(Before, ShownOf(rows, s)), CountOf(rows, s, AsCollected), CountOf(rows, s, AsActive),
         |owned - Listed(workflows)|)
  }

  /** Reads the rows once, skipping runs already listed, then counts the owned runs no row named. */
  method BuildView(workflows: seq<Workflow>, owned: set<Id>, s: Sources) returns (view: View)
    ensures view == ViewOf(workflows, owned, s)
  {
    hide At, Listed, Sorting.Sort, EntryOf, Speaking, ShownOf, CountOf;
    assert workflows[..0] == [];
    NothingYet(owned, s);
    var listed: set<Id>, runs: seq<Entry>, collected, active := {}, [], 0, 0;
    ghost var rows: seq<Workflow> := [];
    for i := 0 to |workflows|
      invariant rows == Speaking(workflows[..i], owned)
      invariant listed == owned * Listed(workflows[..i])
      invariant runs == ShownOf(rows, s)
      invariant collected == CountOf(rows, s, AsCollected)
      invariant active == CountOf(rows, s, AsActive)
    {
      var w := workflows[i];
      SpeakingGrows(workflows, i, owned);
      if w.run !in owned || w.run in listed {
        continue;
      }
      listed := listed + {w.run};
      CountsGrow(rows, w, s);
      rows := rows + [w];
      match At(w, s) {
        case AsCollected => collected := collected + 1;
        case AsActive => active := active + 1;
        case Shown => runs := runs + [EntryOf(w)];
      }
    }
    assert workflows[..|workflows|] == workflows;
    assert owned - listed == owned - Listed(workflows);
    view := View(Sorting.Sort(Before, runs), collected, active, |owned - listed|);
  }

  lemma SpeakingGrows(workflows: seq<Workflow>, i: nat, owned: set<Id>)
    requires i < |workflows|
    ensures
      var w, rows := workflows[i], Speaking(workflows[..i], owned);
      && Speaking(workflows[..i + 1], owned)
        == (if w.run in owned && w.run !in Listed(workflows[..i]) then rows + [w] else rows)
      && Listed(workflows[..i + 1]) == Listed(workflows[..i]) + {w.run}
  {
    hide Listed;
    assert workflows[..i + 1][..i] == workflows[..i];
    assert workflows[..i + 1] == workflows[..i] + [workflows[i]];
    ListedGrows(workflows[..i], workflows[i]);
  }

  lemma CountsGrow(rows: seq<Workflow>, w: Workflow, s: Sources)
    ensures ShownOf(rows + [w], s) == if At(w, s) == Shown then ShownOf(rows, s) + [EntryOf(w)] else ShownOf(rows, s)
    ensures forall place ::
      CountOf(rows + [w], s, place) == CountOf(rows, s, place) + if At(w, s) == place then 1 else 0
  {
    hide At;
    assert (rows + [w])[..|rows|] == rows;
  }

  lemma NothingYet(owned: set<Id>, s: Sources)
    ensures Listed([]) == {} && Speaking([], owned) == [] && ShownOf([], s) == []
    ensures CountOf([], s, AsCollected) == CountOf([], s, AsActive) == 0
  {
  }

  lemma ListedGrows(workflows: seq<Workflow>, w: Workflow)
    ensures Listed(workflows + [w]) == Listed(workflows) + {w.run}
  {
    assert forall v <- workflows :: v in workflows + [w];
    assert w in workflows + [w];
  }

  // -------------------------------------------------------------------- conservation

  lemma {:induction false} PlacesAddUp(rows: seq<Workflow>, s: Sources)
    ensures |ShownOf(rows, s)| + CountOf(rows, s, AsCollected) + CountOf(rows, s, AsActive) == |rows|
  {
    if rows != [] {
      PlacesAddUp(rows[..|rows| - 1], s);
    }
  }

  ghost predicate DistinctRuns(rows: seq<Workflow>) {
    forall i, j | 0 <= i < j < |rows| :: rows[i].run != rows[j].run
  }

  lemma {:induction false} SpeakingListed(workflows: seq<Workflow>, owned: set<Id>)
    ensures Listed(Speaking(workflows, owned)) == owned * Listed(workflows)
  {
    if workflows != [] {
      hide Listed;
      var init, w := workflows[..|workflows| - 1], workflows[|workflows| - 1];
      SpeakingListed(init, owned);
      assert workflows == init + [w];
      ListedGrows(init, w);
      ListedGrows(Speaking(init, owned), w);
    }
  }

  lemma {:induction false} SpeakingDistinct(workflows: seq<Workflow>, owned: set<Id>)
    ensures DistinctRuns(Speaking(workflows, owned))
  {
    if workflows != [] {
      hide Listed;
      var init := workflows[..|workflows| - 1];
      SpeakingDistinct(init, owned);
      SpeakingListed(init, owned);
      ListedAll(Speaking(init, owned));
    }
  }

  lemma {:induction false} DistinctCounts(rows: seq<Workflow>)
    requires DistinctRuns(rows)
    ensures |Listed(rows)| == |rows|
  {
    if rows != [] {
      var init, w := rows[..|rows| - 1], rows[|rows| - 1];
      DistinctCounts(init);
      assert rows == init + [w];
      ListedGrows(init, w);
      assert w.run !in Listed(init);
    }
  }

  /** Every owned run that is listed has exactly one speaking row, however many rows name it. */
  lemma SpeakingOnce(workflows: seq<Workflow>, owned: set<Id>)
    ensures |Speaking(workflows, owned)| == |owned * Listed(workflows)|
    ensures DistinctRuns(Speaking(workflows, owned))
  {
    SpeakingListed(workflows, owned);
    SpeakingDistinct(workflows, owned);
    DistinctCounts(Speaking(workflows, owned));
  }

  lemma ListedAll(rows: seq<Workflow>)
    ensures forall i | 0 <= i < |rows| :: rows[i].run in Listed(rows)
  {
    forall i | 0 <= i < |rows| ensures rows[i].run in Listed(rows) {
      assert rows[i] in rows;
    }
  }

  /**
   Conservation: however many rows name a run, the runs shown, collected, active
   and unknown add up to exactly the runs the thread owns.
   */
  lemma EveryOwnedRunCounted(workflows: seq<Workflow>, owned: set<Id>, s: Sources)
    ensures
      var view := ViewOf(workflows, owned, s);
      |view.runs| + view.collected + view.active + view.unknown == |owned|
  {
    var rows := Speaking(workflows, owned);
    PlacesAddUp(rows, s);
    SpeakingOnce(workflows, owned);
    BeforeIsOrder();
    Sorting.SortKeeps(Before, ShownOf(rows, s));
    assert owned == owned * Listed(workflows) + (owned - Listed(workflows));
  }

  lemma {:induction false} ShownAre(rows: seq<Workflow>, s: Sources)
    requires DistinctRuns(rows)
    ensures forall e :: e in ShownOf(rows, s) <==> exists w <- rows :: At(w, s) == Shown && e == EntryOf(w)
    ensures forall i, j | 0 <= i < j < |ShownOf(rows, s)| :: ShownOf(rows, s)[i].run != ShownOf(rows, s)[j].run
  {
    if rows != [] {
      hide At;
      var init, w := rows[..|rows| - 1], rows[|rows| - 1];
      assert rows == init + [w];
      ShownAre(init, s);
      forall i | 0 <= i < |ShownOf(init, s)| ensures ShownOf(init, s)[i].run != w.run {
        assert ShownOf(init, s)[i] in ShownOf(init, s);
      }
    }
  }

  /** The row speaks for an owned run: none before it names that run. */
  ghost predicate SpeaksAt(workflows: seq<Workflow>, owned: set<Id>, i: nat) {
    i < |workflows| && workflows[i].run in owned && forall j | 0 <= j < i :: workflows[j].run != workflows[i].run
  }

  lemma {:induction false} SpeakingAre(workflows: seq<Workflow>, owned: set<Id>)
    ensures forall w :: w in Speaking(workflows, owned) <==>
      exists i: nat :: SpeaksAt(workflows, owned, i) && workflows[i] == w
  {
    if workflows != [] {
      var init, n := workflows[..|workflows| - 1], |workflows| - 1;
      SpeakingAre(init, owned);
      assert forall i: nat | i < n :: SpeaksAt(workflows, owned, i) <==> SpeaksAt(init, owned, i);
      assert SpeaksAt(workflows, owned, n) <==> workflows[n].run in owned && workflows[n].run !in Listed(init) by {
        ListedAll(init);
      }
      assert forall i: nat | i < n :: workflows[i] == init[i];
    }
  }

  /** The row speaks for an owned run that is neither collected as it stands nor running with nothing to attend to. */
  ghost predicate ToShow(workflows: seq<Workflow>, owned: set<Id>, s: Sources, i: nat) {
    && SpeaksAt(workflows, owned, i)
    && var w := workflows[i];
       if Finished(w) then !s.supported || !CollectedAsIs(s, w)
       else OpenQuestion(s.waits, w.run) || w.progress == NeedsInput || w.failedTasks > 0
  }

  ghost predicate Shows(workflows: seq<Workflow>, owned: set<Id>, s: Sources, i: nat, e: Entry) {
    && ToShow(workflows, owned, s, i)
    && e == Entry(workflows[i].run, Finished(workflows[i]), workflows[i].completedAt)
  }

  lemma ShowExact(workflows: seq<Workflow>, owned: set<Id>, s: Sources, e: Entry)
    ensures (exists w <- Speaking(workflows, owned) :: At(w, s) == Shown && e == EntryOf(w))
      <==> exists i: nat :: Shows(workflows, owned, s, i, e)
  {
    SpeakingAre(workflows, owned);
    hide At, EntryOf, Speaking, CollectedAsIs, OpenQuestion, Finished;
    if w :| w in Speaking(workflows, owned) && At(w, s) == Shown && e == EntryOf(w) {
      var i: nat :| SpeaksAt(workflows, owned, i) && workflows[i] == w;
      PlaceExact(w, s);
      assert Shows(workflows, owned, s, i, e);
    }
    if i: nat :| Shows(workflows, owned, s, i, e) {
      PlaceExact(workflows[i], s);
    }
  }

  /**
   The runs shown are exactly the owned ones that are finished and not collected
   as they stand, or running and in need of someone, each by the first row that
   names it, in the one order of its kind.
   */
  lemma ShownExactly(workflows: seq<Workflow>, owned: set<Id>, s: Sources, other: seq<Entry>)
    ensures
      var view := ViewOf(workflows, owned, s);
      && (forall e :: e in view.runs <==> exists i: nat :: Shows(workflows, owned, s, i, e))
      && Sorting.Ordered(Before, view.runs)
      && (multiset(other) == multiset(view.runs) && Sorting.Ordered(Before, other) ==> other == view.runs)
  {
    hide At, Before, Sorting.Sort, Shows, EntryOf;
    var rows := Speaking(workflows, owned);
    var shown := ShownOf(rows, s);
    forall e ensures e in shown <==> exists i: nat :: Shows(workflows, owned, s, i, e) {
      SpeakingOnce(workflows, owned);
      ShownAre(rows, s);
      ShowExact(workflows, owned, s, e);
    }
    SpeakingOnce(workflows, owned);
    ShownAre(rows, s);
    BeforeIsOrder();
    Sorting.SortKeeps(Before, shown);
    SameMembers(Sorting.Sort(Before, shown), shown);
    if multiset(other) == multiset(shown) && Sorting.Ordered(Before, other) {
      SameMembers(other, shown);
      Sorting.OrderedUnique(Before, other, Sorting.Sort(Before, shown));
    }
  }

  /** The runs of the rows that belong in a place. */
  ghost function RunsAt(rows: seq<Workflow>, s: Sources, place: Place): set<Id> {
    set w | w in rows && At(w, s) == place :: w.run
  }

  lemma RunsGrow(rows: seq<Workflow>, w: Workflow, s: Sources, place: Place)
    ensures RunsAt(rows + [w], s, place) == RunsAt(rows, s, place) + if At(w, s) == place then {w.run} else {}
    ensures DistinctRuns(rows + [w]) ==> w.run !in RunsAt(rows, s, place)
  {
    hide At;
    var all := rows + [w];
    assert forall v <- rows :: v in all;
    assert w in all;
    assert all[|rows|] == w && forall i | 0 <= i < |rows| :: all[i] == rows[i];
    assert DistinctRuns(all) ==> forall i | 0 <= i < |rows| :: all[i].run != all[|rows|].run;
    assert DistinctRuns(all) ==> forall i | 0 <= i < |rows| :: rows[i].run != w.run;
  }

  lemma {:induction false} CountIsRuns(rows: seq<Workflow>, s: Sources, place: Place)
    requires DistinctRuns(rows)
    ensures CountOf(rows, s, place) == |RunsAt(rows, s, place)|
  {
    if rows == [] {
      assert RunsAt(rows, s, place) == {};
    } else {
      hide At, RunsAt;
      var init, w := rows[..|rows| - 1], rows[|rows| - 1];
      assert rows == init + [w];
      CountIsRuns(init, s, place);
      RunsGrow(init, w, s, place);
    }
  }

  /** What the counts are of: the finished runs collected as they stand, and the running ones with nothing to attend to. */
  lemma CountedExactly(workflows: seq<Workflow>, owned: set<Id>, s: Sources, collected: set<Id>, active: set<Id>)
    requires forall run :: run in collected <==>
      exists i: nat :: SpeaksAt(workflows, owned, i) && workflows[i].run == run
        && Finished(workflows[i]) && s.supported && CollectedAsIs(s, workflows[i])
    requires forall run :: run in active <==>
      exists i: nat :: SpeaksAt(workflows, owned, i) && workflows[i].run == run
        && !Finished(workflows[i]) && !ToShow(workflows, owned, s, i)
    ensures
      var view := ViewOf(workflows, owned, s);
      view.collected == |collected| && view.active == |active|
  {
    var rows := Speaking(workflows, owned);
    SpeakingOnce(workflows, owned);
    SpeakingAre(workflows, owned);
    CountIsRuns(rows, s, AsCollected);
    CountIsRuns(rows, s, AsActive);
    hide At, Speaking, SpeaksAt, CollectedAsIs, OpenQuestion, Finished, CountOf, Sorting.Sort, ShownOf;
    forall w: Workflow
      ensures At(w, s) == AsCollected <==> Finished(w) && s.supported && CollectedAsIs(s, w)
      ensures At(w, s) == AsActive <==>
        !Finished(w) && !OpenQuestion(s.waits, w.run) && w.progress != NeedsInput && w.failedTasks == 0
    {
      PlaceExact(w, s);
    }
    assert RunsAt(rows, s, AsCollected) == collected;
    assert RunsAt(rows, s, AsActive) == active;
  }

  lemma SameMembers(a: seq<Entry>, b: seq<Entry>)
    requires multiset(a) == multiset(b)
    ensures forall e :: e in a <==> e in b
  {
    assert forall e :: e in a <==> e in multiset(a);
    assert forall e :: e in b <==> e in multiset(b);
  }
}
