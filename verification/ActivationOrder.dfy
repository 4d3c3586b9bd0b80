/** The order in which one boundary visits the runs: contenders for a dispatch first, oldest first. */
module ActivationOrder {
  import opened Assignments
  import opened Basics
  import opened ActivationLifecycle
  import Sorting

  /** What the age of a dispatch is read from. `persisted` and `legacy` belong to a dispatch already created. */
  datatype Dispatch = Dispatch(persisted: Option<Age>, legacy: Option<Age>)

  /** A run with the age it contends with, if it contends for a dispatch at all. */
  datatype Visit = Visit(run: nat, age: Option<Age>)

  // -------------------------------------------------------------------- dispatch age

  predicate Earlier(e: InboxEvent, f: InboxEvent) {
    e.sequence < f.sequence || (e.sequence == f.sequence && e.id.key < f.id.key)
  }

  /** The first event past the cursor, which a coalesced inbox lists first. */
  function First(events: seq<InboxEvent>, cursor: int): (first: Option<InboxEvent>)
    ensures first.None? <==> forall e <- events :: e.sequence <= cursor
    ensures first.Some? ==> first.value in events && first.value.sequence > cursor
    ensures first.Some? ==> forall e <- events :: e.sequence > cursor ==> !Earlier(e, first.value)
  {
    if events == [] then None
    else
      var rest := First(events[1..], cursor);
      if events[0].sequence > cursor && (rest.None? || !Earlier(rest.value, events[0])) then Some(events[0]) else rest
  }

  function DispatchPurpose(reading: Reading, signal: Signal): Purpose {
    if signal.event == DispatchUndelivered && signal.purpose == Review then reading.activation.purpose else signal.purpose
  }

  function EventAge(events: seq<InboxEvent>, cursor: int): Option<Age> {
    var first := First(events, cursor);
    if first.Some? then Some(Age(first.value.occurredAt, first.value.id)) else None
  }

  /** The age a boundary gives a dispatch; `None` when nothing durable dates it. */
  function DispatchAge(reading: Reading, signal: Signal, dispatch: Dispatch): Option<Age> {
    if signal.event == DispatchUndelivered && dispatch.persisted.Some? then dispatch.persisted
    else if signal.event == DispatchUndelivered && dispatch.legacy.Some? then dispatch.legacy
    else
      var purpose := DispatchPurpose(reading, signal);
      EventAge(Lane(reading, purpose), LaneCursor(reading, purpose))
  }

  /** Whether a run contends at a boundary, and how old it is. */
  function Contends(run: nat, reading: Reading, dispatch: Dispatch): Visit {
    var signal := BoundarySignal(reading);
    Visit(run, if signal.Some? && MayDispatch(signal.value) then DispatchAge(reading, signal.value, dispatch) else None)
  }

  // ----------------------------------------------------------------- visiting order

  predicate Before(v: Visit, w: Visit) {
    if v.age.Some? != w.age.Some? then v.age.Some?
    else if v.age.None? then v.run < w.run
    else
      var a, b := v.age.value, w.age.value;
      || a.at < b.at
      || (a.at == b.at && (a.tie.key < b.tie.key || (a.tie.key == b.tie.key && v.run < w.run)))
  }

  lemma BeforeIsOrder()
    ensures Sorting.StrictWeak(Before)
    ensures forall v: Visit, w: Visit :: v.run != w.run ==> Before(v, w) || Before(w, v)
  {
  }

  function VisitOrder(runs: seq<Visit>): seq<Visit> {
    Sorting.Sort(Before, runs)
  }

  ghost predicate Distinct(runs: seq<Visit>) {
    forall i, j | 0 <= i < j < |runs| :: runs[i].run != runs[j].run
  }

  /**
   Every run is visited exactly once, contenders before all others and older
   contenders before younger, and with distinct runs no other order is possible.
   */
  lemma VisitsContendersFirst(runs: seq<Visit>, other: seq<Visit>)
    ensures multiset(VisitOrder(runs)) == multiset(runs)
    ensures
      var order := VisitOrder(runs);
      forall i, j | 0 <= i < j < |order| ::
        && (order[j].age.Some? ==> order[i].age.Some?)
        && (order[j].age.Some? ==> order[i].age.value.at <= order[j].age.value.at)
        && (order[j].age.Some? && order[i].age.value.at == order[j].age.value.at ==>
              order[i].age.value.tie.key <= order[j].age.value.tie.key)
        && (order[i].age == order[j].age ==> order[i].run <= order[j].run)
    ensures Distinct(runs) && multiset(other) == multiset(runs) && Sorting.Ordered(Before, other) ==>
      other == VisitOrder(runs)
  {
    BeforeIsOrder();
    Sorting.SortKeeps(Before, runs);
    if Distinct(runs) && multiset(other) == multiset(runs) && Sorting.Ordered(Before, other) {
      forall x, y | x in other && y in other && x != y ensures Before(x, y) || Before(y, x) {
        assert x in multiset(other) && y in multiset(other);
        assert x in runs && y in runs;
      }
      Sorting.OrderedUnique(Before, other, VisitOrder(runs));
    }
  }

  // ------------------------------------------------------------- an age never changes

  /** A later boundary's reading of the same undelivered dispatch: whatever arrived, cursor and lane included. */
  predicate StillUndelivered(reading: Reading) {
    reading.activation.state == PendingDispatch && reading.assignment in {None, Some(Released)}
  }

  /** An undelivered dispatch keeps its persisted age at every boundary, whatever events arrived in between. */
  lemma UndeliveredKeepsAge(run: nat, reading: Reading, dispatch: Dispatch)
    requires StillUndelivered(reading) && dispatch.persisted.Some?
    ensures Contends(run, reading, dispatch) == Visit(run, dispatch.persisted)
  {
  }

  /** `e` waits in the lane, and nothing that waits there has a smaller sequence, or the same one and a smaller identity. */
  ghost predicate WaitsFirst(reading: Reading, purpose: Purpose, e: InboxEvent) {
    && e in Lane(reading, purpose) && e.sequence > LaneCursor(reading, purpose)
    && forall f <- Lane(reading, purpose) | f.sequence > LaneCursor(reading, purpose) ::
         e.sequence < f.sequence || (e.sequence == f.sequence && e.id.key <= f.id.key)
  }

  /** The lane's age is that of the event waiting first, and it has one exactly when some event waits. */
  lemma LaneIsDated(reading: Reading, purpose: Purpose)
    ensures
      var age := EventAge(Lane(reading, purpose), LaneCursor(reading, purpose));
      && (age.None? <==> forall f <- Lane(reading, purpose) :: f.sequence <= LaneCursor(reading, purpose))
      && (age.Some? ==> exists e :: WaitsFirst(reading, purpose, e) && age.value == Age(e.occurredAt, e.id))
  {
    var first := First(Lane(reading, purpose), LaneCursor(reading, purpose));
    if first.Some? {
      assert WaitsFirst(reading, purpose, first.value);
    }
  }

  /** A fresh trigger's age is that of the first event waiting in its lane, whatever a former dispatch recorded. */
  lemma TriggerIsDated(run: nat, reading: Reading, dispatch: Dispatch)
    requires reading.activation.state == Idle && InboxWaiting(reading) && !reading.otherValid
    ensures
      var age := Contends(run, reading, dispatch).age;
      exists e :: WaitsFirst(reading, LanePurpose(reading), e) && age == Some(Age(e.occurredAt, e.id))
  {
    hide WaitsFirst, EventAge, Lane, LaneCursor, LanePurpose, LifecycleSignal;
    assert LifecycleSignal(reading) == None by { NoneWhileIdle(reading); }
    LaneIsDated(reading, LanePurpose(reading));
  }

  lemma NoneWhileIdle(reading: Reading)
    requires reading.activation.state == Idle
    ensures LifecycleSignal(reading) == None
  {
    hide CountAt, CompletedOutcome;
  }

  /** A dispatch from before ages were kept is dated by its deadline, or by what waits in its own purpose's lane. */
  lemma LegacyIsDated(run: nat, reading: Reading, dispatch: Dispatch)
    requires StillUndelivered(reading) && dispatch.persisted.None?
    ensures
      var age := Contends(run, reading, dispatch).age;
      && (dispatch.legacy.Some? ==> age == dispatch.legacy)
      && (dispatch.legacy.None? && age.Some? ==>
            exists e :: WaitsFirst(reading, reading.activation.purpose, e) && age.value == Age(e.occurredAt, e.id))
  {
    hide WaitsFirst, EventAge, Lane, LaneCursor, LifecycleSignal, InboxWaiting, LanePurpose;
    assert BoundarySignal(reading) == Some(Plain(DispatchUndelivered)) by { UndeliveredSignal(reading); }
    LaneIsDated(reading, reading.activation.purpose);
  }

  lemma UndeliveredSignal(reading: Reading)
    requires StillUndelivered(reading)
    ensures BoundarySignal(reading) == Some(Plain(DispatchUndelivered))
  {
    hide CountAt, CompletedOutcome, InboxWaiting, LanePurpose;
  }

  ghost predicate Precedes(order: seq<Visit>, run: nat, run': nat) {
    exists i, j :: 0 <= i < j < |order| && order[i].run == run && order[j].run == run'
  }

  lemma PrecedesInOrder(order: seq<Visit>, v: Visit, w: Visit)
    requires Sorting.Ordered(Before, order) && v in order && w in order && v.run != w.run
    requires forall x <- order :: (x.run == v.run ==> x == v) && (x.run == w.run ==> x == w)
    ensures Precedes(order, v.run, w.run) <==> Before(v, w)
  {
    var i :| 0 <= i < |order| && order[i] == v;
    var j :| 0 <= j < |order| && order[j] == w;
    if Precedes(order, v.run, w.run) {
      var m, n :| 0 <= m < n < |order| && order[m].run == v.run && order[n].run == w.run;
      assert order[m] == v && order[n] == w;
    }
  }

  lemma PrecedesIff(runs: seq<Visit>, v: Visit, w: Visit)
    requires Distinct(runs) && v in runs && w in runs && v.run != w.run
    ensures Precedes(VisitOrder(runs), v.run, w.run) <==> Before(v, w)
  {
    hide Precedes, Sorting.Sort, Before;
    BeforeIsOrder();
    Sorting.SortKeeps(Before, runs);
    assert forall x :: x in VisitOrder(runs) <==> x in runs by {
      assert forall x :: x in multiset(runs) <==> x in runs;
      assert forall x :: x in multiset(VisitOrder(runs)) <==> x in VisitOrder(runs);
    }
    PrecedesInOrder(VisitOrder(runs), v, w);
  }

  /**
   Two undelivered dispatches that wait through any number of boundaries are
   visited in the same order at each of them, whatever else waits beside them.
   */
  lemma WaitingNeverSwap(first: seq<Visit>, later: seq<Visit>, run: nat, run': nat,
                         dispatch: Dispatch, dispatch': Dispatch, readings: seq<Reading>)
    requires Distinct(first) && Distinct(later) && run != run'
    requires dispatch.persisted.Some? && dispatch'.persisted.Some?
    requires |readings| == 4 && forall r <- readings :: StillUndelivered(r)
    requires Contends(run, readings[0], dispatch) in first && Contends(run', readings[1], dispatch') in first
    requires Contends(run, readings[2], dispatch) in later && Contends(run', readings[3], dispatch') in later
    ensures Precedes(VisitOrder(first), run, run') <==> Precedes(VisitOrder(later), run, run')
  {
    hide Contends, VisitOrder, Precedes, Distinct;
    forall k | 0 <= k < 4
      ensures Contends(run, readings[k], dispatch) == Visit(run, dispatch.persisted)
      ensures Contends(run', readings[k], dispatch') == Visit(run', dispatch'.persisted)
    {
      UndeliveredKeepsAge(run, readings[k], dispatch);
      UndeliveredKeepsAge(run', readings[k], dispatch');
    }
    var v, w := Visit(run, dispatch.persisted), Visit(run', dispatch'.persisted);
    PrecedesIff(first, v, w);
    PrecedesIff(later, v, w);
  }
}
