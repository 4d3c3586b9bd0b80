/**
 Exactly which uploads the exchanges of a worker ever take, hand-ons included: a
 hand-on steps over what it does not want, but its own failures keep the ordinary
 pass from running at all.
 */
module CustodyReach {
  import opened Basics
  import opened WorkerCustody
  import opened CustodyProgress

  // ----------------------------------------------------------- what a pass meets

  /** Uploads a pass takes off the queue when it reaches them: a hand-on only continuations. */
  predicate Takeable(u: Upload, handOn: bool) {
    KindOf(u) == Good && (handOn ==> u.manifest.continuation)
  }

  /** Uploads that break the session of a pass that reaches them: a hand-on fetches only continuations. */
  predicate Fatal(u: Upload, handOn: bool) {
    KindOf(u) == Bad && (handOn ==> u.manifest.continuation)
  }

  ghost function FatalIds(s: seq<Upload>, handOn: bool): set<Id> {
    set u | u in s && Fatal(u, handOn) :: u.manifest.id
  }

  /** The rounds a pass spends on uploads it leaves in place. */
  function Steps(s: seq<Upload>, skips: seq<Id>, handOn: bool): nat {
    if s == [] then 0
    else (if Fatal(s[0], handOn) || s[0].manifest.id in skips then 0 else 1) + Steps(s[1..], skips, handOn)
  }

  /** How a pass gets on along uploads none of which it takes. */
  datatype Crossing = Hit(id: Id) | Spent | Past(left: nat)

  function Cross(s: seq<Upload>, skips: seq<Id>, budget: nat, handOn: bool): Crossing {
    if budget == 0 then Spent
    else if s == [] then Past(budget)
    else if s[0].manifest.id in skips then Cross(s[1..], skips, budget, handOn)
    else if Fatal(s[0], handOn) then Hit(s[0].manifest.id)
    else Cross(s[1..], skips, budget - 1, handOn)
  }

  lemma {:induction false} CrossIs(s: seq<Upload>, skips: seq<Id>, budget: nat, handOn: bool)
    ensures
      match Cross(s, skips, budget, handOn)
      case Hit(id) => id in FatalIds(s, handOn) && id !in skips
      case Spent => Steps(s, skips, handOn) >= budget
      case Past(left) =>
        && 0 < left == budget - Steps(s, skips, handOn)
        && forall id <- FatalIds(s, handOn) :: id in skips
  {
    if budget != 0 && s != [] {
      assert FatalIds(s, handOn) == FatalIds(s[1..], handOn) + (if Fatal(s[0], handOn) then {s[0].manifest.id} else {}) by {
        FatalHead(s, handOn);
      }
      hide FatalIds, Fatal;
      CrossIs(s[1..], skips, budget, handOn);
      CrossIs(s[1..], skips, budget - 1, handOn);
    }
  }

  lemma FatalHead(s: seq<Upload>, handOn: bool)
    requires s != []
    ensures FatalIds(s, handOn) == FatalIds(s[1..], handOn) + if Fatal(s[0], handOn) then {s[0].manifest.id} else {}
  {
    assert forall u :: u in s <==> u == s[0] || u in s[1..];
  }

  lemma {:induction false} CrossConcat(a: seq<Upload>, s: seq<Upload>, skips: seq<Id>, budget: nat, handOn: bool)
    ensures
      var first := Cross(a, skips, budget, handOn);
      Cross(a + s, skips, budget, handOn) == if first.Past? then Cross(s, skips, first.left, handOn) else first
  {
    if a == [] {
      assert a + s == s;
    } else if budget != 0 {
      assert (a + s)[1..] == a[1..] + s;
      CrossConcat(a[1..], s, skips, budget, handOn);
      CrossConcat(a[1..], s, skips, budget - 1, handOn);
    }
  }

  lemma MeetLeaves(u: Upload, skips: seq<Id>, handOn: bool)
    requires !Takeable(u, handOn)
    ensures Meet(u, skips, handOn) ==
      if u.manifest.id in skips then Leave(0) else if Fatal(u, handOn) then Crash else Leave(1)
  {
  }

  ghost predicate Crosses(s: seq<Upload>, rest: seq<Upload>, skips: seq<Id>, handOn: bool, crossing: Crossing,
                          end: WalkEnd) {
    match crossing
    case Hit(id) => end == WalkEnd(s + rest, Broke(id))
    case Spent => end == WalkEnd(s + rest, Clean)
    case Past(left) =>
      var behind := Walk(rest, skips, left, handOn);
      end == WalkEnd(s + behind.remaining, behind.stop)
  }

  lemma CrossesOn(u: Upload, s: seq<Upload>, rest: seq<Upload>, skips: seq<Id>, handOn: bool, crossing: Crossing,
                  end: WalkEnd)
    requires Crosses(s, rest, skips, handOn, crossing, end)
    ensures Crosses([u] + s, rest, skips, handOn, crossing, Keeping(u, end))
  {
    hide Walk;
    if crossing.Past? {
      var behind := Walk(rest, skips, crossing.left, handOn).remaining;
      assert [u] + (s + behind) == [u] + s + behind;
    } else {
      assert [u] + (s + rest) == [u] + s + rest;
    }
  }

  /** A walk along uploads it takes none of is a crossing, and goes on behind them with what is left. */
  lemma {:induction false} WalkCrosses(s: seq<Upload>, rest: seq<Upload>, skips: seq<Id>, budget: nat, handOn: bool)
    requires forall u <- s :: !Takeable(u, handOn)
    ensures Crosses(s, rest, skips, handOn, Cross(s, skips, budget, handOn), Walk(s + rest, skips, budget, handOn))
  {
    hide Meet, Takeable, Fatal;
    if s == [] {
      assert s + rest == rest;
      var behind := Walk(rest, skips, budget, handOn);
      assert s + behind.remaining == behind.remaining;
    } else if budget != 0 {
      hide Crosses;
      var u, tail := s[0], s[1..];
      assert s + rest == [u] + (tail + rest) && s == [u] + tail && (s + rest)[1..] == tail + rest;
      assert u in s && forall v <- tail :: v in s;
      MeetLeaves(u, skips, handOn);
      if u.manifest.id in skips {
        WalkCrosses(tail, rest, skips, budget, handOn);
        CrossesOn(u, tail, rest, skips, handOn, Cross(tail, skips, budget, handOn),
                  Walk(tail + rest, skips, budget, handOn));
      } else if Fatal(u, handOn) {
        CrossesHit(s, rest, skips, handOn, u.manifest.id);
      } else {
        WalkCrosses(tail, rest, skips, budget - 1, handOn);
        CrossesOn(u, tail, rest, skips, handOn, Cross(tail, skips, budget - 1, handOn),
                  Walk(tail + rest, skips, budget - 1, handOn));
      }
    }
  }

  lemma CrossesHit(s: seq<Upload>, rest: seq<Upload>, skips: seq<Id>, handOn: bool, id: Id)
    ensures Crosses(s, rest, skips, handOn, Hit(id), WalkEnd(s + rest, Broke(id)))
  {
  }

  // --------------------------------------------------------- the parts of a queue

  /** The uploads ahead of the first a pass can take. */
  function Prefix(q: seq<Upload>, handOn: bool): (s: seq<Upload>)
    ensures |s| <= |q| && s == q[..|s|]
    ensures forall u <- s :: !Takeable(u, handOn)
    ensures |s| < |q| ==> Takeable(q[|s|], handOn)
  {
    if q == [] || Takeable(q[0], handOn) then [] else [q[0]] + Prefix(q[1..], handOn)
  }

  /** Ahead of the first good upload; only what lies here can the ordinary pass meet. */
  function Head(q: seq<Upload>): seq<Upload> {
    Prefix(q, false)
  }

  /** Ahead of the first good continuation; only what lies here can a hand-on meet. */
  function Front(q: seq<Upload>): seq<Upload> {
    Prefix(q, true)
  }

  lemma {:induction false} PrefixIs(s: seq<Upload>, rest: seq<Upload>, handOn: bool)
    requires forall u <- s :: !Takeable(u, handOn)
    requires rest == [] || Takeable(rest[0], handOn)
    ensures Prefix(s + rest, handOn) == s
  {
    if s == [] {
      assert s + rest == rest;
    } else {
      assert (s + rest)[1..] == s[1..] + rest && (s + rest)[0] == s[0];
      assert s[0] in s;
      PrefixIs(s[1..], rest, handOn);
    }
  }

  lemma HeadInFront(q: seq<Upload>)
    ensures |Head(q)| <= |Front(q)| && Head(q) == Front(q)[..|Head(q)|]
  {
    assert forall i | 0 <= i < |Head(q)| :: Head(q)[i] in Head(q) && Head(q)[i] == q[i];
  }

  /** From the first good upload up to the first good continuation. */
  function Middle(q: seq<Upload>): seq<Upload> {
    HeadInFront(q);
    Front(q)[|Head(q)|..]
  }

  /** The breaking continuations a hand-on meets before it has stepped over `left` other uploads. */
  ghost function Reached(s: seq<Upload>, left: nat): set<Id> {
    if s == [] || left == 0 then {}
    else if Fatal(s[0], true) then {s[0].manifest.id} + Reached(s[1..], left)
    else Reached(s[1..], left - 1)
  }

  function Over(steps: nat): nat {
    if steps < SCAN_ROUNDS then 0 else steps - (SCAN_ROUNDS - 1)
  }

  /**
   A hand-on can come to take the first good continuation: the skip list has room
   for every breaking continuation ahead of it and for as many other breaking
   uploads as it takes to bring the rest within one scan, and only those ahead of
   the first good upload are ever learnt.
   */
  ghost predicate HandOnOpens(q: seq<Upload>) {
    && |Front(q)| < |q|
    && Tally(Head(q), Soft) + Steps(Middle(q), [], true) < SCAN_ROUNDS
    && |FatalIds(Front(q), true)| + Over(Steps(Front(q), [], true)) <= SCAN_ROUNDS
  }

  /**
   The ordinary pass can come to take the first good upload: the skip list has
   room for every breaking upload ahead of it and for every breaking continuation
   behind it that a hand-on then still meets.
   */
  ghost predicate OrdinaryOpens(q: seq<Upload>) {
    && Middle(q) != [] && Tally(Head(q), Soft) < SCAN_ROUNDS
    && |FatalIds(Head(q), false) + Reached(Middle(q), SCAN_ROUNDS - Tally(Head(q), Soft))| <= SCAN_ROUNDS
  }

  ghost predicate Opens(q: seq<Upload>) {
    HandOnOpens(q) || OrdinaryOpens(q)
  }

  // ------------------------------------------------------------- passes and exchanges

  /** What the skip list may name: breaking continuations, and other breaking uploads ahead of the first good one. */
  ghost function Learnable(q: seq<Upload>): set<Id> {
    FatalIds(q, true) + FatalIds(Head(q), false)
  }

  ghost predicate Orderly(c: Custody) {
    && DistinctIds(c.queue) && DistinctSeq(c.skips) && |c.skips| <= SCAN_ROUNDS
    && forall id <- c.skips :: id in Learnable(c.queue)
  }

  lemma TakesFirst(rest: seq<Upload>, skips: seq<Id>, budget: nat, handOn: bool)
    requires rest != [] && Takeable(rest[0], handOn) && rest[0].manifest.id !in skips && budget > 0
    ensures Tally(Walk(rest, skips, budget, handOn).remaining, Good) < Tally(rest, Good)
  {
    WalkKeeps(rest[1..], skips, budget - 1, handOn);
  }

  lemma {:induction false} TallyConcat(a: seq<Upload>, b: seq<Upload>, k: Kind)
    ensures Tally(a + b, k) == Tally(a, k) + Tally(b, k)
  {
    if a == [] {
      assert a + b == b;
    } else {
      assert (a + b)[1..] == a[1..] + b;
      TallyConcat(a[1..], b, k);
    }
  }

  lemma SameUpload(q: seq<Upload>, u: Upload, v: Upload)
    requires DistinctIds(q) && u in q && v in q && u.manifest.id == v.manifest.id
    ensures u == v
  {
    var i :| 0 <= i < |q| && q[i] == u;
    var j :| 0 <= j < |q| && q[j] == v;
  }

  /** Only breaking uploads are skipped. */
  lemma NotSkipped(c: Custody, u: Upload)
    requires Orderly(c) && u in c.queue && KindOf(u) != Bad
    ensures u.manifest.id !in c.skips
  {
    forall v <- c.queue | v.manifest.id == u.manifest.id ensures v == u {
      SameUpload(c.queue, u, v);
    }
    assert forall v <- Head(c.queue) :: v in c.queue;
  }

  /** One pass, by how it crosses the uploads ahead of the first it can take. */
  lemma PassCrosses(c: Custody, handOn: bool)
    requires Orderly(c)
    ensures
      var s := Prefix(c.queue, handOn);
      var (c', stop) := Pass(c, handOn);
      match Cross(s, c.skips, SCAN_ROUNDS, handOn)
      case Hit(id) => stop == Broke(id) && c' == Custody(c.queue, Skipping(c.skips, id))
      case Spent => stop == Clean && c' == Custody(c.queue, if handOn then c.skips else [])
      case Past(_) =>
        if s == c.queue then stop == Clean && c' == Custody(c.queue, if handOn then c.skips else [])
        else Tally(c'.queue, Good) < Tally(c.queue, Good)
  {
    hide Walk, Cross, Orderly, Takeable, Skipping;
    var s := Prefix(c.queue, handOn);
    var rest := c.queue[|s|..];
    assert c.queue == s + rest;
    WalkCrosses(s, rest, c.skips, SCAN_ROUNDS, handOn);
    var crossing := Cross(s, c.skips, SCAN_ROUNDS, handOn);
    if crossing.Past? {
      CrossIs(s, c.skips, SCAN_ROUNDS, handOn);
      if rest == [] {
        assert s == c.queue;
        WalkNothing(c.skips, crossing.left, handOn);
        assert s + [] == s;
      } else {
        PassTakes(c, s, rest, crossing.left, handOn);
      }
    }
  }

  lemma WalkNothing(skips: seq<Id>, budget: nat, handOn: bool)
    ensures Walk([], skips, budget, handOn) == WalkEnd([], Clean)
  {
  }

  lemma PassTakes(c: Custody, s: seq<Upload>, rest: seq<Upload>, left: nat, handOn: bool)
    requires Orderly(c) && c.queue == s + rest && rest != [] && Takeable(rest[0], handOn) && left > 0
    ensures Tally(s + Walk(rest, c.skips, left, handOn).remaining, Good) < Tally(c.queue, Good)
  {
    hide Orderly, Walk;
    assert rest[0] in c.queue;
    NotSkipped(c, rest[0]);
    TakesFirst(rest, c.skips, left, handOn);
    TallyConcat(s, rest, Good);
    TallyConcat(s, Walk(rest, c.skips, left, handOn).remaining, Good);
  }

  // ------------------------------------------------------------------ counting skips

  /** How many of `ids` lie outside `inner`. */
  ghost function Outside(ids: seq<Id>, inner: set<Id>): nat {
    if ids == [] then 0
    else Outside(ids[..|ids| - 1], inner) + if ids[|ids| - 1] in inner then 0 else 1
  }

  lemma {:induction false} OutsideSmaller(ids: seq<Id>, inner: set<Id>, x: Id)
    requires x !in ids
    ensures Outside(ids, inner - {x}) == Outside(ids, inner)
  {
    if ids != [] {
      assert ids[|ids| - 1] in ids && forall y <- ids[..|ids| - 1] :: y in ids;
      OutsideSmaller(ids[..|ids| - 1], inner, x);
    }
  }

  /** A list of distinct ids fits its inner set and the rest, and fills both when it covers the set. */
  lemma {:induction false} OutsideCounts(ids: seq<Id>, inner: set<Id>)
    requires DistinctSeq(ids)
    ensures |ids| <= |inner| + Outside(ids, inner)
    ensures (forall x <- inner :: x in ids) ==> |ids| == |inner| + Outside(ids, inner)
  {
    if ids == [] {
      if forall x <- inner :: x in ids {
        assert inner == {};
      }
    } else {
      var init, last := ids[..|ids| - 1], ids[|ids| - 1];
      assert ids == init + [last];
      assert last !in init;
      if last in inner {
        OutsideCounts(init, inner - {last});
        OutsideSmaller(init, inner, last);
        assert |inner| == |inner - {last}| + 1;
        if forall x <- inner :: x in ids {
          assert forall x <- inner - {last} :: x in init;
        }
      } else {
        OutsideCounts(init, inner);
        if forall x <- inner :: x in ids {
          assert forall x <- inner :: x in init;
        }
      }
    }
  }

  lemma {:induction false} Covered(inner: set<Id>, ids: seq<Id>)
    requires forall x <- inner :: x in ids
    ensures |inner| <= |ids|
  {
    if ids == [] {
      assert inner == {};
    } else {
      var last := ids[|ids| - 1];
      assert ids == ids[..|ids| - 1] + [last];
      Covered(inner - {last}, ids[..|ids| - 1]);
      assert inner <= inner - {last} + {last};
    }
  }

  /** The id names an upload of `s` that a pass would step over. */
  ghost predicate SteppedOver(s: seq<Upload>, id: Id, handOn: bool) {
    exists u <- s :: u.manifest.id == id && !Fatal(u, handOn)
  }

  /** Skipping one more upload saves a round exactly when it was one to step over. */
  lemma {:induction false} StepsDrop(s: seq<Upload>, skips: seq<Id>, x: Id, handOn: bool)
    requires DistinctIds(s) && x !in skips
    ensures Steps(s, skips + [x], handOn) == Steps(s, skips, handOn) - if SteppedOver(s, x, handOn) then 1 else 0
  {
    if s != [] {
      hide Fatal;
      assert s == [s[0]] + s[1..];
      DistinctTail(s[0], s[1..]);
      StepsDrop(s[1..], skips, x, handOn);
      assert SteppedOver(s, x, handOn) <==>
        SteppedOver(s[1..], x, handOn) || (s[0].manifest.id == x && !Fatal(s[0], handOn)) by { SteppedHead(s, x, handOn); }
      assert s[0].manifest.id == x ==> !SteppedOver(s[1..], x, handOn);
    }
  }

  lemma SteppedHead(s: seq<Upload>, x: Id, handOn: bool)
    requires s != []
    ensures SteppedOver(s, x, handOn) <==>
      SteppedOver(s[1..], x, handOn) || (s[0].manifest.id == x && !Fatal(s[0], handOn))
  {
    assert forall u :: u in s <==> u == s[0] || u in s[1..];
  }

  /** Skips save at most one round for each that is not fatal itself, and exactly one where each is stepped over. */
  lemma {:induction false} StepsSaved(s: seq<Upload>, skips: seq<Id>, handOn: bool)
    requires DistinctIds(s) && DistinctSeq(skips)
    ensures Steps(s, [], handOn) <= Steps(s, skips, handOn) + Outside(skips, FatalIds(s, handOn))
    ensures (forall x <- skips :: x in FatalIds(s, handOn) || SteppedOver(s, x, handOn)) ==>
      Steps(s, [], handOn) == Steps(s, skips, handOn) + Outside(skips, FatalIds(s, handOn))
  {
    if skips != [] {
      var init, last := skips[..|skips| - 1], skips[|skips| - 1];
      assert skips == init + [last] && last !in init;
      StepsSaved(s, init, handOn);
      StepsDrop(s, init, last, handOn);
      assert last in FatalIds(s, handOn) ==> !SteppedOver(s, last, handOn) by { NotBoth(s, last, handOn); }
    }
  }

  lemma NotBoth(s: seq<Upload>, x: Id, handOn: bool)
    requires DistinctIds(s)
    ensures !(x in FatalIds(s, handOn) && SteppedOver(s, x, handOn))
  {
    forall u, v | u in s && v in s && u.manifest.id == x && v.manifest.id == x ensures u == v {
      SameUpload(s, u, v);
    }
  }

  // ------------------------------------------------- what a pass that takes something needs

  lemma {:induction false} StepsConcat(a: seq<Upload>, b: seq<Upload>, skips: seq<Id>, handOn: bool)
    ensures Steps(a + b, skips, handOn) == Steps(a, skips, handOn) + Steps(b, skips, handOn)
  {
    if a == [] {
      assert a + b == b;
    } else {
      assert (a + b)[1..] == a[1..] + b;
      StepsConcat(a[1..], b, skips, handOn);
    }
  }

  lemma {:induction false} StepsUnskipped(s: seq<Upload>, skips: seq<Id>, handOn: bool)
    requires forall u <- s :: !Fatal(u, handOn) ==> u.manifest.id !in skips
    ensures Steps(s, skips, handOn) == Steps(s, [], handOn)
  {
    if s != [] {
      assert s[0] in s && forall u <- s[1..] :: u in s;
      StepsUnskipped(s[1..], skips, handOn);
    }
  }

  lemma {:induction false} SoftSteps(s: seq<Upload>, skips: seq<Id>, handOn: bool)
    requires forall u <- s :: KindOf(u) == Soft ==> u.manifest.id !in skips
    ensures Tally(s, Soft) <= Steps(s, skips, handOn)
    ensures (forall u <- s :: KindOf(u) == Soft || Fatal(u, handOn)) ==> Tally(s, Soft) == Steps(s, skips, handOn)
  {
    if s != [] {
      assert s[0] in s && forall u <- s[1..] :: u in s;
      SoftSteps(s[1..], skips, handOn);
    }
  }

  lemma Parts(q: seq<Upload>)
    ensures Front(q) == Head(q) + Middle(q)
    ensures Middle(q) != [] ==> KindOf(Middle(q)[0]) == Good
    ensures forall u <- Front(q) :: u in q
    ensures forall u <- Head(q) :: u in q && KindOf(u) != Good
    ensures DistinctIds(q) ==> DistinctIds(Front(q)) && DistinctIds(Head(q))
  {
    HeadInFront(q);
  }

  /** Behind the first good upload nothing is skipped but breaking continuations. */
  lemma MiddleNotSkipped(c: Custody)
    requires Orderly(c)
    ensures forall u <- Middle(c.queue) :: !Fatal(u, true) ==> u.manifest.id !in c.skips
  {
    var q := c.queue;
    Parts(q);
    hide KindOf, Prefix;
    forall u <- Middle(q) | !Fatal(u, true) ensures u.manifest.id !in c.skips {
      var i :| 0 <= i < |Middle(q)| && Middle(q)[i] == u;
      assert u == q[|Head(q)| + i];
      forall v <- q | v.manifest.id == u.manifest.id ensures v == u {
        SameUpload(q, u, v);
      }
      forall v <- Head(q) ensures v.manifest.id != u.manifest.id {
        var j :| 0 <= j < |Head(q)| && Head(q)[j] == v;
        assert q[j] == v;
      }
    }
  }

  /** The rounds a hand-on spends along its front, whatever is skipped, are at least those no skip ever saves. */
  lemma FrontSteps(c: Custody)
    requires Orderly(c)
    ensures Tally(Head(c.queue), Soft) + Steps(Middle(c.queue), [], true) <= Steps(Front(c.queue), c.skips, true)
  {
    hide Orderly, Fatal;
    Parts(c.queue);
    StepsConcat(Head(c.queue), Middle(c.queue), c.skips, true);
    MiddleNotSkipped(c);
    StepsUnskipped(Middle(c.queue), c.skips, true);
    SoftHead(c, true);
  }

  /** A hand-on that gets past its front had the room the condition asks for. */
  lemma HandOnPast(c: Custody)
    requires Orderly(c) && |Front(c.queue)| < |c.queue|
    requires Cross(Front(c.queue), c.skips, SCAN_ROUNDS, true).Past?
    ensures HandOnOpens(c.queue)
  {
    var front := Front(c.queue);
    Parts(c.queue);
    CrossIs(front, c.skips, SCAN_ROUNDS, true);
    FrontSteps(c);
    StepsSaved(front, c.skips, true);
    OutsideCounts(c.skips, FatalIds(front, true));
  }

  lemma {:induction false} SameCrossing(s: seq<Upload>, skips: seq<Id>, budget: nat)
    requires forall u <- s :: KindOf(u) == Bad ==> u.manifest.id in skips
    ensures Cross(s, skips, budget, true) == Cross(s, skips, budget, false)
  {
    if s != [] && budget != 0 {
      assert s[0] in s && forall u <- s[1..] :: u in s;
      SameCrossing(s[1..], skips, budget);
      SameCrossing(s[1..], skips, budget - 1);
    }
  }

  /** A crossing that breaks nothing had skipped every breaking continuation within its reach. */
  lemma {:induction false} ReachedAreSkipped(s: seq<Upload>, skips: seq<Id>, left: nat)
    requires forall u <- s :: !Fatal(u, true) ==> u.manifest.id !in skips
    requires !Cross(s, skips, left, true).Hit?
    ensures forall id <- Reached(s, left) :: id in skips
  {
    if s != [] && left != 0 {
      assert s[0] in s && forall u <- s[1..] :: u in s;
      if Fatal(s[0], true) {
        ReachedAreSkipped(s[1..], skips, left);
      } else {
        ReachedAreSkipped(s[1..], skips, left - 1);
      }
    }
  }

  lemma HeadIsSkipped(c: Custody)
    requires Orderly(c) && Cross(Head(c.queue), c.skips, SCAN_ROUNDS, false).Past?
    ensures forall id <- FatalIds(Head(c.queue), false) :: id in c.skips
    ensures Tally(Head(c.queue), Soft) < SCAN_ROUNDS
    ensures Cross(Head(c.queue), c.skips, SCAN_ROUNDS, true) == Past(SCAN_ROUNDS - Tally(Head(c.queue), Soft))
  {
    var head := Head(c.queue);
    Parts(c.queue);
    CrossIs(head, c.skips, SCAN_ROUNDS, false);
    SoftHead(c, false);
    SameCrossing(head, c.skips, SCAN_ROUNDS);
  }

  /** An ordinary pass that gets past its head, after a hand-on that took nothing and left it a session, had the room. */
  lemma OrdinaryPast(c: Custody)
    requires Orderly(c) && |Head(c.queue)| < |c.queue|
    requires Cross(Head(c.queue), c.skips, SCAN_ROUNDS, false).Past?
    requires !Cross(Front(c.queue), c.skips, SCAN_ROUNDS, true).Hit?
    requires |Front(c.queue)| < |c.queue| ==> Cross(Front(c.queue), c.skips, SCAN_ROUNDS, true).Spent?
    ensures OrdinaryOpens(c.queue)
  {
    hide Orderly, FatalIds, Reached, Cross, Tally, Prefix, Fatal;
    var q := c.queue;
    var left := SCAN_ROUNDS - Tally(Head(q), Soft);
    Parts(q);
    HeadIsSkipped(c);
    CrossConcat(Head(q), Middle(q), c.skips, SCAN_ROUNDS, true);
    assert Middle(q) != [];
    MiddleNotSkipped(c);
    ReachedAreSkipped(Middle(q), c.skips, left);
    Covered(FatalIds(Head(q), false) + Reached(Middle(q), left), c.skips);
    assert |c.skips| <= SCAN_ROUNDS by { OrderlyFits(c); }
  }

  lemma OrderlyFits(c: Custody)
    requires Orderly(c)
    ensures DistinctIds(c.queue) && DistinctSeq(c.skips) && |c.skips| <= SCAN_ROUNDS
  {
  }

  // ----------------------------------------------------------------- one exchange

  /** One exchange, by how its two passes cross what lies ahead of them. */
  lemma ExchangeIs(c: Custody)
    requires Orderly(c)
    ensures
      var q, c' := c.queue, Perform(c, Exchange);
      var f, o := Cross(Front(q), c.skips, SCAN_ROUNDS, true), Cross(Head(q), c.skips, SCAN_ROUNDS, false);
      if f.Hit? then c' == Custody(q, Skipping(c.skips, f.id))
      else if f.Past? && |Front(q)| < |q| then Tally(c'.queue, Good) < Tally(q, Good)
      else if o.Hit? then c' == Custody(q, Skipping(c.skips, o.id))
      else if o.Past? && |Head(q)| < |q| then Tally(c'.queue, Good) < Tally(q, Good)
      else c' == Custody(q, [])
  {
    hide Cross, Prefix, Orderly, Walk, Skipping, Tally;
    PassCrosses(c, true);
    PassCrosses(c, false);
    var c1 := Pass(c, true).0;
    WalkKeeps(c1.queue, c1.skips, SCAN_ROUNDS, false);
  }

  lemma LearntIsOrderly(c: Custody, id: Id)
    requires Orderly(c) && id !in c.skips && id in Learnable(c.queue)
    ensures Orderly(Custody(c.queue, Skipping(c.skips, id))) && Orderly(Custody(c.queue, []))
  {
  }

  lemma HitIsLearnable(c: Custody)
    requires Orderly(c)
    ensures
      var f := Cross(Front(c.queue), c.skips, SCAN_ROUNDS, true);
      f.Hit? ==> f.id in FatalIds(Front(c.queue), true) && f.id !in c.skips && f.id in Learnable(c.queue)
    ensures
      var o := Cross(Head(c.queue), c.skips, SCAN_ROUNDS, false);
      o.Hit? ==> o.id in FatalIds(Head(c.queue), false) && o.id !in c.skips && o.id in Learnable(c.queue)
  {
    hide Cross;
    Parts(c.queue);
    CrossIs(Front(c.queue), c.skips, SCAN_ROUNDS, true);
    CrossIs(Head(c.queue), c.skips, SCAN_ROUNDS, false);
  }

  lemma StuckStep(c: Custody, step: Step)
    requires Orderly(c) && !Opens(c.queue)
    ensures Perform(c, step).queue == c.queue && Orderly(Perform(c, step))
  {
    hide Cross, Prefix, Orderly, Pass, Skipping, HandOnOpens, OrdinaryOpens, Learnable;
    var q := c.queue;
    var f, o := Cross(Front(q), c.skips, SCAN_ROUNDS, true), Cross(Head(q), c.skips, SCAN_ROUNDS, false);
    HitIsLearnable(c);
    if f.Hit? {
      LearntIsOrderly(c, f.id);
    }
    if o.Hit? {
      LearntIsOrderly(c, o.id);
    }
    if f.Past? && |Front(q)| < |q| {
      HandOnPast(c);
    }
    if !f.Hit? && o.Past? && |Head(q)| < |q| {
      OrdinaryPast(c);
    }
    EmptyIsOrderly(c);
    PassCrosses(c, true);
    ExchangeIs(c);
  }

  lemma EmptyIsOrderly(c: Custody)
    requires Orderly(c)
    ensures Orderly(Custody(c.queue, []))
  {
  }

  /**
   A queue that does not open stays as it is for good: no run of hand-ons and
   exchanges ever takes anything off it.
   */
  lemma {:induction false} StuckStays(c: Custody, steps: seq<Step>)
    requires Orderly(c) && !Opens(c.queue)
    ensures Run(c, steps).queue == c.queue && Orderly(Run(c, steps))
    decreases |steps|
  {
    if steps != [] {
      hide Perform, Orderly, Opens;
      StuckStep(c, steps[0]);
      StuckStays(Perform(c, steps[0]), steps[1..]);
    }
  }

  // ------------------------------------------------------------- an open queue moves

  /** What the skip list comes to hold before something is taken: nothing the condition did not make room for. */
  ghost predicate Planned(q: seq<Upload>, skips: seq<Id>) {
    if HandOnOpens(q) then
      && (forall x <- skips :: x in FatalIds(Front(q), true) + FatalIds(Head(q), false))
      && Outside(skips, FatalIds(Front(q), true)) <= Over(Steps(Front(q), [], true))
    else forall x <- skips :: x in Wanted(q)
  }

  ghost function Wanted(q: seq<Upload>): set<Id> {
    var soft := Tally(Head(q), Soft);
    FatalIds(Head(q), false) + Reached(Middle(q), if soft < SCAN_ROUNDS then SCAN_ROUNDS - soft else 0)
  }

  lemma PlannedFits(q: seq<Upload>, skips: seq<Id>)
    requires Opens(q) && DistinctSeq(skips) && Planned(q, skips)
    ensures |skips| <= SCAN_ROUNDS
  {
    hide Prefix, FatalIds, Steps, Outside, Over, Tally, Reached;
    if HandOnOpens(q) {
      OutsideCounts(skips, FatalIds(Front(q), true));
    } else {
      SeqWithin(skips, Wanted(q));
    }
  }

  lemma {:induction false} StepsFewer(s: seq<Upload>, skips: seq<Id>, handOn: bool)
    ensures Steps(s, skips, handOn) <= Steps(s, [], handOn)
  {
    if s != [] {
      StepsFewer(s[1..], skips, handOn);
    }
  }

  /** A head's breaking upload is either one a hand-on breaks on too or one it steps over. */
  lemma HeadBreakers(q: seq<Upload>, x: Id)
    requires x in FatalIds(Front(q), true) + FatalIds(Head(q), false)
    ensures x in FatalIds(Front(q), true) || SteppedOver(Front(q), x, true)
  {
    Parts(q);
    if x !in FatalIds(Front(q), true) {
      var u :| u in Head(q) && Fatal(u, false) && u.manifest.id == x;
      assert u in Front(q);
    }
  }

  /** What the hand-on breaks on is planned for, and so is what the ordinary pass breaks on once the hand-on is spent. */
  lemma LearnsForHandOn(c: Custody, x: Id)
    requires Orderly(c) && HandOnOpens(c.queue) && x !in c.skips
    requires
      || x in FatalIds(Front(c.queue), true)
      || (x in FatalIds(Head(c.queue), false) && Steps(Front(c.queue), c.skips, true) >= SCAN_ROUNDS)
    ensures Planned(c.queue, [x])
    ensures Planned(c.queue, c.skips) ==> Planned(c.queue, c.skips + [x])
  {
    var q := c.queue;
    var fatal := FatalIds(Front(q), true);
    hide Prefix, Steps, HandOnOpens, Learnable, FatalIds;
    Parts(q);
    StepsFewer(Front(q), c.skips, true);
    assert [x][..0] == [] && (c.skips + [x])[..|c.skips|] == c.skips;
    assert Outside([x], fatal) == (if x in fatal then 0 else 1);
    if Planned(q, c.skips) {
      forall y <- c.skips ensures y in fatal || SteppedOver(Front(q), y, true) {
        HeadBreakers(q, y);
      }
      StepsSaved(Front(q), c.skips, true);
    }
  }

  lemma {:induction false} HitIsReached(s: seq<Upload>, skips: seq<Id>, left: nat, more: nat)
    requires forall u <- s :: !Fatal(u, true) ==> u.manifest.id !in skips
    requires Cross(s, skips, left, true).Hit? && left <= more
    ensures Cross(s, skips, left, true).id in Reached(s, more)
  {
    assert s[0] in s && forall u <- s[1..] :: u in s;
    if Fatal(s[0], true) {
      if s[0].manifest.id in skips {
        HitIsReached(s[1..], skips, left, more);
      }
    } else {
      HitIsReached(s[1..], skips, left - 1, more - 1);
    }
  }

  lemma SoftHead(c: Custody, handOn: bool)
    requires Orderly(c)
    ensures Tally(Head(c.queue), Soft) <= Steps(Head(c.queue), c.skips, handOn)
    ensures !handOn ==> Tally(Head(c.queue), Soft) == Steps(Head(c.queue), c.skips, handOn)
  {
    hide Orderly, Prefix;
    Parts(c.queue);
    forall u <- Head(c.queue) | KindOf(u) == Soft ensures u.manifest.id !in c.skips {
      NotSkipped(c, u);
    }
    SoftSteps(Head(c.queue), c.skips, handOn);
  }

  lemma HeadFatal(q: seq<Upload>)
    ensures FatalIds(Head(q), true) <= FatalIds(Head(q), false)
  {
  }

  /** What a hand-on breaks on while the first good upload waits lies ahead of that one, or within reach behind it. */
  lemma HitIsWanted(c: Custody)
    requires Orderly(c) && Tally(Head(c.queue), Soft) < SCAN_ROUNDS
    requires Cross(Front(c.queue), c.skips, SCAN_ROUNDS, true).Hit?
    ensures Cross(Front(c.queue), c.skips, SCAN_ROUNDS, true).id in Wanted(c.queue)
  {
    hide Cross, Prefix, Orderly, Reached, FatalIds, Fatal, Tally, Steps;
    var q := c.queue;
    Parts(q);
    HeadFatal(q);
    CrossConcat(Head(q), Middle(q), c.skips, SCAN_ROUNDS, true);
    CrossIs(Head(q), c.skips, SCAN_ROUNDS, true);
    var first := Cross(Head(q), c.skips, SCAN_ROUNDS, true);
    if first.Past? {
      SoftHead(c, true);
      MiddleNotSkipped(c);
      HitIsReached(Middle(q), c.skips, first.left, SCAN_ROUNDS - Tally(Head(q), Soft));
    }
  }

  /** Exchanges left, at most, before something is taken. */
  ghost function Rank(c: Custody): int {
    if Planned(c.queue, c.skips) then SCAN_ROUNDS - |c.skips| else 2 * SCAN_ROUNDS + 1 - |c.skips|
  }

  lemma LearningRanks(c: Custody, x: Id)
    requires Orderly(c) && Opens(c.queue) && x !in c.skips && x in Learnable(c.queue)
    requires Planned(c.queue, [x]) && (Planned(c.queue, c.skips) ==> Planned(c.queue, c.skips + [x]))
    ensures
      var c' := Custody(c.queue, Skipping(c.skips, x));
      Orderly(c') && 0 <= Rank(c') < Rank(c)
  {
    hide Planned, Opens, Learnable;
    LearntIsOrderly(c, x);
    var c' := Custody(c.queue, Skipping(c.skips, x));
    assert DistinctSeq(c.skips + [x]) && [] + [x] == [x];
    if Planned(c.queue, c.skips) {
      PlannedFits(c.queue, c.skips + [x]);
    }
  }

  /** In a queue that opens, an exchange takes something or learns a breaking upload the plan has room for. */
  lemma OpenStep(c: Custody)
    requires Orderly(c) && Opens(c.queue)
    ensures
      var c' := Perform(c, Exchange);
      || Tally(c'.queue, Good) < Tally(c.queue, Good)
      || (c'.queue == c.queue && Orderly(c') && 0 <= Rank(c') < Rank(c))
  {
    hide Cross, Prefix, Orderly, Perform, Skipping, Rank, Planned, Learnable, FatalIds, Steps, Tally, Reached, Over;
    var q := c.queue;
    var f, o := Cross(Front(q), c.skips, SCAN_ROUNDS, true), Cross(Head(q), c.skips, SCAN_ROUNDS, false);
    ExchangeIs(c);
    HitIsLearnable(c);
    HeadInFront(q);
    CrossIs(Front(q), c.skips, SCAN_ROUNDS, true);
    CrossIs(Head(q), c.skips, SCAN_ROUNDS, false);
    SoftHead(c, false);
    if f.Hit? || !(f.Past? && |Front(q)| < |q|) {
      if f.Hit? {
        Learns(c, f.id);
      } else if o.Hit? {
        Learns(c, o.id);
      }
    }
  }

  lemma Learns(c: Custody, x: Id)
    requires Orderly(c) && Opens(c.queue) && x !in c.skips && x in Learnable(c.queue)
    requires
      var f, o := Cross(Front(c.queue), c.skips, SCAN_ROUNDS, true), Cross(Head(c.queue), c.skips, SCAN_ROUNDS, false);
      f == Hit(x) || (!f.Hit? && o == Hit(x) && (|Front(c.queue)| < |c.queue| ==> f.Spent?))
    ensures
      var c' := Custody(c.queue, Skipping(c.skips, x));
      Orderly(c') && 0 <= Rank(c') < Rank(c)
  {
    hide Cross, Prefix, Orderly, Skipping, Rank, Learnable, FatalIds, Steps, Tally, Reached, Over;
    HitIsLearnable(c);
    CrossIs(Front(c.queue), c.skips, SCAN_ROUNDS, true);
    if HandOnOpens(c.queue) {
      LearnsForHandOn(c, x);
    } else if Cross(Front(c.queue), c.skips, SCAN_ROUNDS, true).Hit? {
      HitIsWanted(c);
    }
    LearningRanks(c, x);
  }

  // ---------------------------------------------------------------- what a run keeps

  lemma {:induction false} FailingFatal(q: seq<Upload>, handOn: bool)
    ensures FatalIds(Failing(q), handOn) == FatalIds(q, handOn)
  {
    if q != [] {
      FailingFatal(q[1..], handOn);
      FatalHead(q, handOn);
      var tail := Failing(q[1..]);
      if KindOf(q[0]) != Good {
        assert Failing(q) == [q[0]] + tail && Failing(q)[1..] == tail;
        FatalHead(Failing(q), handOn);
      } else {
        assert Failing(q) == tail;
      }
    }
  }

  /** The breaking uploads ahead of the first good one. */
  ghost function HeadBad(q: seq<Upload>): set<Id> {
    FatalIds(Head(q), false)
  }

  lemma HeadHead(q: seq<Upload>)
    requires q != []
    ensures KindOf(q[0]) == Good ==> HeadBad(q) == {}
    ensures KindOf(q[0]) != Good ==>
      HeadBad(q) == HeadBad(q[1..]) + if KindOf(q[0]) == Bad then {q[0].manifest.id} else {}
  {
    if KindOf(q[0]) != Good {
      assert Head(q) == [q[0]] + Head(q[1..]) && Head(q)[1..] == Head(q[1..]);
      FatalHead(Head(q), false);
    }
  }

  lemma MeetCrash(u: Upload, skips: seq<Id>, handOn: bool)
    ensures Meet(u, skips, handOn).Crash? ==> Fatal(u, handOn)
  {
  }

  /** A walk leaves the head where it is, and what an ordinary walk breaks on is then part of the head. */
  lemma {:induction false} WalkHead(q: seq<Upload>, skips: seq<Id>, budget: nat, handOn: bool)
    requires forall u <- q :: KindOf(u) == Good ==> u.manifest.id !in skips
    ensures
      var end := Walk(q, skips, budget, handOn);
      && HeadBad(q) <= HeadBad(end.remaining)
      && (end.stop.Broke? && handOn ==> end.stop.id in FatalIds(q, true))
      && (end.stop.Broke? && !handOn ==> end.stop.id in HeadBad(end.remaining))
  {
    hide FatalIds, HeadBad, Meet, KindOf, Fatal;
    if budget != 0 && q != [] {
      assert q[0] in q && forall u <- q[1..] :: u in q;
      FatalHead(q, true);
      HeadHead(q);
      MeetIs(q[0], skips, handOn);
      MeetCrash(q[0], skips, handOn);
      var rest := q[1..];
      match Meet(q[0], skips, handOn) {
        case Leave(cost) =>
          WalkHead(rest, skips, budget - cost, handOn);
          var left := Walk(rest, skips, budget - cost, handOn).remaining;
          assert ([q[0]] + left)[1..] == left;
          HeadHead([q[0]] + left);
        case Take(goesOn) => WalkHead(rest, skips, budget - 1, handOn);
        case Crash =>
      }
    }
  }

  lemma PassIsOrderly(c: Custody, handOn: bool)
    requires Orderly(c)
    ensures Orderly(Pass(c, handOn).0) && Tally(Pass(c, handOn).0.queue, Good) <= Tally(c.queue, Good)
  {
    hide Walk, Prefix, FatalIds, Failing, Tally;
    var q, end := c.queue, Walk(c.queue, c.skips, SCAN_ROUNDS, handOn);
    forall u <- q | KindOf(u) == Good ensures u.manifest.id !in c.skips {
      NotSkipped(c, u);
    }
    WalkHead(q, c.skips, SCAN_ROUNDS, handOn);
    WalkKeeps(q, c.skips, SCAN_ROUNDS, handOn);
    WalkDistinct(q, c.skips, SCAN_ROUNDS, handOn);
    FailingFatal(q, true);
    FailingFatal(end.remaining, true);
    assert Learnable(q) <= Learnable(end.remaining);
  }

  lemma PerformIsOrderly(c: Custody, step: Step)
    requires Orderly(c)
    ensures Orderly(Perform(c, step)) && Tally(Perform(c, step).queue, Good) <= Tally(c.queue, Good)
  {
    hide Orderly, Pass;
    PassIsOrderly(c, true);
    PassIsOrderly(Pass(c, true).0, false);
  }

  // ------------------------------------------------------------------- whole runs

  /** What is left before the queue has come to rest, counted in exchanges. */
  ghost function Unrest(c: Custody): int {
    Tally(c.queue, Good) * (2 * SCAN_ROUNDS + 2) + if Opens(c.queue) then Rank(c) + 1 else 0
  }

  lemma RankFits(c: Custody)
    requires Orderly(c)
    ensures 0 <= Rank(c) <= 2 * SCAN_ROUNDS + 1
  {
  }

  lemma HandOnStep(c: Custody)
    requires Orderly(c) && Opens(c.queue)
    ensures
      var c' := Perform(c, HandOnOnly);
      || Tally(c'.queue, Good) < Tally(c.queue, Good)
      || (c'.queue == c.queue && Orderly(c') && 0 <= Rank(c') <= Rank(c))
  {
    hide Cross, Prefix, Orderly, Skipping, Rank, Opens, Learnable, FatalIds;
    PassCrosses(c, true);
    HitIsLearnable(c);
    RankFits(c);
    if Cross(Front(c.queue), c.skips, SCAN_ROUNDS, true).Hit? {
      Learns(c, Cross(Front(c.queue), c.skips, SCAN_ROUNDS, true).id);
    }
  }

  lemma LessUnrest(c: Custody, c': Custody)
    requires Orderly(c) && Orderly(c') && Tally(c'.queue, Good) < Tally(c.queue, Good)
    ensures Unrest(c') <= Tally(c.queue, Good) * (2 * SCAN_ROUNDS + 2) <= Unrest(c)
    ensures Opens(c.queue) ==> Unrest(c') < Unrest(c)
  {
    hide Orderly, Rank, Opens;
    RankFits(c);
    RankFits(c');
    Scaled(Tally(c'.queue, Good) + 1, Tally(c.queue, Good), 2 * SCAN_ROUNDS + 2);
  }

  lemma StepSettles(c: Custody, step: Step)
    requires Orderly(c)
    ensures
      var c' := Perform(c, step);
      && Orderly(c') && 0 <= Unrest(c')
      && (Opens(c.queue) ==> Unrest(c') <= Unrest(c) - if step.Exchange? then 1 else 0)
      && (!Opens(c.queue) ==> c'.queue == c.queue)
  {
    hide Orderly, Perform, Rank, Opens, Tally;
    var c' := Perform(c, step);
    PerformIsOrderly(c, step);
    RankFits(c');
    if Opens(c.queue) {
      if step.Exchange? {
        OpenStep(c);
      } else {
        HandOnStep(c);
      }
      if Tally(c'.queue, Good) < Tally(c.queue, Good) {
        LessUnrest(c, c');
      }
    } else {
      StuckStep(c, step);
    }
  }

  /**
   Every run comes to rest: once it holds as many exchanges as `Unrest` counts,
   at most (G + 1) * (2 * SCAN_ROUNDS + 2) for G good uploads, its queue no longer
   opens, and then no further run changes it.
   */
  lemma {:induction false} RunSettles(c: Custody, steps: seq<Step>)
    requires Orderly(c) && Exchanges(steps) >= Unrest(c)
    ensures Orderly(Run(c, steps)) && !Opens(Run(c, steps).queue)
    decreases |steps|
  {
    hide Orderly, Perform, Rank, Opens;
    RankFits(c);
    if Opens(c.queue) {
      assert steps != [];
      StepSettles(c, steps[0]);
      RunSettles(Perform(c, steps[0]), steps[1..]);
    } else if steps != [] {
      StuckStep(c, steps[0]);
      StuckStays(c, steps);
    }
  }

  /** At rest means at rest for good. */
  lemma RestIsFinal(c: Custody, steps: seq<Step>, more: seq<Step>)
    requires Orderly(c) && Exchanges(steps) >= (Tally(c.queue, Good) + 1) * (2 * SCAN_ROUNDS + 2)
    ensures Run(Run(c, steps), more).queue == Run(c, steps).queue
  {
    hide Orderly, Opens, Rank;
    RankFits(c);
    RunSettles(c, steps);
    StuckStays(Run(c, steps), more);
  }

  lemma {:induction false} RunKeepsFewer(c: Custody, steps: seq<Step>)
    requires Orderly(c)
    ensures Tally(Run(c, steps).queue, Good) <= Tally(c.queue, Good)
    decreases |steps|
  {
    if steps != [] {
      hide Orderly, Perform, Tally;
      PerformIsOrderly(c, steps[0]);
      RunKeepsFewer(Perform(c, steps[0]), steps[1..]);
    }
  }

  lemma {:induction false} OpenRunTakes(c: Custody, steps: seq<Step>)
    requires Orderly(c) && Opens(c.queue) && Exchanges(steps) > Rank(c)
    ensures Tally(Run(c, steps).queue, Good) < Tally(c.queue, Good)
    decreases |steps|
  {
    hide Orderly, Perform, Rank, Opens, Tally;
    RankFits(c);
    assert steps != [];
    var c' := Perform(c, steps[0]);
    PerformIsOrderly(c, steps[0]);
    if steps[0].Exchange? {
      OpenStep(c);
    } else {
      HandOnStep(c);
    }
    if Tally(c'.queue, Good) < Tally(c.queue, Good) {
      RunKeepsFewer(c', steps[1..]);
    } else {
      OpenRunTakes(c', steps[1..]);
    }
  }

  /**
   Exactly when a worker's custody moves: any run with more than 2 * SCAN_ROUNDS
   + 1 exchanges, hand-ons interleaved at will, takes something off the queue if
   and only if the queue opens.
   */
  lemma TakesIff(c: Custody, steps: seq<Step>)
    requires Orderly(c) && Exchanges(steps) > 2 * SCAN_ROUNDS + 1
    ensures Tally(Run(c, steps).queue, Good) < Tally(c.queue, Good) <==> Opens(c.queue)
    ensures Run(c, steps).queue != c.queue <==> Opens(c.queue)
  {
    hide Orderly, Rank, Opens, Tally;
    RankFits(c);
    if Opens(c.queue) {
      OpenRunTakes(c, steps);
    } else {
      StuckStays(c, steps);
    }
  }

  // ------------------------------------------------------------ one upload among failures

  ghost predicate AllFail(s: seq<Upload>) {
    forall u <- s :: KindOf(u) != Good
  }

  lemma {:induction false} NoneGood(s: seq<Upload>)
    ensures AllFail(s) <==> Tally(s, Good) == 0
  {
    if s != [] {
      NoneGood(s[1..]);
      assert forall u :: u in s <==> u == s[0] || u in s[1..];
    }
  }

  /** The only good upload is taken exactly when the queue opens. */
  lemma LoneTaken(head: seq<Upload>, u: Upload, tail: seq<Upload>, steps: seq<Step>)
    requires DistinctIds(head + [u] + tail) && KindOf(u) == Good && AllFail(head) && AllFail(tail)
    requires Exchanges(steps) > 2 * SCAN_ROUNDS + 1
    ensures u !in Run(Custody(head + [u] + tail, []), steps).queue <==> Opens(head + [u] + tail)
  {
    hide DistinctIds, Opens, AllFail;
    var q := head + [u] + tail;
    var c := Custody(q, []);
    FreshIsOrderly(q);
    TakesIff(c, steps);
    NoneGood(head);
    NoneGood(tail);
    TallyConcat(head + [u], tail, Good);
    TallyConcat(head, [u], Good);
    assert [u][1..] == [] && Tally([u], Good) == 1;
    assert u in q;
    NoneGood(Run(c, steps).queue);
    if Opens(q) {
      assert AllFail(Run(c, steps).queue);
      NotAmong(Run(c, steps).queue, u);
    }
  }

  lemma NotAmong(s: seq<Upload>, u: Upload)
    requires AllFail(s) && KindOf(u) == Good
    ensures u !in s
  {
  }

  /**
   Exactly what hides a continuation among uploads that fail: it is taken if and
   only if fewer than SCAN_ROUNDS soft failures lie ahead of it and the skip list
   has room for every breaking continuation ahead and for as many other breaking
   uploads as bring the rest within one scan. What lies behind it does not matter.
   */
  lemma ContinuationTakenIff(head: seq<Upload>, u: Upload, tail: seq<Upload>, steps: seq<Step>)
    requires DistinctIds(head + [u] + tail) && Takeable(u, true) && AllFail(head) && AllFail(tail)
    requires Exchanges(steps) > 2 * SCAN_ROUNDS + 1
    ensures u !in Run(Custody(head + [u] + tail, []), steps).queue <==>
      && Tally(head, Soft) < SCAN_ROUNDS
      && |FatalIds(head, true)| + Over(Steps(head, [], true)) <= SCAN_ROUNDS
  {
    hide DistinctIds, FatalIds, Steps, Tally, Over, Run, Exchanges;
    var q := head + [u] + tail;
    LoneTaken(head, u, tail, steps);
    assert q == head + ([u] + tail);
    PrefixIs(head, [u] + tail, true);
    PrefixIs(head, [u] + tail, false);
    assert Middle(q) == [];
    assert Steps(Middle(q), [], true) == 0 by { NoSteps(); }
  }

  lemma NoSteps()
    ensures Steps([], [], true) == 0
  {
  }

  lemma CheckpointOpens(head: seq<Upload>, u: Upload, tail: seq<Upload>)
    requires KindOf(u) == Good && !u.manifest.continuation && AllFail(head) && AllFail(tail)
    ensures Opens(head + [u] + tail) <==>
      && Tally(head, Soft) < SCAN_ROUNDS
      && |FatalIds(head, false) + Reached([u] + tail, SCAN_ROUNDS - Tally(head, Soft))| <= SCAN_ROUNDS
  {
    hide FatalIds, Steps, Tally, Over, Reached, Prefix, KindOf;
    var q := head + [u] + tail;
    assert q == head + ([u] + tail) && q + [] == q;
    PrefixIs(q, [], true);
    PrefixIs(head, [u] + tail, false);
    assert Middle(q) == [u] + tail;
  }

  /**
   Exactly what hides any other checkpoint among uploads that fail: it is taken
   if and only if fewer than SCAN_ROUNDS soft failures lie ahead of it and the
   skip list has room for every breaking upload ahead and for every breaking
   continuation behind it within a hand-on's reach, since a hand-on that breaks
   leaves the ordinary pass no session.
   */
  lemma CheckpointTakenIff(head: seq<Upload>, u: Upload, tail: seq<Upload>, steps: seq<Step>)
    requires DistinctIds(head + [u] + tail) && KindOf(u) == Good && !u.manifest.continuation
    requires AllFail(head) && AllFail(tail) && Exchanges(steps) > 2 * SCAN_ROUNDS + 1
    ensures u !in Run(Custody(head + [u] + tail, []), steps).queue <==>
      && Tally(head, Soft) < SCAN_ROUNDS
      && |FatalIds(head, false) + Reached([u] + tail, SCAN_ROUNDS - Tally(head, Soft))| <= SCAN_ROUNDS
  {
    hide DistinctIds, FatalIds, Tally, Run, Exchanges, Reached, Opens, AllFail;
    LoneTaken(head, u, tail, steps);
    CheckpointOpens(head, u, tail);
  }

  lemma {:induction false} AllReached(s: seq<Upload>, left: nat)
    requires left > 0 && forall u <- s :: Fatal(u, true)
    ensures forall u <- s :: u.manifest.id in Reached(s, left)
  {
    hide Fatal;
    if s != [] {
      assert s[0] in s && forall u <- s[1..] :: u in s;
      AllReached(s[1..], left);
      assert forall u <- s :: u == s[0] || u in s[1..];
    }
  }

  lemma {:induction false} AsManyIds(s: seq<Upload>, ids: set<Id>)
    requires DistinctIds(s) && forall u <- s :: u.manifest.id in ids
    ensures |s| <= |ids|
  {
    hide DistinctIds;
    if s != [] {
      assert s == [s[0]] + s[1..] && s[0] in s && forall u <- s[1..] :: u in s;
      DistinctTail(s[0], s[1..]);
      AsManyIds(s[1..], ids - {s[0].manifest.id});
    }
  }

  lemma ReachedBehind(u: Upload, s: seq<Upload>, left: nat)
    requires !Fatal(u, true) && left > 0
    ensures Reached([u] + s, left) == Reached(s, left - 1)
  {
    assert ([u] + s)[1..] == s;
  }

  lemma FreshIsOrderly(q: seq<Upload>)
    requires DistinctIds(q)
    ensures Orderly(Custody(q, []))
  {
  }

  lemma NothingAhead()
    ensures FatalIds([], false) == {} && Tally([], Soft) == 0
  {
  }

  /**
   Breaking continuations behind a checkpoint starve it: with more of them than
   the skip list holds every hand-on breaks, so although nothing at all lies ahead
   of the checkpoint no run ever takes it.
   */
  lemma BreakersBehindStarve(u: Upload, breakers: seq<Upload>, steps: seq<Step>)
    requires DistinctIds([u] + breakers) && KindOf(u) == Good && !u.manifest.continuation
    requires |breakers| > SCAN_ROUNDS && forall b <- breakers :: Fatal(b, true)
    ensures u in Run(Custody([u] + breakers, []), steps).queue
  {
    hide Run, Opens, DistinctIds, Orderly, Reached, FatalIds, Tally;
    var q := [u] + breakers;
    assert [] + [u] + breakers == q && q[0] == u;
    FreshIsOrderly(q);
    DistinctTail(u, breakers);
    CheckpointOpens([], u, breakers);
    AllReached(breakers, SCAN_ROUNDS - 1);
    AsManyIds(breakers, Reached(breakers, SCAN_ROUNDS - 1));
    ReachedBehind(u, breakers, SCAN_ROUNDS);
    NothingAhead();
    assert {} + Reached(breakers, SCAN_ROUNDS - 1) == Reached(breakers, SCAN_ROUNDS - 1);
    StuckStays(Custody(q, []), steps);
  }

  lemma {:induction false} PlainSteps(s: seq<Upload>)
    requires forall u <- s :: KindOf(u) == Bad && !u.manifest.continuation
    ensures Steps(s, [], true) == |s| && Tally(s, Soft) == 0 && FatalIds(s, true) == {}
  {
    if s != [] {
      assert s[0] in s && forall u <- s[1..] :: u in s;
      PlainSteps(s[1..]);
    }
  }

  /** Breaking uploads that are no continuations hide a continuation only from 2 * SCAN_ROUNDS of them on. */
  lemma PlainBreakersAhead(head: seq<Upload>, u: Upload, steps: seq<Step>)
    requires DistinctIds(head + [u] + []) && Takeable(u, true)
    requires forall b <- head :: KindOf(b) == Bad && !b.manifest.continuation
    requires Exchanges(steps) > 2 * SCAN_ROUNDS + 1
    ensures u !in Run(Custody(head + [u] + [], []), steps).queue <==> |head| < 2 * SCAN_ROUNDS
  {
    hide DistinctIds, Run, Exchanges, Steps, Tally;
    PlainSteps(head);
    assert |FatalIds(head, true)| == 0;
    ContinuationTakenIff(head, u, [], steps);
  }
}
